/**
 * The batch scheduler over pending and approved requests, and the backfill
 * pass over scheduled requests that hold no reservation.  Both are one
 * greedy pass: each request is tried once, in order, against the tables as
 * left by the requests before it.
 */
module Batch {
  import opened Wrappers
  import opened Model
  import opened Groups
  import opened Invariants
  import opened Allocation

  /** 0 when the request or its teacher names a preferred lab, else 1. */
  function Tier(req: LabRequest, teachers: seq<Teacher>): (r: nat)
    ensures r <= 1
    ensures r == 0 <==>
              NamesKey(req.preferredLab)
              || (FindTeacher(teachers, req.teacher).Some? && NamesKey(FindTeacher(teachers, req.teacher).value.preferredLab))
  {
    if PreferredLabId(req, teachers).Some? then 0 else 1
  }

  /** A request paired with its tier, the form in which the batch sorts it. */
  datatype Ranked = Ranked(tier: nat, req: LabRequest)

  /** The batch priority: tier first, then creation order. */
  predicate KeyLe(a: Ranked, b: Ranked)
  {
    a.tier < b.tier || (a.tier == b.tier && a.req.createdAt <= b.req.createdAt)
  }

  predicate SortedByPriority(s: seq<Ranked>)
  {
    forall i, j :: 0 <= i < j < |s| ==> KeyLe(s[i], s[j])
  }

  /** Puts `x` before the first entry whose key is not below its own. */
  function InsertByPriority(x: Ranked, s: seq<Ranked>): (r: seq<Ranked>)
    requires SortedByPriority(s)
    ensures multiset(r) == multiset(s) + multiset{x}
    ensures SortedByPriority(r)
  {
    if s == [] then [x]
    else if KeyLe(x, s[0]) then
      ConsByPriority(x, s);
      [x] + s
    else
      var tail := InsertByPriority(x, s[1..]);
      HeadBeforeInsertion(x, s, tail);
      ConsByPriority(s[0], tail);
      assert s == [s[0]] + s[1..];
      [s[0]] + tail
  }

  /** An entry whose key is not above the first of a sorted list can head it. */
  lemma ConsByPriority(h: Ranked, s: seq<Ranked>)
    requires SortedByPriority(s)
    requires s == [] || KeyLe(h, s[0])
    ensures SortedByPriority([h] + s)
  {
    var r := [h] + s;
    forall i, j | 0 <= i < j < |r| ensures KeyLe(r[i], r[j]) {
      assert r[j] == s[j - 1];
      if i > 0 { assert r[i] == s[i - 1]; }
    }
  }

  /** When `x` sorts after the head, the insertion into the rest starts no lower than the head. */
  lemma HeadBeforeInsertion(x: Ranked, s: seq<Ranked>, tail: seq<Ranked>)
    requires SortedByPriority(s) && s != [] && !KeyLe(x, s[0])
    requires multiset(tail) == multiset(s[1..]) + multiset{x}
    ensures tail == [] || KeyLe(s[0], tail[0])
  {
    if tail != [] {
      var y := tail[0];
      assert y in multiset(tail);
      if y != x {
        assert y in multiset(s[1..]);
        var j :| 0 <= j < |s[1..]| && s[1..][j] == y;
        assert s[j + 1] == y;
      }
    }
  }

  /** The entries ordered by priority (a stable insertion sort). */
  function SortByPriority(s: seq<Ranked>): (r: seq<Ranked>)
    ensures multiset(r) == multiset(s)
    ensures SortedByPriority(r)
  {
    if s == [] then []
    else
      assert s == [s[0]] + s[1..];
      InsertByPriority(s[0], SortByPriority(s[1..]))
  }

  /** The entries of `s` whose key is (`tier`, `created`), in their order in `s`. */
  function WithKey(s: seq<Ranked>, tier: nat, created: nat): seq<Ranked>
  {
    if s == [] then []
    else (if s[0].tier == tier && s[0].req.createdAt == created then [s[0]] else [])
         + WithKey(s[1..], tier, created)
  }

  /** `[x]` when `x` has key (`tier`, `created`), else nothing. */
  function KeyPart(x: Ranked, tier: nat, created: nat): seq<Ranked>
  {
    if x.tier == tier && x.req.createdAt == created then [x] else []
  }

  lemma WithKeyCons(h: Ranked, rest: seq<Ranked>, tier: nat, created: nat)
    ensures WithKey([h] + rest, tier, created) == KeyPart(h, tier, created) + WithKey(rest, tier, created)
  {
    assert ([h] + rest)[1..] == rest;
  }

  lemma {:induction false} InsertIsStable(x: Ranked, s: seq<Ranked>, tier: nat, created: nat)
    requires SortedByPriority(s)
    ensures WithKey(InsertByPriority(x, s), tier, created) == KeyPart(x, tier, created) + WithKey(s, tier, created)
  {
    if s == [] {
      WithKeyCons(x, [], tier, created);
    } else if KeyLe(x, s[0]) {
      WithKeyCons(x, s, tier, created);
    } else {
      InsertIsStable(x, s[1..], tier, created);
      InsertAfterHeadIsStable(x, s, InsertByPriority(x, s[1..]), tier, created);
    }
  }

  /** Inserting behind the head: the head and `x` never share a key, so their order does not matter. */
  lemma InsertAfterHeadIsStable(x: Ranked, s: seq<Ranked>, rest: seq<Ranked>, tier: nat, created: nat)
    requires s != [] && !KeyLe(x, s[0])
    requires WithKey(rest, tier, created) == KeyPart(x, tier, created) + WithKey(s[1..], tier, created)
    ensures WithKey([s[0]] + rest, tier, created) == KeyPart(x, tier, created) + WithKey(s, tier, created)
  {
    WithKeyCons(s[0], rest, tier, created);
    WithKeyCons(s[0], s[1..], tier, created);
    assert s == [s[0]] + s[1..];
    NotBothKeyed(x, s[0], tier, created);
    SwapAroundEmpty(KeyPart(s[0], tier, created), KeyPart(x, tier, created), WithKey(s[1..], tier, created));
  }

  /** Two entries in strictly decreasing priority cannot both have key (`tier`, `created`). */
  lemma NotBothKeyed(x: Ranked, y: Ranked, tier: nat, created: nat)
    requires !KeyLe(x, y)
    ensures KeyPart(x, tier, created) == [] || KeyPart(y, tier, created) == []
  {
  }

  lemma SwapAroundEmpty<T>(a: seq<T>, b: seq<T>, w: seq<T>)
    requires a == [] || b == []
    ensures a + (b + w) == b + (a + w)
  {
    if a == [] {
      assert a + (b + w) == b + w == b + (a + w);
    } else {
      assert a + (b + w) == a + w == b + (a + w);
    }
  }

  /** Entries that share a key keep their relative order (the sort is stable). */
  lemma {:induction false} SortIsStable(s: seq<Ranked>, tier: nat, created: nat)
    ensures WithKey(SortByPriority(s), tier, created) == WithKey(s, tier, created)
  {
    if s != [] {
      SortIsStable(s[1..], tier, created);
      InsertIsStable(s[0], SortByPriority(s[1..]), tier, created);
    }
  }

  /** Each request paired with its tier, order kept. */
  function RankAll(rs: seq<LabRequest>, teachers: seq<Teacher>): (r: seq<Ranked>)
    ensures |r| == |rs|
    ensures forall k :: 0 <= k < |rs| ==> r[k] == Ranked(Tier(rs[k], teachers), rs[k])
  {
    seq(|rs|, k requires 0 <= k < |rs| => Ranked(Tier(rs[k], teachers), rs[k]))
  }

  /** The requests of a ranked list, order kept. */
  function Requests(s: seq<Ranked>): (r: seq<LabRequest>)
    ensures |r| == |s|
    ensures forall k :: 0 <= k < |s| ==> r[k] == s[k].req
  {
    seq(|s|, k requires 0 <= k < |s| => s[k].req)
  }

  /** Pending and approved requests, in storage order. */
  function Unscheduled(rs: seq<LabRequest>): (r: seq<LabRequest>)
    ensures forall q :: q in r <==> q in rs && (q.status == Pending || q.status == Approved)
  {
    if rs == [] then []
    else
      assert forall q :: q in rs <==> q == rs[0] || q in rs[1..];
      (if rs[0].status == Pending || rs[0].status == Approved then [rs[0]] else []) + Unscheduled(rs[1..])
  }

  /** Scheduled requests, in storage order. */
  function ScheduledRequests(rs: seq<LabRequest>): (r: seq<LabRequest>)
    ensures forall q :: q in r <==> q in rs && q.status == Scheduled
  {
    if rs == [] then []
    else
      assert forall q :: q in rs <==> q == rs[0] || q in rs[1..];
      (if rs[0].status == Scheduled then [rs[0]] else []) + ScheduledRequests(rs[1..])
  }

  /** The requests of `rs` whose key is (`tier`, `created`), in their order in `rs`. */
  function SameKeyRequests(rs: seq<LabRequest>, teachers: seq<Teacher>, tier: nat, created: nat): seq<LabRequest>
  {
    if rs == [] then []
    else (if Tier(rs[0], teachers) == tier && rs[0].createdAt == created then [rs[0]] else [])
         + SameKeyRequests(rs[1..], teachers, tier, created)
  }

  /** Every entry carries its request's own tier. */
  predicate Consistent(s: seq<Ranked>, teachers: seq<Teacher>)
  {
    forall x :: x in s ==> x.tier == Tier(x.req, teachers)
  }

  lemma {:induction false} WithKeyProjects(s: seq<Ranked>, teachers: seq<Teacher>, tier: nat, created: nat)
    requires Consistent(s, teachers)
    ensures Requests(WithKey(s, tier, created)) == SameKeyRequests(Requests(s), teachers, tier, created)
  {
    if s != [] {
      WithKeyProjects(s[1..], teachers, tier, created);
      assert Requests(s)[1..] == Requests(s[1..]);
      assert s[0] in s;
      var head := if s[0].tier == tier && s[0].req.createdAt == created then [s[0]] else [];
      assert Requests(head + WithKey(s[1..], tier, created)) == Requests(head) + Requests(WithKey(s[1..], tier, created));
    }
  }

  /**
   * The pending and approved requests in the order the batch tries them:
   * those with a preference first, then by creation order.
   */
  function PriorityOrder(t: Tables): (r: seq<LabRequest>)
    ensures forall q :: q in r <==> q in t.requests && (q.status == Pending || q.status == Approved)
    ensures forall i, j :: 0 <= i < j < |r| ==>
              Tier(r[i], t.teachers) < Tier(r[j], t.teachers)
              || (Tier(r[i], t.teachers) == Tier(r[j], t.teachers) && r[i].createdAt <= r[j].createdAt)
  {
    var u := Unscheduled(t.requests);
    var ranked := RankAll(u, t.teachers);
    var s := SortByPriority(ranked);
    SortedRequestsMembers(u, t.teachers, ranked, s);
    SortedRequestsOrdered(t.teachers, s);
    Requests(s)
  }

  /** Sorting the ranked requests keeps exactly the requests. */
  lemma SortedRequestsMembers(u: seq<LabRequest>, teachers: seq<Teacher>, ranked: seq<Ranked>, s: seq<Ranked>)
    requires ranked == RankAll(u, teachers) && multiset(s) == multiset(ranked)
    ensures forall q :: q in Requests(s) <==> q in u
    ensures Consistent(s, teachers)
  {
    var r := Requests(s);
    assert forall x :: x in s <==> x in ranked by {
      assert forall x :: x in s <==> x in multiset(s);
      assert forall x :: x in ranked <==> x in multiset(ranked);
    }
    forall q | q in r ensures q in u {
      var k :| 0 <= k < |r| && r[k] == q;
      assert s[k] in ranked;
    }
    forall q | q in u ensures q in r {
      var k :| 0 <= k < |u| && u[k] == q;
      assert ranked[k] in s;
      var j :| 0 <= j < |s| && s[j] == ranked[k];
      assert r[j] == q;
    }
  }

  /** Entries sorted by priority, each with its own tier, give requests sorted by tier and creation. */
  lemma SortedRequestsOrdered(teachers: seq<Teacher>, s: seq<Ranked>)
    requires SortedByPriority(s) && Consistent(s, teachers)
    ensures var r := Requests(s);
            forall i, j :: 0 <= i < j < |r| ==>
              Tier(r[i], teachers) < Tier(r[j], teachers)
              || (Tier(r[i], teachers) == Tier(r[j], teachers) && r[i].createdAt <= r[j].createdAt)
  {
    var r := Requests(s);
    forall i, j | 0 <= i < j < |r|
      ensures Tier(r[i], teachers) < Tier(r[j], teachers)
              || (Tier(r[i], teachers) == Tier(r[j], teachers) && r[i].createdAt <= r[j].createdAt)
    {
      assert s[i] in s && s[j] in s;
      assert KeyLe(s[i], s[j]);
    }
  }

  /** Requests that share a key are tried in storage order (the sort is stable). */
  lemma PriorityOrderIsStable(t: Tables, tier: nat, created: nat)
    ensures SameKeyRequests(PriorityOrder(t), t.teachers, tier, created)
            == SameKeyRequests(Unscheduled(t.requests), t.teachers, tier, created)
  {
    var u := Unscheduled(t.requests);
    var ranked := RankAll(u, t.teachers);
    var s := SortByPriority(ranked);
    assert Consistent(s, t.teachers) by {
      forall x | x in s ensures x.tier == Tier(x.req, t.teachers) {
        assert x in multiset(s);
        assert x in ranked;
      }
    }
    assert Requests(ranked) == u;
    WithKeyProjects(s, t.teachers, tier, created);
    WithKeyProjects(ranked, t.teachers, tier, created);
    SortIsStable(ranked, tier, created);
  }

  /** The order in which the batch scheduler tries requests, as keys. */
  function BatchOrder(t: Tables): seq<RequestId>
  {
    RequestIds(PriorityOrder(t))
  }

  /** Every request of a list drawn from the table can be found by its key. */
  lemma IdsOfRowsExist(t: Tables, s: seq<LabRequest>)
    requires forall q :: q in s ==> q in t.requests
    ensures forall id :: id in RequestIds(s) ==> RequestIndex(t.requests, id).Some?
  {
    forall id | id in RequestIds(s) ensures RequestIndex(t.requests, id).Some? {
      var j :| 0 <= j < |s| && RequestIds(s)[j] == id;
      assert s[j] in t.requests;
    }
  }

  /** One turn of the loop: skip a reserved request, else allocate and mark a failure "conflict". */
  function Step(t: Tables, rid: RequestId): (r: Tables)
    requires RequestIndex(t.requests, rid).Some?
    ensures r.labs == t.labs && r.teachers == t.teachers
    ensures RequestIds(r.requests) == RequestIds(t.requests)
  {
    if ReservationIndex(t.reservations, rid).Some? then t
    else
      var a := Assign(t, rid);
      if a.ok then a.tables
      else
        var i := RequestIndex(t.requests, rid).value;
        assert |RequestIds(a.tables.requests)| == |RequestIds(t.requests)|;
        var r := WithStatus(a.tables, i, Conflict);
        assert RequestIds(r.requests) == RequestIds(a.tables.requests);
        r
  }

  /** The greedy pass over `ids`, each step seeing the effects of the ones before. */
  function RunBatch(t: Tables, ids: seq<RequestId>): (r: Tables)
    requires forall id :: id in ids ==> RequestIndex(t.requests, id).Some?
    ensures r.labs == t.labs && r.teachers == t.teachers
    ensures RequestIds(r.requests) == RequestIds(t.requests)
    decreases |ids|
  {
    if ids == [] then t
    else
      var prev := RunBatch(t, ids[..|ids| - 1]);
      assert ids[|ids| - 1] in ids;
      assert RequestIndex(prev.requests, ids[|ids| - 1]) == RequestIndex(t.requests, ids[|ids| - 1]);
      Step(prev, ids[|ids| - 1])
  }

  /** The three ways one step of a pass can go. */
  lemma StepCases(t: Tables, rid: RequestId)
    requires RequestIndex(t.requests, rid).Some?
    ensures ReservationIndex(t.reservations, rid).Some? ==> Step(t, rid) == t
    ensures ReservationIndex(t.reservations, rid).None? && Assign(t, rid).ok ==> Step(t, rid) == Assign(t, rid).tables
    ensures ReservationIndex(t.reservations, rid).None? && !Assign(t, rid).ok ==>
              Step(t, rid) == WithStatus(Assign(t, rid).tables, RequestIndex(t.requests, rid).value, Conflict)
  {
  }

  /** A pass over the first `n + 1` keys is the pass over the first `n` followed by one step. */
  lemma RunBatchSnoc(t: Tables, ids: seq<RequestId>, n: nat)
    requires forall id :: id in ids ==> RequestIndex(t.requests, id).Some?
    requires n < |ids|
    ensures RequestIndex(RunBatch(t, ids[..n]).requests, ids[n]) == RequestIndex(t.requests, ids[n])
    ensures RunBatch(t, ids[..n + 1]) == Step(RunBatch(t, ids[..n]), ids[n])
  {
    assert ids[..n + 1][..n] == ids[..n];
    assert ids[n] in ids;
  }

  /** The batch scheduler: every pending or approved request, in priority order. */
  function AutoSchedule(t: Tables): Tables
  {
    IdsOfRowsExist(t, PriorityOrder(t));
    RunBatch(t, BatchOrder(t))
  }

  /** The request with key `rid` is settled: marked "conflict", or holding a reservation. */
  predicate Settled(t: Tables, rid: RequestId)
  {
    match RequestIndex(t.requests, rid)
    case None => false
    case Some(k) => t.requests[k].status == Conflict || ReservationIndex(t.reservations, rid).Some?
  }

  predicate Distinct(ids: seq<RequestId>)
  {
    forall i, j :: 0 <= i < j < |ids| ==> ids[i] != ids[j]
  }

  /** A reservation held in a prefix is still found in the whole. */
  lemma ReservationIndexExtends(a: seq<Reservation>, b: seq<Reservation>, rid: RequestId)
    requires ReservationIndex(a, rid).Some?
    ensures ReservationIndex(a + b, rid).Some?
  {
    var k := ReservationIndex(a, rid).value;
    assert (a + b)[k] == a[k];
  }

  /**
   * `r` is `t` after one step on request `rid`: the invariant holds, the
   * request is settled, no other request changed, and reservations were
   * only appended, each for `rid`.
   */
  predicate StepOutcome(t: Tables, r: Tables, rid: RequestId)
  {
    && RequestIndex(t.requests, rid).Some?
    && Inv(r)
    && Settled(r, rid)
    && |r.requests| == |t.requests|
    && (forall k :: 0 <= k < |t.requests| && k != RequestIndex(t.requests, rid).value ==> r.requests[k] == t.requests[k])
    && |t.reservations| <= |r.reservations| && r.reservations[..|t.reservations|] == t.reservations
    && (forall j :: |t.reservations| <= j < |r.reservations| ==> r.reservations[j].request == rid)
  }

  /**
   * `r` is `t` after a pass over `ids`: the invariant holds, each request of
   * the pass is settled, requests outside the pass are untouched, and
   * reservations were only appended, each for a request of the pass.
   */
  predicate PassOutcome(t: Tables, r: Tables, ids: seq<RequestId>)
  {
    && Inv(r)
    && (forall id :: id in ids ==> Settled(r, id))
    && RequestIds(r.requests) == RequestIds(t.requests)
    && (forall k :: 0 <= k < |t.requests| && t.requests[k].id !in ids ==> r.requests[k] == t.requests[k])
    && |t.reservations| <= |r.reservations| && r.reservations[..|t.reservations|] == t.reservations
    && (forall j :: |t.reservations| <= j < |r.reservations| ==> r.reservations[j].request in ids)
  }

  /** One step keeps the invariant, settles its request and touches nothing else. */
  lemma StepEffect(t: Tables, rid: RequestId)
    requires Inv(t) && RequestIndex(t.requests, rid).Some?
    ensures StepOutcome(t, Step(t, rid), rid)
  {
    if ReservationIndex(t.reservations, rid).None? {
      if Assign(t, rid).ok {
        StepAssigned(t, rid);
      } else {
        StepConflicted(t, rid);
      }
    }
  }

  /** A step whose allocation succeeds: one reservation for the request is appended. */
  lemma StepAssigned(t: Tables, rid: RequestId)
    requires Inv(t) && RequestIndex(t.requests, rid).Some?
    requires ReservationIndex(t.reservations, rid).None? && Assign(t, rid).ok
    ensures StepOutcome(t, Step(t, rid), rid)
  {
    var a := Assign(t, rid);
    var i := RequestIndex(t.requests, rid).value;
    AssignKeepsInvariant(t, rid);
    AssignEffect(t, rid);
    assert RequestIndex(a.tables.requests, rid) == Some(i);
    assert a.tables.reservations[|t.reservations|].request == rid;
  }

  /** A step whose allocation fails: the request is marked "conflict" and nothing is reserved. */
  lemma StepConflicted(t: Tables, rid: RequestId)
    requires Inv(t) && RequestIndex(t.requests, rid).Some?
    requires ReservationIndex(t.reservations, rid).None? && !Assign(t, rid).ok
    ensures StepOutcome(t, Step(t, rid), rid)
  {
    var a := Assign(t, rid);
    var r := Step(t, rid);
    var i := RequestIndex(t.requests, rid).value;
    AssignKeepsInvariant(t, rid);
    AssignEffect(t, rid);
    assert RequestIndex(a.tables.requests, rid) == Some(i);
    assert RequestIndex(r.requests, rid) == Some(i);
    StatusChangeKeepsInvariant(a.tables, i, Conflict);
  }

  /**
   * What a greedy pass over existing requests does: the invariant
   * holds after it, each request of the pass is settled, requests outside
   * the pass are untouched, and reservations are only appended, each for a
   * request of the pass.
   */
  lemma {:induction false} RunBatchEffect(t: Tables, ids: seq<RequestId>)
    requires Inv(t)
    requires forall id :: id in ids ==> RequestIndex(t.requests, id).Some?
    ensures PassOutcome(t, RunBatch(t, ids), ids)
    decreases |ids|
  {
    if ids == [] {
      assert RunBatch(t, ids) == t;
    } else {
      var pre := ids[..|ids| - 1];
      var x := ids[|ids| - 1];
      assert ids == pre + [x];
      RunBatchEffect(t, pre);
      var prev := RunBatch(t, pre);
      assert RequestIndex(prev.requests, x) == RequestIndex(t.requests, x);
      StepEffect(prev, x);
      PassThenStep(t, prev, Step(prev, x), pre, x);
    }
  }

  /** A pass followed by one step is a pass over the longer list. */
  lemma PassThenStep(t: Tables, prev: Tables, r: Tables, pre: seq<RequestId>, x: RequestId)
    requires PassOutcome(t, prev, pre) && StepOutcome(prev, r, x)
    requires RequestIds(r.requests) == RequestIds(prev.requests)
    ensures PassOutcome(t, r, pre + [x])
  {
    var ids := pre + [x];
    var i := RequestIndex(prev.requests, x).value;
    forall id | id in ids ensures Settled(r, id) {
      if id != x {
        assert id in pre;
        var k := RequestIndex(prev.requests, id).value;
        assert RequestIndex(r.requests, id) == Some(k);
        assert r.requests[k] == prev.requests[k];
        if ReservationIndex(prev.reservations, id).Some? {
          assert r.reservations == prev.reservations + r.reservations[|prev.reservations|..];
          ReservationIndexExtends(prev.reservations, r.reservations[|prev.reservations|..], id);
        }
      }
    }
    forall k | 0 <= k < |t.requests| && t.requests[k].id !in ids
      ensures r.requests[k] == t.requests[k]
    {
      assert RequestIds(t.requests)[k] == RequestIds(prev.requests)[k];
      assert prev.requests[k].id != x;
    }
    assert r.reservations[..|t.reservations|] == prev.reservations[..|t.reservations|];
  }

  /** The batch scheduler keeps every consistency rule of the tables. */
  lemma AutoScheduleKeepsInvariant(t: Tables)
    requires Inv(t)
    ensures Inv(AutoSchedule(t))
  {
    BatchOrderFacts(t);
    RunBatchEffect(t, BatchOrder(t));
  }

  /** The batch order lists the keys of the pending and approved requests, and nothing else. */
  lemma BatchOrderFacts(t: Tables)
    ensures forall id :: id in BatchOrder(t) <==>
              exists k :: 0 <= k < |t.requests| && t.requests[k].id == id
                          && (t.requests[k].status == Pending || t.requests[k].status == Approved)
    ensures forall id :: id in BatchOrder(t) ==> RequestIndex(t.requests, id).Some?
  {
    var s := PriorityOrder(t);
    var ids := BatchOrder(t);
    IdsOfRowsExist(t, s);
    forall id | id in ids
      ensures exists k :: 0 <= k < |t.requests| && t.requests[k].id == id
                          && (t.requests[k].status == Pending || t.requests[k].status == Approved)
    {
      var j :| 0 <= j < |s| && s[j].id == id;
      assert s[j] in s;
      var k :| 0 <= k < |t.requests| && t.requests[k] == s[j];
    }
    forall id | exists k :: 0 <= k < |t.requests| && t.requests[k].id == id
                            && (t.requests[k].status == Pending || t.requests[k].status == Approved)
      ensures id in ids
    {
      var k :| 0 <= k < |t.requests| && t.requests[k].id == id
               && (t.requests[k].status == Pending || t.requests[k].status == Approved);
      assert t.requests[k] in s;
      var j :| 0 <= j < |s| && s[j] == t.requests[k];
      assert ids[j] == id;
    }
  }

  /**
   * After the batch scheduler every request that was pending or approved is
   * either scheduled with a reservation or marked "conflict"; every other
   * request is unchanged; existing reservations stay as they were.
   */
  lemma AutoScheduleOutcome(t: Tables)
    requires Inv(t)
    ensures var r := AutoSchedule(t);
            && |r.requests| == |t.requests|
            && (forall k :: 0 <= k < |t.requests| && (t.requests[k].status == Pending || t.requests[k].status == Approved) ==>
                  r.requests[k].status == Conflict
                  || (r.requests[k].status == Scheduled && ReservationIndex(r.reservations, t.requests[k].id).Some?))
            && (forall k :: 0 <= k < |t.requests| && t.requests[k].status != Pending && t.requests[k].status != Approved ==>
                  r.requests[k] == t.requests[k])
            && |t.reservations| <= |r.reservations| && r.reservations[..|t.reservations|] == t.reservations
  {
    var r := AutoSchedule(t);
    var ids := BatchOrder(t);
    BatchOrderFacts(t);
    RunBatchEffect(t, ids);
    forall k | 0 <= k < |t.requests| && (t.requests[k].status == Pending || t.requests[k].status == Approved)
      ensures r.requests[k].status == Conflict
              || (r.requests[k].status == Scheduled && ReservationIndex(r.reservations, t.requests[k].id).Some?)
    {
      var id := t.requests[k].id;
      InBatchOrder(t, k);
      assert Settled(r, id);
      RequestIndexOf(t.requests, k);
      assert RequestIndex(r.requests, id) == Some(k);
      if r.requests[k].status != Conflict {
        var j := ReservationIndex(r.reservations, id).value;
        assert r.reservations[j] in r.reservations;
      }
    }
    forall k | 0 <= k < |t.requests| && t.requests[k].status != Pending && t.requests[k].status != Approved
      ensures r.requests[k] == t.requests[k]
    {
      InBatchOrder(t, k);
    }
  }

  /** With unique keys, a row's key is in the batch order exactly when the row is pending or approved. */
  lemma InBatchOrder(t: Tables, k: nat)
    requires RequestIdsUnique(t.requests) && k < |t.requests|
    ensures t.requests[k].id in BatchOrder(t) <==> t.requests[k].status == Pending || t.requests[k].status == Approved
  {
    BatchOrderFacts(t);
  }

  datatype BackfillResult = BackfillResult(tables: Tables, created: nat, conflicted: nat)

  /** One step of the backfill: skip a reserved request, else count it as created or as conflicted. */
  function BackfillStep(b: BackfillResult, x: RequestId): (r: BackfillResult)
    requires RequestIndex(b.tables.requests, x).Some?
    ensures r.tables == Step(b.tables, x)
  {
    if ReservationIndex(b.tables.reservations, x).Some? then b
    else if Assign(b.tables, x).ok then BackfillResult(Step(b.tables, x), b.created + 1, b.conflicted)
    else BackfillResult(Step(b.tables, x), b.created, b.conflicted + 1)
  }

  /** The backfill pass over `ids` with its two counters. */
  function RunBackfill(t: Tables, ids: seq<RequestId>): (r: BackfillResult)
    requires forall id :: id in ids ==> RequestIndex(t.requests, id).Some?
    ensures r.tables == RunBatch(t, ids)
    decreases |ids|
  {
    if ids == [] then BackfillResult(t, 0, 0)
    else
      var prev := RunBackfill(t, ids[..|ids| - 1]);
      var x := ids[|ids| - 1];
      assert x in ids;
      assert RequestIndex(prev.tables.requests, x) == RequestIndex(t.requests, x);
      BackfillStep(prev, x)
  }

  /** A backfill over the first `n + 1` keys is the one over the first `n` followed by one step. */
  lemma RunBackfillSnoc(t: Tables, ids: seq<RequestId>, n: nat)
    requires forall id :: id in ids ==> RequestIndex(t.requests, id).Some?
    requires n < |ids|
    ensures RequestIndex(RunBackfill(t, ids[..n]).tables.requests, ids[n]) == RequestIndex(t.requests, ids[n])
    ensures RunBackfill(t, ids[..n + 1]) == BackfillStep(RunBackfill(t, ids[..n]), ids[n])
  {
    assert ids[..n + 1][..n] == ids[..n];
    assert ids[n] in ids;
  }

  /** The keys of the scheduled requests, in storage order: the requests the backfill walks. */
  function BackfillOrder(t: Tables): (ids: seq<RequestId>)
    ensures forall id :: id in ids ==> RequestIndex(t.requests, id).Some?
  {
    var s := ScheduledRequests(t.requests);
    IdsOfRowsExist(t, s);
    RequestIds(s)
  }

  /** The backfill: every scheduled request, in storage order. */
  function Backfill(t: Tables): BackfillResult
  {
    RunBackfill(t, BackfillOrder(t))
  }

  /** Scheduled requests of `ids` that hold no reservation in `t`. */
  function Unbound(t: Tables, ids: seq<RequestId>): nat
  {
    if ids == [] then 0
    else Unbound(t, ids[..|ids| - 1]) + (if ReservationIndex(t.reservations, ids[|ids| - 1]).None? then 1 else 0)
  }

  /**
   * The counters: `created` is the number of reservations added, and
   * `created + conflicted` the number of requests of the pass that held no
   * reservation when it started.
   */
  lemma {:induction false} RunBackfillCounts(t: Tables, ids: seq<RequestId>)
    requires Inv(t) && Distinct(ids)
    requires forall id :: id in ids ==> RequestIndex(t.requests, id).Some?
    ensures var r := RunBackfill(t, ids);
            && r.created + r.conflicted == Unbound(t, ids)
            && |r.tables.reservations| == |t.reservations| + r.created
    decreases |ids|
  {
    if ids != [] {
      var pre := ids[..|ids| - 1];
      var x := ids[|ids| - 1];
      assert ids == pre + [x];
      assert Distinct(pre) && x !in pre;
      RunBackfillCounts(t, pre);
      BackfillCountStep(t, pre, x);
    }
  }

  /** The counters stay right when one more request is backfilled. */
  lemma BackfillCountStep(t: Tables, pre: seq<RequestId>, x: RequestId)
    requires Inv(t) && x !in pre && RequestIndex(t.requests, x).Some?
    requires forall id :: id in pre ==> RequestIndex(t.requests, id).Some?
    requires var r := RunBackfill(t, pre);
             r.created + r.conflicted == Unbound(t, pre) && |r.tables.reservations| == |t.reservations| + r.created
    ensures var r := RunBackfill(t, pre + [x]);
            r.created + r.conflicted == Unbound(t, pre + [x]) && |r.tables.reservations| == |t.reservations| + r.created
  {
    var prev := RunBackfill(t, pre);
    assert (pre + [x])[..|pre|] == pre;
    HeldAfterPass(t, pre, x);
    if ReservationIndex(prev.tables.reservations, x).None? {
      StepCount(prev.tables, x);
    }
  }

  /** A request outside a pass holds a reservation after it exactly when it held one before. */
  lemma HeldAfterPass(t: Tables, pre: seq<RequestId>, x: RequestId)
    requires Inv(t) && x !in pre && RequestIndex(t.requests, x).Some?
    requires forall id :: id in pre ==> RequestIndex(t.requests, id).Some?
    ensures Inv(RunBatch(t, pre))
    ensures ReservationIndex(RunBatch(t, pre).reservations, x).Some? <==> ReservationIndex(t.reservations, x).Some?
  {
    RunBatchEffect(t, pre);
    AppendedForOthers(t.reservations, RunBatch(t, pre).reservations, pre, x);
  }

  /**
   * Reservations only appended, each for a request of `pass`: a request
   * outside the pass holds one afterwards exactly when it held one before.
   */
  lemma AppendedForOthers(before: seq<Reservation>, after: seq<Reservation>, pass: seq<RequestId>, x: RequestId)
    requires |before| <= |after| && after[..|before|] == before
    requires forall j :: |before| <= j < |after| ==> after[j].request in pass
    requires x !in pass
    ensures ReservationIndex(after, x).Some? <==> ReservationIndex(before, x).Some?
  {
    var added := after[|before|..];
    assert before + added == after;
    if ReservationIndex(before, x).Some? {
      ReservationIndexExtends(before, added, x);
    } else {
      forall j | 0 <= j < |added| ensures added[j].request != x {
        assert added[j] == after[|before| + j];
      }
      NoReservationExtends(before, added, x);
    }
  }

  /** A request without a reservation in `a` has none in `a + b` when `b` holds none for it. */
  lemma NoReservationExtends(a: seq<Reservation>, b: seq<Reservation>, rid: RequestId)
    requires ReservationIndex(a, rid).None?
    requires forall j :: 0 <= j < |b| ==> b[j].request != rid
    ensures ReservationIndex(a + b, rid).None?
  {
    var r := a + b;
    forall k | 0 <= k < |r| ensures r[k].request != rid {
      if k >= |a| { assert r[k] == b[k - |a|]; }
    }
  }

  /** A step on a request without a reservation adds one exactly when allocation succeeds. */
  lemma StepCount(t: Tables, x: RequestId)
    requires Inv(t) && RequestIndex(t.requests, x).Some? && ReservationIndex(t.reservations, x).None?
    ensures |Step(t, x).reservations| == |t.reservations| + (if Assign(t, x).ok then 1 else 0)
  {
    AssignEffect(t, x);
  }

  /**
   * Backfill counters: `created` reservations were added, and
   * `created + conflicted` is the number of scheduled requests that held no
   * reservation; afterwards every scheduled request holds one.
   */
  lemma BackfillOutcome(t: Tables)
    requires Inv(t)
    ensures var b := Backfill(t);
            var ids := RequestIds(ScheduledRequests(t.requests));
            && Inv(b.tables)
            && b.created + b.conflicted == Unbound(t, ids)
            && |b.tables.reservations| == |t.reservations| + b.created
            && forall q :: q in b.tables.requests && q.status == Scheduled ==>
                 ReservationIndex(b.tables.reservations, q.id).Some?
  {
    var s := ScheduledRequests(t.requests);
    var ids := RequestIds(s);
    IdsOfRowsExist(t, s);
    ScheduledUnique(t.requests);
    assert Distinct(ids) by {
      forall i, j | 0 <= i < j < |ids| ensures ids[i] != ids[j] {
        assert ids[i] == s[i].id && ids[j] == s[j].id;
      }
    }
    RunBackfillCounts(t, ids);
    RunBatchEffect(t, ids);
    var r := RunBatch(t, ids);
    forall q | q in r.requests && q.status == Scheduled
      ensures ReservationIndex(r.reservations, q.id).Some?
    {
      var k :| 0 <= k < |r.requests| && r.requests[k] == q;
      assert RequestIds(r.requests)[k] == RequestIds(t.requests)[k];
      // a scheduled row outside the pass would be unchanged, hence in the pass
      if q.id in ids {
        RequestIndexOf(r.requests, k);
        assert Settled(r, q.id);
      }
    }
  }

  /** The backfill keeps every consistency rule of the tables. */
  lemma BackfillKeepsInvariant(t: Tables)
    requires Inv(t)
    ensures Inv(Backfill(t).tables)
  {
    BackfillOutcome(t);
  }

  /** With unique keys, the scheduled requests have distinct keys. */
  lemma {:induction false} ScheduledUnique(rs: seq<LabRequest>)
    requires RequestIdsUnique(rs)
    ensures RequestIdsUnique(ScheduledRequests(rs))
  {
    if rs != [] {
      var rest := rs[1..];
      assert RequestIdsUnique(rest) by {
        forall i, j | 0 <= i < j < |rest| ensures rest[i].id != rest[j].id {
          assert rest[i] == rs[i + 1] && rest[j] == rs[j + 1];
        }
      }
      ScheduledUnique(rest);
      var tail := ScheduledRequests(rest);
      if rs[0].status == Scheduled {
        var s := [rs[0]] + tail;
        forall i, j | 0 <= i < j < |s| ensures s[i].id != s[j].id {
          if i == 0 {
            assert s[j] == tail[j - 1];
            assert s[j] in rest;
            var k :| 0 <= k < |rest| && rest[k] == s[j];
            assert rs[k + 1] == s[j];
          } else {
            assert s[i] == tail[i - 1] && s[j] == tail[j - 1];
          }
        }
      }
    }
  }
}
