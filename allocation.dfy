/**
 * Single-request allocation: the candidate labs of a group, the labs already
 * taken at a slot, the choice between the preferred lab and the first free
 * lab by name, and the resulting change to the tables.
 */
module Allocation {
  import opened Wrappers
  import opened Model
  import opened Names
  import opened Groups
  import opened Invariants

  /** Active labs of group `g`, in storage order. */
  function ActiveInGroup(labs: seq<Lab>, g: string): (r: seq<Lab>)
    ensures forall l :: l in r <==> l in labs && l.active && l.group == g
  {
    if labs == [] then []
    else
      assert forall l :: l in labs <==> l == labs[0] || l in labs[1..];
      (if labs[0].active && labs[0].group == g then [labs[0]] else []) + ActiveInGroup(labs[1..], g)
  }

  /** Active labs of group `g` in ascending name order. */
  function ActiveLabsInGroup(labs: seq<Lab>, g: string): (r: seq<Lab>)
    ensures SortedByName(r)
    ensures forall l :: l in r <==> l in labs && l.active && l.group == g
  {
    var s := ActiveInGroup(labs, g);
    var r := SortByName(s);
    assert forall l :: l in r <==> l in multiset(r);
    assert forall l :: l in s <==> l in multiset(s);
    r
  }

  /** Labs of group `g` that some reservation holds at (`date`, `period`). */
  function OccupiedIds(labs: seq<Lab>, rs: seq<Reservation>, date: int, period: int, g: string): set<LabId>
  {
    set r | r in rs && r.date == date && r.period == period
                    && FindLab(labs, r.lab).Some? && FindLab(labs, r.lab).value.group == g :: r.lab
  }

  /** Position of the first candidate not in `occupied`. */
  function FirstFreeIndex(cands: seq<Lab>, occupied: set<LabId>): (r: Option<nat>)
    ensures r.Some? ==> r.value < |cands| && cands[r.value].id !in occupied
    ensures r.Some? ==> forall j :: 0 <= j < r.value ==> cands[j].id in occupied
    ensures r.None? ==> forall j :: 0 <= j < |cands| ==> cands[j].id in occupied
  {
    if cands == [] then None
    else if cands[0].id !in occupied then Some(0)
    else match FirstFreeIndex(cands[1..], occupied)
      case None => None
      case Some(k) => Some(k + 1)
  }

  /** The first candidate not in `occupied`. */
  function FirstFree(cands: seq<Lab>, occupied: set<LabId>): Option<Lab>
  {
    match FirstFreeIndex(cands, occupied)
    case None => None
    case Some(k) => Some(cands[k])
  }

  /** The lab `PreferredLabId` names, if it exists. */
  function PreferredLab(t: Tables, req: LabRequest): Option<Lab>
  {
    match PreferredLabId(req, t.teachers)
    case None => None
    case Some(pid) => FindLab(t.labs, pid)
  }

  /** Lab `l` can take a request of group `g` at a slot whose taken labs are `occupied`. */
  predicate Eligible(l: Lab, g: string, occupied: set<LabId>)
  {
    l.active && l.group == g && l.id !in occupied
  }

  /**
   * The lab allocation picks for `req` in group `g`: nothing when the group
   * has no active lab; the preferred lab when eligible; else the first free
   * active lab of the group by name.
   */
  function ChooseLab(t: Tables, req: LabRequest, g: string): Option<Lab>
  {
    var cands := ActiveLabsInGroup(t.labs, g);
    if cands == [] then None
    else
      var occupied := OccupiedIds(t.labs, t.reservations, req.date, req.period, g);
      var pref := PreferredLab(t, req);
      if pref.Some? && Eligible(pref.value, g, occupied) then pref
      else FirstFree(cands, occupied)
  }

  datatype Assignment = Assignment(tables: Tables, ok: bool)

  /**
   * Allocation of one request: a no-op success when it already holds a
   * reservation; otherwise the resolved group is written back, and on a free
   * lab a reservation is added and the request becomes scheduled.
   */
  function Assign(t: Tables, rid: RequestId): (a: Assignment)
    requires RequestIndex(t.requests, rid).Some?
    ensures a.tables.labs == t.labs && a.tables.teachers == t.teachers
    ensures RequestIds(a.tables.requests) == RequestIds(t.requests)
  {
    if ReservationIndex(t.reservations, rid).Some? then Assignment(t, true)
    else
      var i := RequestIndex(t.requests, rid).value;
      var req := t.requests[i].(group := ResolveGroup(t.requests[i], t.labs, t.teachers));
      assert RequestIds(t.requests[i := req]) == RequestIds(t.requests);
      assert RequestIds(t.requests[i := req.(status := Scheduled)]) == RequestIds(t.requests);
      match ChooseLab(t, req, req.group)
      case None => Assignment(t.(requests := t.requests[i := req]), false)
      case Some(l) =>
        Assignment(t.(requests := t.requests[i := req.(status := Scheduled)],
                      reservations := t.reservations + [Reservation(l.id, rid, req.date, req.period)]), true)
  }

  /** What `Assign` does to a request holding no reservation, by the lab `ChooseLab` picks. */
  lemma AssignOutcome(t: Tables, rid: RequestId, i: nat, req: LabRequest)
    requires RequestIndex(t.requests, rid) == Some(i) && ReservationIndex(t.reservations, rid).None?
    requires req == t.requests[i].(group := ResolveGroup(t.requests[i], t.labs, t.teachers))
    ensures ChooseLab(t, req, req.group).None? ==>
              Assign(t, rid) == Assignment(t.(requests := t.requests[i := req]), false)
    ensures ChooseLab(t, req, req.group).Some? ==>
              Assign(t, rid) == Assignment(t.(requests := t.requests[i := req.(status := Scheduled)],
                                              reservations := t.reservations
                                                + [Reservation(ChooseLab(t, req, req.group).value.id, rid, req.date, req.period)]),
                                           true)
  {
  }

  /** A chosen lab is an active lab of the group that no reservation holds at the slot. */
  lemma ChooseLabSound(t: Tables, req: LabRequest, g: string)
    requires LabIdsUnique(t.labs)
    ensures ChooseLab(t, req, g).Some? ==>
              var l := ChooseLab(t, req, g).value;
              && l in t.labs && l.active && l.group == g
              && forall r :: r in t.reservations ==> !(r.lab == l.id && r.date == req.date && r.period == req.period)
  {
    var c := ChooseLab(t, req, g);
    if c.Some? {
      var l := c.value;
      var occupied := OccupiedIds(t.labs, t.reservations, req.date, req.period, g);
      assert l in t.labs && Eligible(l, g, occupied);
      FindLabOf(t.labs, l);
      forall r | r in t.reservations && r.date == req.date && r.period == req.period
        ensures r.lab != l.id
      {
        assert r.lab == l.id ==> r.lab in occupied;
      }
    }
  }

  /** Allocation fails exactly when every active lab of the group is taken at the slot. */
  lemma ChooseLabFailsIffAllTaken(t: Tables, req: LabRequest, g: string)
    ensures ChooseLab(t, req, g).None? <==>
            forall l :: l in t.labs && l.active && l.group == g ==>
                        l.id in OccupiedIds(t.labs, t.reservations, req.date, req.period, g)
  {
    var cands := ActiveLabsInGroup(t.labs, g);
    var occupied := OccupiedIds(t.labs, t.reservations, req.date, req.period, g);
    if ChooseLab(t, req, g).None? {
      forall l | l in t.labs && l.active && l.group == g ensures l.id in occupied {
        var j :| 0 <= j < |cands| && cands[j] == l;
      }
    } else if cands != [] {
      var l := ChooseLab(t, req, g).value;
      assert l in t.labs && l.active && l.group == g && l.id !in occupied;
    }
  }

  /** An eligible preferred lab is always the one chosen. */
  lemma PreferenceHonoured(t: Tables, req: LabRequest, g: string)
    requires PreferredLab(t, req).Some?
    requires Eligible(PreferredLab(t, req).value, g,
                      OccupiedIds(t.labs, t.reservations, req.date, req.period, g))
    ensures ChooseLab(t, req, g) == PreferredLab(t, req)
  {
    var p := PreferredLab(t, req).value;
    assert p in ActiveLabsInGroup(t.labs, g);
  }

  /**
   * Without an eligible preferred lab, the chosen lab's name sorts first
   * among all eligible labs of the group.
   */
  lemma FallbackFirstByName(t: Tables, req: LabRequest, g: string)
    requires ChooseLab(t, req, g).Some?
    requires var occupied := OccupiedIds(t.labs, t.reservations, req.date, req.period, g);
             !(PreferredLab(t, req).Some? && Eligible(PreferredLab(t, req).value, g, occupied))
    ensures var occupied := OccupiedIds(t.labs, t.reservations, req.date, req.period, g);
            forall m :: m in t.labs && Eligible(m, g, occupied) ==>
                        NameLe(ChooseLab(t, req, g).value.name, m.name)
  {
    var cands := ActiveLabsInGroup(t.labs, g);
    var occupied := OccupiedIds(t.labs, t.reservations, req.date, req.period, g);
    var k := FirstFreeIndex(cands, occupied).value;
    forall m | m in t.labs && Eligible(m, g, occupied)
      ensures NameLe(cands[k].name, m.name)
    {
      var j :| 0 <= j < |cands| && cands[j] == m;
      if j == k { NameLeReflexive(m.name); }
    }
  }

  /** Assigning a request that already holds a reservation changes nothing and succeeds. */
  lemma AssignIdempotent(t: Tables, rid: RequestId)
    requires Inv(t) && RequestIndex(t.requests, rid).Some?
    ensures var a := Assign(t, rid);
            a.ok ==> RequestIndex(a.tables.requests, rid).Some? && Assign(a.tables, rid) == a
  {
    var a := Assign(t, rid);
    if ReservationIndex(t.reservations, rid).None? && a.ok {
      var i := RequestIndex(t.requests, rid).value;
      var q := a.tables.requests[i];
      RequestIndexAfterUpdate(t.requests, i, q, rid);
      assert a.tables.reservations[|t.reservations|].request == rid;
    }
  }

  /** Old reservations stay bound when a request no reservation points to is updated in place. */
  lemma BoundAfterUpdate(t: Tables, i: nat, q: LabRequest)
    requires i < |t.requests| && q.id == t.requests[i].id
    requires forall r :: r in t.reservations ==> Bound(t, r) && r.request != q.id
    ensures forall r :: r in t.reservations ==> Bound(t.(requests := t.requests[i := q]), r)
  {
    var t' := t.(requests := t.requests[i := q]);
    forall r | r in t.reservations ensures Bound(t', r) {
      RequestIndexAfterUpdate(t.requests, i, q, r.request);
      var k := RequestIndex(t.requests, r.request).value;
      assert k != i;
    }
  }

  /** Changing the status of a request that holds no reservation keeps the invariant. */
  lemma StatusChangeKeepsInvariant(t: Tables, i: nat, st: Status)
    requires Inv(t) && i < |t.requests|
    requires ReservationIndex(t.reservations, t.requests[i].id).None?
    ensures Inv(WithStatus(t, i, st))
  {
    var r := WithStatus(t, i, st);
    assert r.requests == t.requests[i := t.requests[i].(status := st)];
    forall x | x in t.reservations ensures Bound(t, x) && x.request != t.requests[i].id {
    }
    BoundAfterUpdate(t, i, t.requests[i].(status := st));
    assert RequestIdsUnique(r.requests) by {
      forall j, k | 0 <= j < k < |r.requests| ensures r.requests[j].id != r.requests[k].id {
        assert r.requests[j].id == t.requests[j].id && r.requests[k].id == t.requests[k].id;
      }
    }
  }

  /**
   * What allocation does when the request holds no reservation: success
   * means exactly one new reservation, for this request at its slot, on an
   * active lab of the resolved group that was free there, and status
   * "scheduled"; failure adds nothing.  Either way the only other change is
   * the resolved group written onto the request.
   */
  lemma AssignEffect(t: Tables, rid: RequestId)
    requires Inv(t) && RequestIndex(t.requests, rid).Some?
    requires ReservationIndex(t.reservations, rid).None?
    ensures var i := RequestIndex(t.requests, rid).value;
            var old_ := t.requests[i];
            var g := ResolveGroup(old_, t.labs, t.teachers);
            var a := Assign(t, rid);
            && a.tables.labs == t.labs && a.tables.teachers == t.teachers
            && |a.tables.requests| == |t.requests|
            && (forall k :: 0 <= k < |t.requests| && k != i ==> a.tables.requests[k] == t.requests[k])
            && a.tables.requests[i].group == g
            && (a.ok ==> a.tables.requests[i] == old_.(group := g, status := Scheduled))
            && (!a.ok ==> a.tables.requests[i] == old_.(group := g))
            && (a.ok <==> ChooseLab(t, old_.(group := g), g).Some?)
            && (!a.ok ==> a.tables.reservations == t.reservations)
            && (a.ok ==> exists l :: l in t.labs && l.active && l.group == g
                          && a.tables.reservations == t.reservations + [Reservation(l.id, rid, old_.date, old_.period)]
                          && forall r :: r in t.reservations ==> !(r.lab == l.id && r.date == old_.date && r.period == old_.period))
  {
    var i := RequestIndex(t.requests, rid).value;
    var g := ResolveGroup(t.requests[i], t.labs, t.teachers);
    ChooseLabSound(t, t.requests[i].(group := g), g);
  }

  /** Allocation keeps every consistency rule of the tables. */
  lemma AssignKeepsInvariant(t: Tables, rid: RequestId)
    requires Inv(t) && RequestIndex(t.requests, rid).Some?
    ensures Inv(Assign(t, rid).tables)
  {
    if ReservationIndex(t.reservations, rid).None? {
      var i := RequestIndex(t.requests, rid).value;
      var old_ := t.requests[i];
      var g := ResolveGroup(old_, t.labs, t.teachers);
      var req := old_.(group := g);
      var a := Assign(t, rid);
      ResolveGroupWriteBack(old_, t.labs, t.teachers, Scheduled);
      ResolveGroupWriteBack(old_, t.labs, t.teachers, old_.status);
      match ChooseLab(t, req, g)
      case None =>
        BoundAfterUpdate(t, i, req);
      case Some(l) =>
        var q := req.(status := Scheduled);
        var x := Reservation(l.id, rid, req.date, req.period);
        BoundAfterUpdate(t, i, q);
        var t1 := t.(requests := t.requests[i := q]);
        ChooseLabSound(t, req, g);
        FindLabOf(t.labs, l);
        RequestIndexAfterUpdate(t.requests, i, q, rid);
        assert Bound(t1, x);
        AppendKeepsUniqueness(t.reservations, x);
        assert a.tables == t1.(reservations := t.reservations + [x]);
        assert RequestIdsUnique(a.tables.requests) by {
          forall j, k | 0 <= j < k < |a.tables.requests|
            ensures a.tables.requests[j].id != a.tables.requests[k].id
          {
            assert a.tables.requests[j].id == t.requests[j].id;
            assert a.tables.requests[k].id == t.requests[k].id;
          }
        }
        forall r | r in a.tables.reservations ensures Bound(a.tables, r) {
          if r != x { assert r in t.reservations; }
        }
    }
  }
}
