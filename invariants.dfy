/**
 * The consistency rules the engine keeps over the stored tables: at most one
 * reservation per (lab, date, period), at most one per request, and a
 * reservation only for a scheduled request, at that request's slot, on a lab
 * of the request's group.
 */
module Invariants {
  import opened Wrappers
  import opened Model
  import opened Groups

  predicate LabIdsUnique(labs: seq<Lab>)
  {
    forall i, j :: 0 <= i < j < |labs| ==> labs[i].id != labs[j].id
  }

  predicate RequestIdsUnique(rs: seq<LabRequest>)
  {
    forall i, j :: 0 <= i < j < |rs| ==> rs[i].id != rs[j].id
  }

  /** Two reservations hold the same lab at the same (date, period). */
  predicate SameSlot(a: Reservation, b: Reservation)
  {
    a.lab == b.lab && a.date == b.date && a.period == b.period
  }

  predicate SlotUnique(rs: seq<Reservation>)
  {
    forall i, j :: 0 <= i < j < |rs| ==> !SameSlot(rs[i], rs[j])
  }

  predicate OnePerRequest(rs: seq<Reservation>)
  {
    forall i, j :: 0 <= i < j < |rs| ==> rs[i].request != rs[j].request
  }

  /** `r` belongs to a scheduled request, sits at its slot, on a lab of its group. */
  predicate Bound(t: Tables, r: Reservation)
  {
    match RequestIndex(t.requests, r.request)
    case None => false
    case Some(k) =>
      var q := t.requests[k];
      && q.status == Scheduled
      && q.date == r.date && q.period == r.period
      && match FindLab(t.labs, r.lab)
         case None => false
         case Some(l) => l.group == ResolveGroup(q, t.labs, t.teachers)
  }

  predicate Inv(t: Tables)
  {
    && LabIdsUnique(t.labs)
    && RequestIdsUnique(t.requests)
    && SlotUnique(t.reservations)
    && OnePerRequest(t.reservations)
    && forall r :: r in t.reservations ==> Bound(t, r)
  }

  /** With unique keys, a lab of the table is what its key finds. */
  lemma FindLabOf(labs: seq<Lab>, l: Lab)
    requires LabIdsUnique(labs) && l in labs
    ensures FindLab(labs, l.id) == Some(l)
  {
    var f := FindLab(labs, l.id);
    var i :| 0 <= i < |labs| && labs[i] == l;
    var j :| 0 <= j < |labs| && labs[j] == f.value;
    assert i == j;
  }

  /** With unique keys, the request at position `k` is what its key finds. */
  lemma RequestIndexOf(rs: seq<LabRequest>, k: nat)
    requires RequestIdsUnique(rs) && k < |rs|
    ensures RequestIndex(rs, rs[k].id) == Some(k)
  {
  }

  /** Updating a request in place, keeping its key, keeps every key lookup. */
  lemma RequestIndexAfterUpdate(rs: seq<LabRequest>, i: nat, q: LabRequest, id: RequestId)
    requires i < |rs| && q.id == rs[i].id
    ensures RequestIndex(rs[i := q], id) == RequestIndex(rs, id)
  {
    assert RequestIds(rs[i := q]) == RequestIds(rs);
  }

  /**
   * Adding reservation `x` keeps the invariant when its slot and its request
   * are not yet taken and it is bound in the new tables.
   */
  lemma AppendKeepsUniqueness(rs: seq<Reservation>, x: Reservation)
    requires SlotUnique(rs) && OnePerRequest(rs)
    requires forall r :: r in rs ==> !SameSlot(r, x)
    requires forall r :: r in rs ==> r.request != x.request
    ensures SlotUnique(rs + [x]) && OnePerRequest(rs + [x])
  {
    var s := rs + [x];
    forall i, j | 0 <= i < j < |s| ensures !SameSlot(s[i], s[j]) && s[i].request != s[j].request {
      if j == |rs| { assert s[i] in rs; }
    }
  }

  /** Removing one reservation keeps both uniqueness rules. */
  lemma RemoveKeepsUniqueness(rs: seq<Reservation>, k: nat)
    requires k < |rs| && SlotUnique(rs) && OnePerRequest(rs)
    ensures SlotUnique(RemoveAt(rs, k)) && OnePerRequest(RemoveAt(rs, k))
  {
    var s := RemoveAt(rs, k);
    forall i, j | 0 <= i < j < |s| ensures !SameSlot(s[i], s[j]) && s[i].request != s[j].request {
      var i' := if i < k then i else i + 1;
      var j' := if j < k then j else j + 1;
      assert s[i] == rs[i'] && s[j] == rs[j'] && i' < j';
    }
  }

  /** Elements of `RemoveAt(rs, k)` are elements of `rs` other than the removed position. */
  lemma RemoveAtMembers<T>(rs: seq<T>, k: nat)
    requires k < |rs|
    ensures forall x :: x in RemoveAt(rs, k) ==> x in rs
  {
    forall x | x in RemoveAt(rs, k) ensures x in rs {
      var j :| 0 <= j < |RemoveAt(rs, k)| && RemoveAt(rs, k)[j] == x;
      if j < k { assert rs[j] == x; } else { assert rs[j + 1] == x; }
    }
  }
}
