/**
 * The two administrator actions that touch reservations: assigning a lab to
 * a request by hand, and setting a request's status.  Each either rejects
 * the input and leaves the tables alone, or performs its change.
 */
module Admin {
  import opened Wrappers
  import opened Model
  import opened Groups
  import opened Invariants
  import opened Allocation
  import opened Batch
  import opened Text

  /** The reservations without the first one held by request `rid`. */
  function DropReservationOf(rs: seq<Reservation>, rid: RequestId): (r: seq<Reservation>)
    ensures forall x :: x in r ==> x in rs
    ensures forall x :: x in rs && x.request != rid ==> x in r
    ensures OnePerRequest(rs) ==> forall x :: x in r ==> x.request != rid
  {
    match ReservationIndex(rs, rid)
    case None => rs
    case Some(k) =>
      RemoveAtMembers(rs, k);
      var r := RemoveAt(rs, k);
      assert forall x :: x in rs && x.request != rid ==> x in r by {
        forall x | x in rs && x.request != rid ensures x in r {
          var j :| 0 <= j < |rs| && rs[j] == x;
          if j < k { assert r[j] == x; } else { assert r[j - 1] == x; }
        }
      }
      assert OnePerRequest(rs) ==> forall x :: x in r ==> x.request != rid by {
        if OnePerRequest(rs) {
          forall x | x in r ensures x.request != rid {
            var j :| 0 <= j < |r| && r[j] == x;
            if j < k { assert rs[j] == x; } else { assert rs[j + 1] == x; }
          }
        }
      }
      r
  }

  /** The lab field of the manual-assignment form, as parsed. */
  datatype LabChoice = Blank | Malformed | Chosen(id: int)

  datatype ManualOutcome =
    | RequestNotFound
    | NoLabGiven
    | BadLabId
    | LabUnavailable
    | GroupMismatch(required: string, found: string)
    | SlotTaken
    | Assigned

  datatype ManualResult = ManualResult(outcome: ManualOutcome, tables: Tables)

  /** The lab a form value names, when it exists. */
  function ChosenLab(labs: seq<Lab>, id: int): Option<Lab>
  {
    if id < 0 then None else FindLab(labs, id)
  }

  /**
   * Manual assignment: the chosen lab must exist, be active, belong to the
   * request's resolved group and be free at the request's slot (any
   * reservation there counts, the request's own included).  Then the
   * request's old reservation, if any, is replaced by one on the chosen lab
   * and the request becomes scheduled.  The resolved group is not written
   * back.
   */
  function ManualAssign(t: Tables, rid: RequestId, choice: LabChoice): (r: ManualResult)
    ensures r.outcome != Assigned ==> r.tables == t
    ensures r.outcome == Assigned <==>
              && RequestIndex(t.requests, rid).Some?
              && choice.Chosen?
              && ChosenLab(t.labs, choice.id).Some?
              && var l := ChosenLab(t.labs, choice.id).value;
                 var req := t.requests[RequestIndex(t.requests, rid).value];
                 && l.active
                 && l.group == ResolveGroup(req, t.labs, t.teachers)
                 && forall x :: x in t.reservations ==> !(x.lab == l.id && x.date == req.date && x.period == req.period)
    ensures r.outcome == RequestNotFound <==> RequestIndex(t.requests, rid).None?
    ensures RequestIndex(t.requests, rid).Some? ==>
              var req := t.requests[RequestIndex(t.requests, rid).value];
              var g := ResolveGroup(req, t.labs, t.teachers);
              var lab := if choice.Chosen? then ChosenLab(t.labs, choice.id) else None;
              && (r.outcome == NoLabGiven <==> choice.Blank?)
              && (r.outcome == BadLabId <==> choice.Malformed?)
              && (r.outcome == LabUnavailable <==> choice.Chosen? && (lab.None? || !lab.value.active))
              && (r.outcome.GroupMismatch? <==> lab.Some? && lab.value.active && lab.value.group != g)
              && (r.outcome.GroupMismatch? ==> r.outcome == GroupMismatch(g, lab.value.group))
              && (r.outcome == SlotTaken <==>
                    lab.Some? && lab.value.active && lab.value.group == g
                    && SlotHolder(t.reservations, lab.value.id, req.date, req.period).Some?)
  {
    match RequestIndex(t.requests, rid)
    case None => ManualResult(RequestNotFound, t)
    case Some(i) =>
      var req := t.requests[i];
      match choice
      case Blank => ManualResult(NoLabGiven, t)
      case Malformed => ManualResult(BadLabId, t)
      case Chosen(id) =>
        match ChosenLab(t.labs, id)
        case None => ManualResult(LabUnavailable, t)
        case Some(l) =>
          var g := ResolveGroup(req, t.labs, t.teachers);
          if !l.active then ManualResult(LabUnavailable, t)
          else if l.group != g then ManualResult(GroupMismatch(g, l.group), t)
          else if SlotHolder(t.reservations, l.id, req.date, req.period).Some? then ManualResult(SlotTaken, t)
          else
            ManualResult(Assigned, t.(requests := t.requests[i := req.(status := Scheduled)],
                                      reservations := DropReservationOf(t.reservations, rid)
                                                      + [Reservation(l.id, rid, req.date, req.period)]))
  }

  /**
   * A manual assignment that succeeds makes the request scheduled with
   * exactly one reservation, on the chosen lab at its slot; no other request
   * and no other reservation changes.
   */
  lemma ManualAssignEffect(t: Tables, rid: RequestId, choice: LabChoice)
    requires Inv(t)
    requires ManualAssign(t, rid, choice).outcome == Assigned
    ensures var r := ManualAssign(t, rid, choice).tables;
            var i := RequestIndex(t.requests, rid).value;
            var x := Reservation(choice.id, rid, t.requests[i].date, t.requests[i].period);
            && r.labs == t.labs && r.teachers == t.teachers
            && |r.requests| == |t.requests|
            && r.requests[i] == t.requests[i].(status := Scheduled)
            && (forall k :: 0 <= k < |t.requests| && k != i ==> r.requests[k] == t.requests[k])
            && (forall y :: y in r.reservations <==> y == x || (y in t.reservations && y.request != rid))
  {
  }

  /** Manual assignment keeps every consistency rule of the tables. */
  lemma ManualAssignKeepsInvariant(t: Tables, rid: RequestId, choice: LabChoice)
    requires Inv(t)
    ensures Inv(ManualAssign(t, rid, choice).tables)
  {
    var m := ManualAssign(t, rid, choice);
    if m.outcome == Assigned {
      var i := RequestIndex(t.requests, rid).value;
      var req := t.requests[i];
      var l := ChosenLab(t.labs, choice.id).value;
      var q := req.(status := Scheduled);
      var x := Reservation(l.id, rid, req.date, req.period);
      var kept := DropReservationOf(t.reservations, rid);
      var t1 := t.(requests := t.requests[i := q], reservations := kept);
      assert m.tables == t1.(reservations := kept + [x]);
      // the kept reservations stay unique and bound
      match ReservationIndex(t.reservations, rid) {
        case None =>
        case Some(k) => RemoveKeepsUniqueness(t.reservations, k);
      }
      assert SlotUnique(kept) && OnePerRequest(kept);
      assert forall y :: y in kept ==> Bound(t, y) && y.request != rid;
      BoundAfterUpdate(t.(reservations := kept), i, q);
      AppendKeepsUniqueness(kept, x);
      ResolveGroupWriteBack(req, t.labs, t.teachers, Scheduled);
      RequestIndexAfterUpdate(t.requests, i, q, rid);
      FindLabOf(t.labs, l);
      assert Bound(t1, x);
      assert RequestIdsUnique(t1.requests) by {
        forall j, k | 0 <= j < k < |t1.requests| ensures t1.requests[j].id != t1.requests[k].id {
          assert t1.requests[j].id == t.requests[j].id && t1.requests[k].id == t.requests[k].id;
        }
      }
      forall y | y in m.tables.reservations ensures Bound(m.tables, y) {
        if y != x { assert y in kept; assert Bound(t1, y); }
      }
    }
  }

  /**
   * Choosing the lab the request already holds at its slot is refused as
   * taken: the slot check does not exempt the request's own reservation.
   */
  lemma ManualReassignSameLabRefused(t: Tables, rid: RequestId, x: Reservation)
    requires Inv(t) && x in t.reservations && x.request == rid
    requires FindLab(t.labs, x.lab).Some? && FindLab(t.labs, x.lab).value.active
    ensures ManualAssign(t, rid, Chosen(x.lab)).outcome == SlotTaken
  {
    assert Bound(t, x);
    var i := RequestIndex(t.requests, rid).value;
    assert x.date == t.requests[i].date && x.period == t.requests[i].period;
  }

  datatype StatusOutcome = StatusRequestNotFound | InvalidStatus | StatusUpdated | ScheduleConflict

  datatype StatusResult = StatusResult(outcome: StatusOutcome, tables: Tables)

  /**
   * Status update from the form text.  "scheduled" runs the allocator and
   * turns the request into "conflict" when no lab is free; any other valid
   * status drops the request's reservation and is stored as given.
   */
  function UpdateStatus(t: Tables, rid: RequestId, text: string): (r: StatusResult)
    ensures r.outcome == StatusRequestNotFound <==> RequestIndex(t.requests, rid).None?
    ensures r.outcome == InvalidStatus <==> RequestIndex(t.requests, rid).Some? && ParseStatus(Strip(text)).None?
    ensures r.outcome == StatusRequestNotFound || r.outcome == InvalidStatus ==> r.tables == t
    ensures r.outcome == ScheduleConflict <==>
              RequestIndex(t.requests, rid).Some? && ParseStatus(Strip(text)) == Some(Scheduled) && !Assign(t, rid).ok
    ensures r.outcome == StatusUpdated <==>
              && RequestIndex(t.requests, rid).Some? && ParseStatus(Strip(text)).Some?
              && (ParseStatus(Strip(text)) == Some(Scheduled) ==> Assign(t, rid).ok)
  {
    match RequestIndex(t.requests, rid)
    case None => StatusResult(StatusRequestNotFound, t)
    case Some(i) =>
      match ParseStatus(Strip(text))
      case None => StatusResult(InvalidStatus, t)
      case Some(st) =>
        if st == Scheduled then
          var a := Assign(t, rid);
          if a.ok then StatusResult(StatusUpdated, a.tables)
          else
            assert |a.tables.requests| == |RequestIds(a.tables.requests)| == |t.requests|;
            StatusResult(ScheduleConflict, WithStatus(a.tables, i, Conflict))
        else
          StatusResult(StatusUpdated, t.(requests := t.requests[i := t.requests[i].(status := st)],
                                         reservations := DropReservationOf(t.reservations, rid)))
  }

  /** Setting "scheduled" by hand is exactly one step of the batch scheduler. */
  lemma UpdateToScheduledIsStep(t: Tables, rid: RequestId, text: string)
    requires RequestIndex(t.requests, rid).Some?
    requires ParseStatus(Strip(text)) == Some(Scheduled)
    ensures UpdateStatus(t, rid, text).tables == Step(t, rid)
  {
  }

  /**
   * Setting any status other than "scheduled" stores it and leaves the
   * request without a reservation; no other request or reservation changes.
   */
  lemma UpdateStatusEffect(t: Tables, rid: RequestId, text: string)
    requires Inv(t)
    requires RequestIndex(t.requests, rid).Some?
    requires ParseStatus(Strip(text)).Some? && ParseStatus(Strip(text)) != Some(Scheduled)
    ensures var r := UpdateStatus(t, rid, text);
            var i := RequestIndex(t.requests, rid).value;
            && r.outcome == StatusUpdated
            && r.tables.requests[i] == t.requests[i].(status := ParseStatus(Strip(text)).value)
            && |r.tables.requests| == |t.requests|
            && (forall k :: 0 <= k < |t.requests| && k != i ==> r.tables.requests[k] == t.requests[k])
            && ReservationIndex(r.tables.reservations, rid).None?
            && (forall y :: y in r.tables.reservations <==> y in t.reservations && y.request != rid)
  {
  }

  /** A status update keeps every consistency rule of the tables. */
  lemma UpdateStatusKeepsInvariant(t: Tables, rid: RequestId, text: string)
    requires Inv(t)
    ensures Inv(UpdateStatus(t, rid, text).tables)
  {
    var u := UpdateStatus(t, rid, text);
    if u.outcome != StatusRequestNotFound && u.outcome != InvalidStatus {
      var st := ParseStatus(Strip(text)).value;
      if st == Scheduled {
        StepEffect(t, rid);
      } else {
        StoreStatusKeepsInvariant(t, RequestIndex(t.requests, rid).value, st);
      }
    }
  }

  /** Storing a status and dropping the request's reservation keeps the invariant. */
  lemma StoreStatusKeepsInvariant(t: Tables, i: nat, st: Status)
    requires Inv(t) && i < |t.requests|
    ensures Inv(t.(requests := t.requests[i := t.requests[i].(status := st)],
                   reservations := DropReservationOf(t.reservations, t.requests[i].id)))
  {
    var rid := t.requests[i].id;
    var q := t.requests[i].(status := st);
    var kept := DropReservationOf(t.reservations, rid);
    var u := t.(requests := t.requests[i := q], reservations := kept);
    match ReservationIndex(t.reservations, rid) {
      case None =>
      case Some(k) => RemoveKeepsUniqueness(t.reservations, k);
    }
    assert forall y :: y in kept ==> Bound(t, y) && y.request != rid;
    BoundAfterUpdate(t.(reservations := kept), i, q);
    assert RequestIdsUnique(u.requests) by {
      forall j, k | 0 <= j < k < |u.requests| ensures u.requests[j].id != u.requests[k].id {
        assert u.requests[j].id == t.requests[j].id && u.requests[k].id == t.requests[k].id;
      }
    }
  }
}
