/**
 * The stored tables as one mutable object, and the engine's operations as
 * methods on it, each proved to leave the tables as the functional model
 * says.
 */
module Store {
  import opened Wrappers
  import opened Model
  import opened Groups
  import opened Invariants
  import opened Allocation
  import opened Batch
  import opened Admin
  import opened Advisor
  import opened Submission
  import opened Search
  import opened Text

  /** A second update at the same position overrides the first. */
  lemma UpdateTwice<T>(s: seq<T>, i: nat, x: T, y: T)
    requires i < |s|
    ensures s[i := x][i := y] == s[i := y]
  {
  }

  /** Walks the candidate labs in order and returns the first one not in `occupied`. */
  method FirstFreeLab(active: seq<Lab>, occupied: set<LabId>) returns (chosen: Option<Lab>)
    ensures chosen == FirstFree(active, occupied)
  {
    var k := 0;
    while k < |active|
      invariant 0 <= k <= |active|
      invariant forall j :: 0 <= j < k ==> active[j].id in occupied
    {
      if active[k].id !in occupied {
        assert FirstFreeIndex(active, occupied) == Some(k);
        return Some(active[k]);
      }
      k := k + 1;
    }
    return None;
  }

  class Database {
    var labs: seq<Lab>
    var teachers: seq<Teacher>
    var requests: seq<LabRequest>
    var reservations: seq<Reservation>

    /** The current contents of the four tables. */
    function Tables(): Tables
      reads this
    {
      Model.Tables(labs, teachers, requests, reservations)
    }

    constructor(t: Tables)
      ensures Tables() == t
    {
      labs := t.labs;
      teachers := t.teachers;
      requests := t.requests;
      reservations := t.reservations;
    }

    /**
     * Allocates a lab to request `rid`: nothing to do when it holds a
     * reservation; otherwise writes the resolved group back, tries the
     * preferred lab, then walks the active labs of the group by name and
     * takes the first free one.
     */
    method AssignReservationForRequest(rid: RequestId) returns (ok: bool)
      requires RequestIndex(requests, rid).Some?
      modifies this
      ensures ok == Assign(old(Tables()), rid).ok
      ensures Tables() == Assign(old(Tables()), rid).tables
      ensures Inv(old(Tables())) ==> Inv(Tables())
    {
      ghost var t0 := Tables();
      if Inv(t0) { AssignKeepsInvariant(t0, rid); }
      if ReservationIndex(reservations, rid).Some? {
        return true;
      }
      var i := RequestIndex(requests, rid).value;
      var g := ResolveGroup(requests[i], labs, teachers);
      var req := requests[i].(group := g);
      AssignOutcome(t0, rid, i, req);
      requests := requests[i := req];
      var active := ActiveLabsInGroup(labs, g);
      if active == [] {
        return false;
      }
      var occupied := OccupiedIds(labs, reservations, req.date, req.period, g);
      var chosen: Option<Lab> := None;
      var prefId := PreferredLabId(req, teachers);
      if prefId.Some? {
        var pref := FindLab(labs, prefId.value);
        if pref.Some? && pref.value.active && pref.value.group == g && pref.value.id !in occupied {
          chosen := pref;
        }
      }
      if chosen.None? {
        chosen := FirstFreeLab(active, occupied);
      }
      assert chosen == ChooseLab(t0, req, g);
      if chosen.None? {
        return false;
      }
      reservations := reservations + [Reservation(chosen.value.id, rid, req.date, req.period)];
      UpdateTwice(t0.requests, i, req, req.(status := Scheduled));
      requests := requests[i := req.(status := Scheduled)];
      return true;
    }

    /**
     * The batch scheduler's loop body: a request holding a reservation is
     * skipped; otherwise it is allocated, or marked "conflict" when no lab
     * is free.
     */
    method ScheduleRequest(rid: RequestId)
      requires RequestIndex(requests, rid).Some?
      modifies this
      ensures Tables() == Step(old(Tables()), rid)
    {
      StepCases(Tables(), rid);
      if ReservationIndex(reservations, rid).Some? {
        return;
      }
      var k := RequestIndex(requests, rid).value;
      var ok := AssignReservationForRequest(rid);
      if !ok {
        requests := requests[k := requests[k].(status := Conflict)];
      }
    }

    /**
     * The batch scheduler: pending and approved requests in priority order,
     * each settled in turn.
     */
    method RunAutoSchedule()
      modifies this
      ensures Tables() == AutoSchedule(old(Tables()))
      ensures Inv(old(Tables())) ==> Inv(Tables())
    {
      ghost var t0 := Tables();
      var order := PriorityOrder(Tables());
      IdsOfRowsExist(t0, order);
      var ids := RequestIds(order);
      var n := 0;
      while n < |ids|
        invariant 0 <= n <= |ids|
        invariant Tables() == RunBatch(t0, ids[..n])
      {
        RunBatchSnoc(t0, ids, n);
        ScheduleRequest(ids[n]);
        n := n + 1;
      }
      assert ids[..n] == ids;
      if Inv(t0) { AutoScheduleKeepsInvariant(t0); }
    }

    /**
     * The backfill: every scheduled request without a reservation is
     * allocated again or marked "conflict"; returns how many of each.
     */
    method EnsureReservationsForScheduledRequests() returns (created: nat, conflicted: nat)
      modifies this
      ensures BackfillResult(Tables(), created, conflicted) == Backfill(old(Tables()))
      ensures Inv(old(Tables())) ==> Inv(Tables())
    {
      ghost var t0 := Tables();
      var ids := BackfillOrder(Tables());
      created, conflicted := 0, 0;
      var n := 0;
      while n < |ids|
        invariant 0 <= n <= |ids|
        invariant BackfillResult(Tables(), created, conflicted) == RunBackfill(t0, ids[..n])
      {
        RunBackfillSnoc(t0, ids, n);
        created, conflicted := BackfillRequest(ids[n], created, conflicted);
        n := n + 1;
      }
      assert ids[..n] == ids;
      if Inv(t0) { BackfillKeepsInvariant(t0); }
    }

    /** The backfill's loop body for request `rid`, with the counters so far. */
    method BackfillRequest(rid: RequestId, created: nat, conflicted: nat) returns (created': nat, conflicted': nat)
      requires RequestIndex(requests, rid).Some?
      modifies this
      ensures BackfillResult(Tables(), created', conflicted')
              == BackfillStep(BackfillResult(old(Tables()), created, conflicted), rid)
    {
      StepCases(Tables(), rid);
      created', conflicted' := created, conflicted;
      if ReservationIndex(reservations, rid).Some? {
        return;
      }
      var k := RequestIndex(requests, rid).value;
      var ok := AssignReservationForRequest(rid);
      if ok {
        created' := created + 1;
      } else {
        requests := requests[k := requests[k].(status := Conflict)];
        conflicted' := conflicted + 1;
      }
    }

    /** Manual assignment of the lab named on the form to request `rid`. */
    method ManualAssignLab(rid: RequestId, choice: LabChoice) returns (outcome: ManualOutcome)
      modifies this
      ensures outcome == ManualAssign(old(Tables()), rid, choice).outcome
      ensures Tables() == ManualAssign(old(Tables()), rid, choice).tables
      ensures Inv(old(Tables())) ==> Inv(Tables())
    {
      ghost var t0 := Tables();
      if Inv(t0) { ManualAssignKeepsInvariant(t0, rid, choice); }
      var k := RequestIndex(requests, rid);
      if k.None? {
        return RequestNotFound;
      }
      var req := requests[k.value];
      if choice.Blank? {
        return NoLabGiven;
      }
      if choice.Malformed? {
        return BadLabId;
      }
      var lab := ChosenLab(labs, choice.id);
      if lab.None? || !lab.value.active {
        return LabUnavailable;
      }
      var g := ResolveGroup(req, labs, teachers);
      if lab.value.group != g {
        return GroupMismatch(g, lab.value.group);
      }
      if SlotHolder(reservations, lab.value.id, req.date, req.period).Some? {
        return SlotTaken;
      }
      var own := ReservationIndex(reservations, rid);
      if own.Some? {
        reservations := RemoveAt(reservations, own.value);
      }
      reservations := reservations + [Reservation(lab.value.id, rid, req.date, req.period)];
      requests := requests[k.value := req.(status := Scheduled)];
      return Assigned;
    }

    /** Sets the status of request `rid` from the form text. */
    method UpdateRequestStatus(rid: RequestId, text: string) returns (outcome: StatusOutcome)
      modifies this
      ensures outcome == UpdateStatus(old(Tables()), rid, text).outcome
      ensures Tables() == UpdateStatus(old(Tables()), rid, text).tables
      ensures Inv(old(Tables())) ==> Inv(Tables())
    {
      ghost var t0 := Tables();
      if Inv(t0) { UpdateStatusKeepsInvariant(t0, rid, text); }
      var k := RequestIndex(requests, rid);
      if k.None? {
        return StatusRequestNotFound;
      }
      var st := ParseStatus(Strip(text));
      if st.None? {
        return InvalidStatus;
      }
      if st.value == Scheduled {
        var ok := AssignReservationForRequest(rid);
        if !ok {
          requests := requests[k.value := requests[k.value].(status := Conflict)];
          return ScheduleConflict;
        }
        return StatusUpdated;
      }
      var own := ReservationIndex(reservations, rid);
      if own.Some? {
        reservations := RemoveAt(reservations, own.value);
      }
      requests := requests[k.value := requests[k.value].(status := st.value)];
      return StatusUpdated;
    }

    /** Stores a teacher's new request under the fresh key `newId`, or says why not. */
    method NewRequest(f: Form, newId: RequestId, createdAt: nat) returns (error: Option<SubmitError>)
      requires RequestIndex(requests, newId).None?
      modifies this
      ensures var r := Submit(old(Tables()), f, newId, createdAt);
              && (r.Err? ==> error == Some(r.error) && Tables() == old(Tables()))
              && (r.Ok? ==> error == None && Tables() == r.value)
      ensures Inv(old(Tables())) ==> Inv(Tables())
    {
      ghost var t0 := Tables();
      var g := GroupFor(labs, f);
      if g.Err? {
        return Some(g.error);
      }
      if FindSameSlotRequest(requests, f.teacher, f.date, f.period).Some? {
        return Some(SlotAlreadyRequested);
      }
      if Inv(t0) { SubmitKeepsInvariant(t0, f, newId, createdAt); }
      var pref := match f.preferredLab case None => None case Some(id) => Some(id as nat);
      requests := requests + [LabRequest(newId, f.teacher, f.className, g.value, f.date, f.period, Pending, pref, createdAt)];
      return None;
    }

    /**
     * The conflict advisor for request `rid`: the occupied labs at its slot
     * and a search of the slots around it, date offsets 0, -1, +1, ... up to
     * `window` days, periods 1..`maxPeriod`, stopping once `topK`
     * suggestions are found.
     */
    method ExplainConflictAndSuggest(rid: RequestId, maxPeriod: int, window: int, topK: int) returns (advice: Advice)
      ensures advice == Explain(Tables(), rid, maxPeriod, window, topK)
    {
      var k := RequestIndex(requests, rid);
      if k.None? {
        return RequestMissing;
      }
      var req := requests[k.value];
      var g := ResolveGroup(req, labs, teachers);
      var active := ActiveLabsInGroup(labs, g);
      var occupiedNow := OccupiedDetails(Tables(), req.date, req.period, g);
      var suggestions := SearchFreeSlots(g, active, Slot(req.date, req.period), maxPeriod, window, topK);
      return Explanation(req.id, req.date, req.period, g, req.className, ConflictReason, occupiedNow, suggestions);
    }

    /**
     * The advisor's search: dates at distance 0, 1, ... up to `window`
     * days, the earlier date before the later one, each scanned by
     * `ScanDate`, until `topK` suggestions are found.
     */
    method SearchFreeSlots(g: string, active: seq<Lab>, own: Slot, maxPeriod: int, window: int, topK: int)
      returns (suggestions: seq<Suggestion>)
      requires active == ActiveLabsInGroup(labs, g)
      ensures suggestions == Suggestions(Tables(), g, own, maxPeriod, window, topK)
    {
      suggestions := [];
      var delta := 0;
      ghost var nearer := -1;
      while delta <= window
        invariant 0 <= delta <= (if window >= 0 then window + 1 else 0)
        invariant nearer == delta - 1
        invariant suggestions == SuggestionsOf(Tables(), g, CandidatesWithin(own, maxPeriod, nearer))
        invariant delta > 0 ==> |suggestions| < topK
      {
        var signs := if delta == 0 then [0] else [-1, 1];
        var si := 0;
        while si < |signs|
          invariant 0 <= si <= |signs|
          invariant suggestions == SuggestionsOf(Tables(), g, VisitedBefore(own, maxPeriod, delta, si))
          invariant delta > 0 || si > 0 ==> |suggestions| < topK
        {
          var d := own.date + signs[si] * delta;
          assert Reaches(own, delta, si, d);
          suggestions := ScanDate(g, active, own, maxPeriod, window, topK, delta, si, d, suggestions);
          if |suggestions| >= topK {
            break;
          }
          si := si + 1;
        }
        if |suggestions| >= topK {
          break;
        }
        delta, nearer := delta + 1, delta;
      }
      if delta > window {
        if window >= 0 {
          SearchExhausted(Tables(), g, own, maxPeriod, window, topK);
        } else {
          assert CandidatesWithin(own, maxPeriod, nearer) == [];
        }
      }
    }

    /**
     * Scans periods 1..`maxPeriod` of date `d`, the date direction `si`
     * reaches at distance `delta`, appending a suggestion for every slot
     * with a free lab and stopping at `topK` of them.
     */
    method ScanDate(g: string, active: seq<Lab>, own: Slot, maxPeriod: int, window: int, topK: int,
                    delta: nat, si: nat, d: int, found: seq<Suggestion>)
      returns (suggestions: seq<Suggestion>)
      requires active == ActiveLabsInGroup(labs, g)
      requires Reaches(own, delta, si, d) && delta <= window
      requires found == SuggestionsOf(Tables(), g, VisitedBefore(own, maxPeriod, delta, si))
      requires delta > 0 ==> |found| < topK
      ensures |suggestions| >= topK ==> suggestions == Suggestions(Tables(), g, own, maxPeriod, window, topK)
      ensures |suggestions| < topK ==>
                suggestions == SuggestionsOf(Tables(), g, VisitedBefore(own, maxPeriod, delta, si + 1))
    {
      ghost var t := Tables();
      ghost var vb := VisitedBefore(own, maxPeriod, delta, si);
      FirstVisit(own, maxPeriod, delta, si, d);
      suggestions := found;
      var p := 1;
      ghost var scanned := 0;
      while p <= maxPeriod
        invariant 1 <= p <= (if maxPeriod >= 1 then maxPeriod + 1 else 1)
        invariant scanned == p - 1
        invariant suggestions == SuggestionsOf(t, g, vb + DateSlots(d, own, scanned))
        invariant vb + DateSlots(d, own, scanned) == [] || |suggestions| < topK
      {
        if d == own.date && p == own.period {
          SkipOwn(vb, own, d, p);
          p, scanned := p + 1, p;
          continue;
        }
        ExamineSlot(t, g, vb, own, d, p);
        var occupied := OccupiedIds(labs, reservations, d, p, g);
        var free := Unoccupied(active, occupied);
        assert free == FreeLabs(t, g, Slot(d, p));
        if free != [] {
          suggestions := suggestions + [Suggestion(d, p, Take(LabNames(free), MaxNamesPerSuggestion))];
        }
        if |suggestions| >= topK {
          StopAtLimit(t, g, own, maxPeriod, window, topK, delta, si, d, p);
          return;
        }
        p, scanned := p + 1, p;
      }
      ScanComplete(t, g, own, maxPeriod, window, topK, delta, si, d, p, vb + DateSlots(d, own, scanned));
    }
  }
}
