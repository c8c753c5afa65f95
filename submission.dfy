/**
 * A teacher's new lab request: the check that the teacher has no live
 * request at the same slot, and the stored result of a valid submission.
 */
module Submission {
  import opened Wrappers
  import opened Model
  import opened Invariants
  import opened Groups
  import opened Text

  /** Pending, approved and scheduled requests block a new one at their slot; a conflict does not. */
  predicate Live(st: Status)
  {
    st == Pending || st == Approved || st == Scheduled
  }

  /** `q` is a live request of `teacher` at (`date`, `period`). */
  predicate Blocks(q: LabRequest, teacher: TeacherId, date: int, period: int)
  {
    q.teacher == teacher && q.date == date && q.period == period && Live(q.status)
  }

  /** The first live request of `teacher` at (`date`, `period`), in storage order. */
  function FindSameSlotRequest(rs: seq<LabRequest>, teacher: TeacherId, date: int, period: int): (r: Option<nat>)
    ensures r.Some? ==> r.value < |rs| && Blocks(rs[r.value], teacher, date, period)
    ensures r.Some? ==> forall k :: 0 <= k < r.value ==> !Blocks(rs[k], teacher, date, period)
    ensures r.None? <==> forall q :: q in rs ==> !Blocks(q, teacher, date, period)
  {
    if rs == [] then None
    else if Blocks(rs[0], teacher, date, period) then Some(0)
    else match FindSameSlotRequest(rs[1..], teacher, date, period)
      case None =>
        assert forall q :: q in rs ==> q == rs[0] || q in rs[1..];
        None
      case Some(k) => Some(k + 1)
  }

  /**
   * The fields of a submitted request once the numbers are parsed and the
   * date derived; `group` is the group field's text as typed.
   */
  datatype Form = Form(
    teacher: TeacherId,
    className: string,
    group: string,
    date: int,
    period: int,
    preferredLab: Option<int>)

  datatype SubmitError = PreferredLabInvalid | SlotAlreadyRequested

  /** The form names a preferred lab; a key of 0 counts as none, being false in a test. */
  predicate NamesLab(f: Form)
  {
    f.preferredLab.Some? && f.preferredLab.value != 0
  }

  /** The preferred lab the form names exists and is active. */
  predicate ValidPreference(labs: seq<Lab>, f: Form)
    requires NamesLab(f)
  {
    f.preferredLab.value > 0 && FindLab(labs, f.preferredLab.value).Some?
    && FindLab(labs, f.preferredLab.value).value.active
  }

  /**
   * The group of the new request: the group of the named preferred lab,
   * which must exist and be active; with no lab named, the stripped group
   * field, or "Tin học" when that is blank.
   */
  function GroupFor(labs: seq<Lab>, f: Form): (r: Result<string, SubmitError>)
    ensures r.Err? <==> NamesLab(f) && !ValidPreference(labs, f)
    ensures r.Ok? && NamesLab(f) ==> r.value == FindLab(labs, f.preferredLab.value).value.group
    ensures r.Ok? && f.preferredLab.Some? ==> f.preferredLab.value >= 0
    ensures !NamesLab(f) ==> r.Ok? && r.value != []
    ensures !NamesLab(f) && Strip(f.group) != [] ==> r == Ok(Strip(f.group))
    ensures !NamesLab(f) && Strip(f.group) == [] ==> r == Ok(DefaultGroup)
  {
    var given := Strip(f.group);
    var typed := if given == [] then DefaultGroup else given;
    match f.preferredLab
    case None => Ok(typed)
    case Some(id) =>
      if id == 0 then Ok(typed)
      else if id < 0 then Err(PreferredLabInvalid)
      else match FindLab(labs, id)
        case None => Err(PreferredLabInvalid)
        case Some(l) => if !l.active then Err(PreferredLabInvalid) else Ok(l.group)
  }

  /**
   * Stores a pending request under the fresh key `newId`, unless the
   * preferred lab is invalid or the teacher already has a live request at
   * that slot.  The preferred-lab key is stored as given, 0 included.
   */
  function Submit(t: Tables, f: Form, newId: RequestId, createdAt: nat): (r: Result<Tables, SubmitError>)
    requires RequestIndex(t.requests, newId).None?
    ensures r.Ok? ==> FindSameSlotRequest(t.requests, f.teacher, f.date, f.period).None?
    ensures r.Ok? ==> r.value.labs == t.labs && r.value.teachers == t.teachers
                      && r.value.reservations == t.reservations
                      && |r.value.requests| == |t.requests| + 1
                      && r.value.requests[..|t.requests|] == t.requests
    ensures r.Ok? ==> var q := r.value.requests[|t.requests|];
                      q.id == newId && q.status == Pending && q.teacher == f.teacher
                      && q.className == f.className && q.date == f.date && q.period == f.period
                      && q.createdAt == createdAt
                      && GroupFor(t.labs, f) == Ok(q.group)
                      && (q.preferredLab.Some? <==> f.preferredLab.Some?)
                      && (q.preferredLab.Some? ==> q.preferredLab.value == f.preferredLab.value)
    ensures r == Err(PreferredLabInvalid) <==> NamesLab(f) && !ValidPreference(t.labs, f)
    ensures r == Err(SlotAlreadyRequested) <==>
              GroupFor(t.labs, f).Ok? && FindSameSlotRequest(t.requests, f.teacher, f.date, f.period).Some?
  {
    match GroupFor(t.labs, f)
    case Err(e) => Err(e)
    case Ok(g) =>
      if FindSameSlotRequest(t.requests, f.teacher, f.date, f.period).Some? then Err(SlotAlreadyRequested)
      else
        var pref := match f.preferredLab case None => None case Some(id) => Some(id as nat);
        var q := LabRequest(newId, f.teacher, f.className, g, f.date, f.period, Pending, pref, createdAt);
        Ok(t.(requests := t.requests + [q]))
  }

  /**
   * A request submitted without naming a lab resolves to a group of its
   * own: the one it was stored with, never blank.
   */
  lemma SubmittedGroupStands(t: Tables, f: Form, newId: RequestId, createdAt: nat)
    requires RequestIndex(t.requests, newId).None?
    requires Submit(t, f, newId, createdAt).Ok? && !NamesLab(f)
    ensures var q := Submit(t, f, newId, createdAt).value.requests[|t.requests|];
            q.group != [] && ResolveGroup(q, t.labs, t.teachers) == q.group
  {
  }

  /**
   * After a successful submission the new request is the teacher's only
   * live request at that slot.
   */
  lemma SubmitLeavesOneLiveRequest(t: Tables, f: Form, newId: RequestId, createdAt: nat)
    requires RequestIndex(t.requests, newId).None?
    requires Submit(t, f, newId, createdAt).Ok?
    ensures var rs := Submit(t, f, newId, createdAt).value.requests;
            forall i :: 0 <= i < |rs| && Blocks(rs[i], f.teacher, f.date, f.period) ==> i == |t.requests|
  {
  }

  /** A submission keeps every consistency rule of the tables. */
  lemma SubmitKeepsInvariant(t: Tables, f: Form, newId: RequestId, createdAt: nat)
    requires Inv(t) && RequestIndex(t.requests, newId).None?
    requires Submit(t, f, newId, createdAt).Ok?
    ensures Inv(Submit(t, f, newId, createdAt).value)
  {
    var t' := Submit(t, f, newId, createdAt).value;
    assert RequestIdsUnique(t'.requests) by {
      forall i, j | 0 <= i < j < |t'.requests| ensures t'.requests[i].id != t'.requests[j].id {
        assert t'.requests[i] == t.requests[i];
        if j < |t.requests| { assert t'.requests[j] == t.requests[j]; }
      }
    }
    forall x | x in t'.reservations ensures Bound(t', x) {
      assert Bound(t, x);
      var k := RequestIndex(t.requests, x.request).value;
      assert RequestIds(t'.requests) == RequestIds(t.requests) + [newId];
      assert RequestIndex(t'.requests, x.request) == Some(k) by {
        assert IdIndex(RequestIds(t'.requests), x.request) == Some(k) by {
          IdIndexExtends(RequestIds(t.requests), [newId], x.request);
        }
      }
    }
  }

  /** A key found in a prefix is found at the same position in the whole. */
  lemma {:induction false} IdIndexExtends(a: seq<nat>, b: seq<nat>, id: nat)
    requires IdIndex(a, id).Some?
    ensures IdIndex(a + b, id) == IdIndex(a, id)
  {
    if a[0] != id {
      IdIndexExtends(a[1..], b, id);
      assert (a + b)[1..] == a[1..] + b;
    }
  }
}
