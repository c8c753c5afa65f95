/**
 * The conflict advisor: who holds the labs of a request's group at its
 * slot, and which nearby (date, period) slots still have a free lab.
 * Slots are visited date by date in the order 0, -1, +1, -2, +2, ... days
 * from the requested date, periods ascending within a date, the requested
 * slot itself skipped.
 */
module Advisor {
  import opened Wrappers
  import opened Model
  import opened Names
  import opened Groups
  import opened Allocation

  /** The explanation the advisor gives for every conflict. */
  const ConflictReason: string := "Xung đột vì tất cả phòng phù hợp đã có lịch ở ngày/tiết này."

  /** How many free lab names a suggestion lists at most. */
  const MaxNamesPerSuggestion: nat := 3

  datatype Slot = Slot(date: int, period: int)

  /** One row of the "currently occupied" list. */
  datatype OccupiedEntry = OccupiedEntry(labName: string, teacherName: string, className: string)

  /** A slot with at least one free lab, and the first free labs' names. */
  datatype Suggestion = Suggestion(date: int, period: int, freeLabNames: seq<string>)

  datatype Advice =
    | RequestMissing
    | Explanation(
        requestId: RequestId,
        date: int,
        period: int,
        group: string,
        className: string,
        reason: string,
        occupied: seq<OccupiedEntry>,
        suggestions: seq<Suggestion>)

  function Abs(x: int): nat
  {
    if x < 0 then -x else x
  }

  /** The first `n` elements of `s` (all of them when there are fewer). */
  function Take<T>(s: seq<T>, n: nat): (r: seq<T>)
    ensures |r| <= n && |r| <= |s|
    ensures |s| <= n ==> r == s
    ensures n <= |s| ==> |r| == n
    ensures forall i :: 0 <= i < |r| ==> r[i] == s[i]
  {
    if |s| <= n then s else s[..n]
  }

  /** The row for reservation `x` when it is at (`d`, `p`) on a lab of group `g` and its request and teacher exist. */
  function DetailOf(t: Tables, x: Reservation, d: int, p: int, g: string): Option<OccupiedEntry>
  {
    if x.date != d || x.period != p then None
    else match FindLab(t.labs, x.lab)
      case None => None
      case Some(l) =>
        if l.group != g then None
        else match RequestIndex(t.requests, x.request)
          case None => None
          case Some(k) =>
            match FindTeacher(t.teachers, t.requests[k].teacher)
            case None => None
            case Some(u) => Some(OccupiedEntry(l.name, u.fullName, t.requests[k].className))
  }

  /**
   * Lab name, teacher name and class of every reservation of `rs` at
   * (`d`, `p`) on a lab of group `g`, in reservation order; a reservation
   * whose lab, request or teacher is missing yields no row.
   */
  function OccupiedDetailsOf(t: Tables, rs: seq<Reservation>, d: int, p: int, g: string): (r: seq<OccupiedEntry>)
    ensures |r| <= |rs|
    ensures forall e :: e in r <==>
              exists x :: x in rs && x.date == d && x.period == p
                          && FindLab(t.labs, x.lab).Some? && FindLab(t.labs, x.lab).value.group == g
                          && RequestIndex(t.requests, x.request).Some?
                          && var q := t.requests[RequestIndex(t.requests, x.request).value];
                             FindTeacher(t.teachers, q.teacher).Some?
                             && e == OccupiedEntry(FindLab(t.labs, x.lab).value.name,
                                                   FindTeacher(t.teachers, q.teacher).value.fullName,
                                                   q.className)
  {
    if rs == [] then []
    else
      var rest := OccupiedDetailsOf(t, rs[1..], d, p, g);
      assert forall x :: x in rs <==> x == rs[0] || x in rs[1..];
      match DetailOf(t, rs[0], d, p, g)
      case None => rest
      case Some(e) => [e] + rest
  }

  function OccupiedDetails(t: Tables, d: int, p: int, g: string): seq<OccupiedEntry>
  {
    OccupiedDetailsOf(t, t.reservations, d, p, g)
  }

  /** Every occupied row names a lab that allocation counts as taken at that slot. */
  lemma OccupiedRowsAreTakenLabs(t: Tables, d: int, p: int, g: string)
    ensures forall e :: e in OccupiedDetails(t, d, p, g) ==>
              exists l :: l in t.labs && l.name == e.labName && l.group == g
                          && l.id in OccupiedIds(t.labs, t.reservations, d, p, g)
  {
    forall e | e in OccupiedDetails(t, d, p, g)
      ensures exists l :: l in t.labs && l.name == e.labName && l.group == g
                          && l.id in OccupiedIds(t.labs, t.reservations, d, p, g)
    {
      var x :| x in t.reservations && x.date == d && x.period == p
               && FindLab(t.labs, x.lab).Some? && FindLab(t.labs, x.lab).value.group == g
               && RequestIndex(t.requests, x.request).Some?
               && var q := t.requests[RequestIndex(t.requests, x.request).value];
                  FindTeacher(t.teachers, q.teacher).Some?
                  && e == OccupiedEntry(FindLab(t.labs, x.lab).value.name,
                                        FindTeacher(t.teachers, q.teacher).value.fullName,
                                        q.className);
      var l := FindLab(t.labs, x.lab).value;
      assert l.id == x.lab;
    }
  }

  /** The candidates not in `occupied`, order kept. */
  function Unoccupied(cands: seq<Lab>, occupied: set<LabId>): (r: seq<Lab>)
    ensures forall l :: l in r <==> l in cands && l.id !in occupied
    ensures SortedByName(cands) ==> SortedByName(r)
  {
    if cands == [] then []
    else
      var rest := Unoccupied(cands[1..], occupied);
      assert forall l :: l in cands <==> l == cands[0] || l in cands[1..];
      if cands[0].id in occupied then rest
      else
        assert SortedByName(cands) ==> forall l :: l in rest ==> NameLe(cands[0].name, l.name) by {
          if SortedByName(cands) {
            forall l | l in rest ensures NameLe(cands[0].name, l.name) {
              var j :| 0 <= j < |cands[1..]| && cands[1..][j] == l;
              assert cands[j + 1] == l;
            }
          }
        }
        assert forall j :: 0 <= j < |rest| ==> rest[j] in rest;
        [cands[0]] + rest
  }

  /** Active labs of group `g` that no reservation holds at slot `s`, by name. */
  function FreeLabs(t: Tables, g: string, s: Slot): (r: seq<Lab>)
    ensures SortedByName(r)
    ensures forall l :: l in r <==>
              l in t.labs && l.active && l.group == g
              && l.id !in OccupiedIds(t.labs, t.reservations, s.date, s.period, g)
  {
    Unoccupied(ActiveLabsInGroup(t.labs, g), OccupiedIds(t.labs, t.reservations, s.date, s.period, g))
  }

  function LabNames(ls: seq<Lab>): (r: seq<string>)
    ensures |r| == |ls|
    ensures forall i :: 0 <= i < |ls| ==> r[i] == ls[i].name
  {
    seq(|ls|, i requires 0 <= i < |ls| => ls[i].name)
  }

  /** The suggestion for slot `s`, when it has a free lab. */
  function SuggestionAt(t: Tables, g: string, s: Slot): Option<Suggestion>
  {
    var free := FreeLabs(t, g, s);
    if free == [] then None
    else Some(Suggestion(s.date, s.period, Take(LabNames(free), MaxNamesPerSuggestion)))
  }

  /** The suggestions for `slots`, in slot order. */
  function SuggestionsOf(t: Tables, g: string, slots: seq<Slot>): (r: seq<Suggestion>)
    ensures |r| <= |slots|
    decreases |slots|
  {
    if slots == [] then []
    else
      var head := SuggestionsOf(t, g, slots[..|slots| - 1]);
      match SuggestionAt(t, g, slots[|slots| - 1])
      case None => head
      case Some(x) => head + [x]
  }

  /**
   * Every suggestion is the suggestion of one of the slots, and every slot
   * with a free lab has its suggestion listed.
   */
  lemma {:induction false} SuggestionsOfMembers(t: Tables, g: string, slots: seq<Slot>)
    ensures forall x :: x in SuggestionsOf(t, g, slots) ==>
              SlotOf(x) in slots && SuggestionAt(t, g, SlotOf(x)) == Some(x)
    ensures forall s :: s in slots && SuggestionAt(t, g, s).Some? ==>
              SuggestionAt(t, g, s).value in SuggestionsOf(t, g, slots)
    decreases |slots|
  {
    if slots != [] {
      var pre := slots[..|slots| - 1];
      var last := slots[|slots| - 1];
      assert slots == pre + [last];
      SuggestionsOfMembers(t, g, pre);
    }
  }

  /** Suggestions of a prefix are a prefix of the suggestions. */
  lemma {:induction false} SuggestionsOfPrefix(t: Tables, g: string, a: seq<Slot>, b: seq<Slot>)
    ensures |SuggestionsOf(t, g, a)| <= |SuggestionsOf(t, g, a + b)|
    ensures SuggestionsOf(t, g, a + b)[..|SuggestionsOf(t, g, a)|] == SuggestionsOf(t, g, a)
    decreases |b|
  {
    if b != [] {
      var b' := b[..|b| - 1];
      SuggestionsOfPrefix(t, g, a, b');
      assert (a + b)[..|a + b| - 1] == a + b';
    } else {
      assert a + b == a;
    }
  }

  /** Rank of a date offset in the visiting order 0, -1, +1, -2, +2, ... */
  function DateRank(o: int): nat
  {
    if o == 0 then 0 else if o < 0 then -2 * o - 1 else 2 * o
  }

  /** Nearer dates are visited first. */
  lemma NearerDateFirst(o1: int, o2: int)
    ensures DateRank(o1) <= DateRank(o2) ==> Abs(o1) <= Abs(o2)
    ensures Abs(o1) < Abs(o2) ==> DateRank(o1) < DateRank(o2)
  {
  }

  /** Slot `a` comes before slot `b` in the visiting order around date `d0`. */
  predicate SlotBefore(a: Slot, b: Slot, d0: int)
  {
    DateRank(a.date - d0) < DateRank(b.date - d0)
    || (a.date == b.date && a.period < b.period)
  }

  /** Periods 1..`n` of date `d`, ascending, without slot `own`. */
  function DateSlots(d: int, own: Slot, n: int): seq<Slot>
    decreases n
  {
    if n < 1 then []
    else DateSlots(d, own, n - 1) + (if Slot(d, n) == own then [] else [Slot(d, n)])
  }

  /** All slots are on date `d`, periods strictly ascending. */
  predicate PeriodsAscending(r: seq<Slot>, d: int)
  {
    && (forall i :: 0 <= i < |r| ==> r[i].date == d)
    && (forall i, j :: 0 <= i < j < |r| ==> r[i].period < r[j].period)
  }

  /** Slot `s` is on date `d`, in periods 1..`n`, and not `own`. */
  predicate OnDate(s: Slot, d: int, own: Slot, n: int)
  {
    s.date == d && 1 <= s.period <= n && s != own
  }

  /** The slots of date `d` are exactly its periods 1..`n` other than `own`. */
  ghost predicate DateSlotsExactly(d: int, own: Slot, n: int)
  {
    forall s :: s in DateSlots(d, own, n) <==> OnDate(s, d, own, n)
  }

  /** The slots of a date are its periods 1..`n` other than `own`. */
  lemma {:induction false} DateSlotsMembers(d: int, own: Slot, n: int)
    ensures DateSlotsExactly(d, own, n)
    decreases n
  {
    if n >= 1 {
      DateSlotsMembers(d, own, n - 1);
    }
  }

  /** The slots of a date come in ascending period order. */
  lemma {:induction false} DateSlotsAscending(d: int, own: Slot, n: int)
    ensures PeriodsAscending(DateSlots(d, own, n), d)
    decreases n
  {
    if n >= 1 {
      DateSlotsAscending(d, own, n - 1);
      DateSlotsMembers(d, own, n - 1);
      var pre := DateSlots(d, own, n - 1);
      var r := DateSlots(d, own, n);
      var tail := if Slot(d, n) == own then [] else [Slot(d, n)];
      assert r == pre + tail;
      forall i | 0 <= i < |r| ensures r[i].date == d {
        if i < |pre| {
          assert r[i] == pre[i] && pre[i] in pre;
        } else {
          assert r[i] == tail[i - |pre|];
        }
      }
      forall i, j | 0 <= i < j < |r| ensures r[i].period < r[j].period {
        assert r[i] == pre[i] && pre[i] in pre;
        if j < |pre| {
          assert r[j] == pre[j];
        } else {
          assert r[j] == tail[j - |pre|] == Slot(d, n);
        }
      }
    }
  }

  /**
   * The slots of the dates at most `w` days from `own.date`, periods
   * 1..`maxPeriod`, `own` left out: the requested date, then for each
   * distance the earlier date before the later one.
   */
  function CandidatesWithin(own: Slot, maxPeriod: int, w: int): seq<Slot>
    decreases w
  {
    if w < 0 then []
    else if w == 0 then DateSlots(own.date, own, maxPeriod)
    else CandidatesWithin(own, maxPeriod, w - 1)
         + DateSlots(own.date - w, own, maxPeriod) + DateSlots(own.date + w, own, maxPeriod)
  }

  /** Slot `s` is within `w` days of `own`, in period range, and not `own` itself. */
  predicate NearSlot(s: Slot, own: Slot, maxPeriod: int, w: int)
  {
    own.date - w <= s.date <= own.date + w && 1 <= s.period <= maxPeriod && s != own
  }

  /** The candidates within `w` days are exactly the slots near `own` at that distance. */
  ghost predicate WithinExactly(own: Slot, maxPeriod: int, w: int)
  {
    forall s :: s in CandidatesWithin(own, maxPeriod, w) <==> NearSlot(s, own, maxPeriod, w)
  }

  /** The dates at most `w` days away hold exactly the slots within that distance. */
  lemma {:induction false} CandidatesWithinMembers(own: Slot, maxPeriod: int, w: int)
    ensures WithinExactly(own, maxPeriod, w)
    decreases w
  {
    if w == 0 {
      DateSlotsMembers(own.date, own, maxPeriod);
    } else if w > 0 {
      CandidatesWithinMembers(own, maxPeriod, w - 1);
      CandidatesWithinStep(own, maxPeriod, w);
    }
  }

  lemma CandidatesWithinStep(own: Slot, maxPeriod: int, w: int)
    requires w > 0 && WithinExactly(own, maxPeriod, w - 1)
    ensures WithinExactly(own, maxPeriod, w)
  {
    var lo, hi := own.date - w, own.date + w;
    CandidatesWithinUnfold(own, maxPeriod, w);
    DateSlotsMembers(lo, own, maxPeriod);
    DateSlotsMembers(hi, own, maxPeriod);
    WidenByOneDay(CandidatesWithin(own, maxPeriod, w), CandidatesWithin(own, maxPeriod, w - 1),
                  DateSlots(lo, own, maxPeriod), DateSlots(hi, own, maxPeriod), own, maxPeriod, w, lo, hi);
  }

  lemma CandidatesWithinUnfold(own: Slot, maxPeriod: int, w: int)
    requires w > 0
    ensures CandidatesWithin(own, maxPeriod, w)
            == CandidatesWithin(own, maxPeriod, w - 1)
               + DateSlots(own.date - w, own, maxPeriod) + DateSlots(own.date + w, own, maxPeriod)
  {
  }

  /** Slots within `w - 1` days, then those `w` days before and after, are the slots within `w` days. */
  lemma WidenByOneDay(r: seq<Slot>, a: seq<Slot>, b: seq<Slot>, c: seq<Slot>,
                      own: Slot, maxPeriod: int, w: int, lo: int, hi: int)
    requires r == a + b + c
    requires w > 0 && lo == own.date - w && hi == own.date + w
    requires forall s :: s in a <==> NearSlot(s, own, maxPeriod, w - 1)
    requires forall s :: s in b <==> OnDate(s, lo, own, maxPeriod)
    requires forall s :: s in c <==> OnDate(s, hi, own, maxPeriod)
    ensures forall s :: s in r <==> NearSlot(s, own, maxPeriod, w)
  {
  }

  /** Every slot the search examines: within `window` days, periods 1..`maxPeriod`, not `own`. */
  function Candidates(own: Slot, maxPeriod: int, window: int): (r: seq<Slot>)
    ensures forall s :: s in r <==>
              Abs(s.date - own.date) <= window && 1 <= s.period <= maxPeriod && s != own
  {
    CandidatesWithinMembers(own, maxPeriod, window);
    assert forall s :: NearSlot(s, own, maxPeriod, window) <==>
                       Abs(s.date - own.date) <= window && 1 <= s.period <= maxPeriod && s != own;
    CandidatesWithin(own, maxPeriod, window)
  }

  /** Slots listed in visiting order around `d0`. */
  predicate InVisitOrder(s: seq<Slot>, d0: int)
  {
    forall i, j :: 0 <= i < j < |s| ==> SlotBefore(s[i], s[j], d0)
  }

  /** Every slot of `a` comes before every slot of `b`. */
  predicate AllBefore(a: seq<Slot>, b: seq<Slot>, d0: int)
  {
    forall x, y :: x in a && y in b ==> SlotBefore(x, y, d0)
  }

  lemma ConcatInVisitOrder(r: seq<Slot>, a: seq<Slot>, b: seq<Slot>, d0: int)
    requires r == a + b
    requires InVisitOrder(a, d0) && InVisitOrder(b, d0)
    requires AllBefore(a, b, d0)
    ensures InVisitOrder(r, d0)
  {
    forall i, j | 0 <= i < j < |r| ensures SlotBefore(r[i], r[j], d0) {
      if i < |a| && j >= |a| {
        assert r[i] == a[i] && r[j] == b[j - |a|];
      }
    }
  }

  /** The periods of one date are listed in visiting order. */
  lemma DateSlotsInOrder(d: int, own: Slot, n: int, d0: int)
    ensures InVisitOrder(DateSlots(d, own, n), d0)
  {
    var b := DateSlots(d, own, n);
    DateSlotsAscending(d, own, n);
    forall i, j | 0 <= i < j < |b| ensures SlotBefore(b[i], b[j], d0) {
      assert b[i].date == d && b[j].date == d && b[i].period < b[j].period;
    }
  }

  /** Slots of date rank below `k` come before slots of date rank `k`. */
  lemma RankSeparated(a: seq<Slot>, b: seq<Slot>, d0: int, k: nat)
    requires forall x :: x in a ==> DateRank(x.date - d0) < k
    requires forall y :: y in b ==> DateRank(y.date - d0) == k
    ensures AllBefore(a, b, d0)
  {
  }

  /** The candidates are listed in visiting order. */
  lemma {:induction false} CandidatesInOrder(own: Slot, maxPeriod: int, w: int)
    ensures InVisitOrder(CandidatesWithin(own, maxPeriod, w), own.date)
    decreases w
  {
    if w == 0 {
      DateSlotsInOrder(own.date, own, maxPeriod, own.date);
    } else if w > 0 {
      CandidatesInOrder(own, maxPeriod, w - 1);
      CandidatesInOrderStep(own, maxPeriod, w);
    }
  }

  /** Adding the dates `w` days before and after keeps the visiting order. */
  lemma CandidatesInOrderStep(own: Slot, maxPeriod: int, w: int)
    requires w > 0 && InVisitOrder(CandidatesWithin(own, maxPeriod, w - 1), own.date)
    ensures InVisitOrder(CandidatesWithin(own, maxPeriod, w), own.date)
  {
    var d0 := own.date;
    var lo, hi := d0 - w, d0 + w;
    var a := CandidatesWithin(own, maxPeriod, w - 1);
    var b := DateSlots(lo, own, maxPeriod);
    var c := DateSlots(hi, own, maxPeriod);
    DateSlotsInOrder(lo, own, maxPeriod, d0);
    DateSlotsInOrder(hi, own, maxPeriod, d0);
    EarlierSideAfterNearer(own, maxPeriod, w, lo);
    ConcatInVisitOrder(a + b, a, b, d0);
    LaterSideAfterEarlier(own, maxPeriod, w, lo, hi);
    CandidatesWithinUnfold(own, maxPeriod, w);
    ConcatInVisitOrder(CandidatesWithin(own, maxPeriod, w), a + b, c, d0);
  }

  /** The date `w` days before comes after every nearer date. */
  lemma EarlierSideAfterNearer(own: Slot, maxPeriod: int, w: int, lo: int)
    requires w > 0 && lo == own.date - w
    ensures AllBefore(CandidatesWithin(own, maxPeriod, w - 1), DateSlots(lo, own, maxPeriod), own.date)
  {
    CandidatesWithinMembers(own, maxPeriod, w - 1);
    DateSlotsMembers(lo, own, maxPeriod);
    RankSeparated(CandidatesWithin(own, maxPeriod, w - 1), DateSlots(lo, own, maxPeriod), own.date, 2 * w - 1);
  }

  /** The date `w` days after comes after every nearer date and after the date `w` days before. */
  lemma LaterSideAfterEarlier(own: Slot, maxPeriod: int, w: int, lo: int, hi: int)
    requires w > 0 && lo == own.date - w && hi == own.date + w
    ensures AllBefore(CandidatesWithin(own, maxPeriod, w - 1) + DateSlots(lo, own, maxPeriod),
                      DateSlots(hi, own, maxPeriod), own.date)
  {
    var ab := CandidatesWithin(own, maxPeriod, w - 1) + DateSlots(lo, own, maxPeriod);
    CandidatesWithinMembers(own, maxPeriod, w - 1);
    DateSlotsMembers(lo, own, maxPeriod);
    DateSlotsMembers(hi, own, maxPeriod);
    RankSeparated(ab, DateSlots(hi, own, maxPeriod), own.date, 2 * w);
  }

  /** The slot a suggestion is for. */
  function SlotOf(x: Suggestion): Slot
  {
    Slot(x.date, x.period)
  }

  /** Suggestions listed in visiting order of their slots around `d0`. */
  predicate SuggestedInVisitOrder(r: seq<Suggestion>, d0: int)
  {
    forall i, j :: 0 <= i < j < |r| ==> SlotBefore(SlotOf(r[i]), SlotOf(r[j]), d0)
  }

  lemma AppendInVisitOrder(head: seq<Suggestion>, x: Suggestion, d0: int)
    requires SuggestedInVisitOrder(head, d0)
    requires forall y :: y in head ==> SlotBefore(SlotOf(y), SlotOf(x), d0)
    ensures SuggestedInVisitOrder(head + [x], d0)
  {
    var r := head + [x];
    forall i, j | 0 <= i < j < |r| ensures SlotBefore(SlotOf(r[i]), SlotOf(r[j]), d0) {
      assert r[i] == head[i] && head[i] in head;
      if j < |head| { assert r[j] == head[j]; }
    }
  }

  /** Suggestions of slots listed in visiting order are in visiting order. */
  lemma {:induction false} SuggestionsInOrder(t: Tables, g: string, slots: seq<Slot>, d0: int)
    requires InVisitOrder(slots, d0)
    ensures SuggestedInVisitOrder(SuggestionsOf(t, g, slots), d0)
    decreases |slots|
  {
    if slots != [] {
      var pre := slots[..|slots| - 1];
      var last := slots[|slots| - 1];
      assert InVisitOrder(pre, d0) by {
        forall i, j | 0 <= i < j < |pre| ensures SlotBefore(pre[i], pre[j], d0) {
          assert pre[i] == slots[i] && pre[j] == slots[j];
        }
      }
      SuggestionsInOrder(t, g, pre, d0);
      SuggestionsOfMembers(t, g, pre);
      var head := SuggestionsOf(t, g, pre);
      match SuggestionAt(t, g, last) {
        case None =>
          assert SuggestionsOf(t, g, slots) == head;
        case Some(x) =>
          assert SuggestionsOf(t, g, slots) == head + [x];
          assert SlotOf(x) == last;
          forall y | y in head ensures SlotBefore(SlotOf(y), last, d0) {
            assert SlotOf(y) in pre;
            var k :| 0 <= k < |pre| && pre[k] == SlotOf(y);
            assert slots[k] == pre[k];
          }
          AppendInVisitOrder(head, x, d0);
      }
    }
  }

  /**
   * The suggestion list.  With a negative window nothing is searched.  With
   * `topK` at least 1 the search stops once `topK` suggestions are found.
   * With `topK` at most 0 the limit is already met after the first slot
   * examined, so only that slot (the first period of the requested date
   * other than the requested one) can yield a suggestion.
   */
  function Suggestions(t: Tables, g: string, own: Slot, maxPeriod: int, window: int, topK: int): seq<Suggestion>
  {
    if window < 0 then []
    else if topK <= 0 then SuggestionsOf(t, g, Take(DateSlots(own.date, own, maxPeriod), 1))
    else Take(SuggestionsOf(t, g, Candidates(own, maxPeriod, window)), topK)
  }

  /**
   * The advisor's answer for request `rid`: the request's slot and resolved
   * group, the occupied labs there, and suggestions nearby.  The resolved
   * group is not written back.
   */
  function Explain(t: Tables, rid: RequestId, maxPeriod: int, window: int, topK: int): Advice
  {
    match RequestIndex(t.requests, rid)
    case None => RequestMissing
    case Some(k) =>
      var req := t.requests[k];
      var g := ResolveGroup(req, t.labs, t.teachers);
      Explanation(req.id, req.date, req.period, g, req.className, ConflictReason,
                  OccupiedDetails(t, req.date, req.period, g),
                  Suggestions(t, g, Slot(req.date, req.period), maxPeriod, window, topK))
  }

  /**
   * Every suggestion is a slot other than the requested one, within the
   * window and the period range, whose listed labs are the first (at most
   * three) free active labs of the group by name, and there is at least one.
   */
  lemma SuggestionsSound(t: Tables, g: string, own: Slot, maxPeriod: int, window: int, topK: int)
    ensures forall x :: x in Suggestions(t, g, own, maxPeriod, window, topK) ==>
              var s := Slot(x.date, x.period);
              && s != own
              && Abs(x.date - own.date) <= window
              && 1 <= x.period <= maxPeriod
              && FreeLabs(t, g, s) != []
              && x.freeLabNames == Take(LabNames(FreeLabs(t, g, s)), MaxNamesPerSuggestion)
              && 1 <= |x.freeLabNames| <= MaxNamesPerSuggestion
  {
    var r := Suggestions(t, g, own, maxPeriod, window, topK);
    if window >= 0 {
      var slots := if topK <= 0 then Take(DateSlots(own.date, own, maxPeriod), 1)
                   else Candidates(own, maxPeriod, window);
      var found := SuggestionsOf(t, g, slots);
      assert forall x :: x in r ==> x in found by {
        forall x | x in r ensures x in found {
          var i :| 0 <= i < |r| && r[i] == x;
          assert found[i] == x;
        }
      }
      SuggestionsOfMembers(t, g, slots);
      assert forall s :: s in slots ==> s in DateSlots(own.date, own, maxPeriod) || s in Candidates(own, maxPeriod, window);
      DateSlotsMembers(own.date, own, maxPeriod);
    }
  }

  /** The search stops at `topK` suggestions (one when `topK` is not positive). */
  lemma SuggestionsBounded(t: Tables, g: string, own: Slot, maxPeriod: int, window: int, topK: int)
    ensures topK >= 1 ==> |Suggestions(t, g, own, maxPeriod, window, topK)| <= topK
    ensures topK <= 0 ==> |Suggestions(t, g, own, maxPeriod, window, topK)| <= 1
  {
  }

  /**
   * Suggestions come in visiting order: nearer dates first, the earlier of
   * two equally near dates first, and ascending periods within a date.
   */
  lemma SuggestionsInVisitOrder(t: Tables, g: string, own: Slot, maxPeriod: int, window: int, topK: int)
    ensures var r := Suggestions(t, g, own, maxPeriod, window, topK);
            forall i, j :: 0 <= i < j < |r| ==>
              && SlotBefore(Slot(r[i].date, r[i].period), Slot(r[j].date, r[j].period), own.date)
              && Abs(r[i].date - own.date) <= Abs(r[j].date - own.date)
  {
    var r := Suggestions(t, g, own, maxPeriod, window, topK);
    if window >= 0 && topK >= 1 {
      var c := Candidates(own, maxPeriod, window);
      CandidatesInOrder(own, maxPeriod, window);
      SuggestionsInOrder(t, g, c, own.date);
      TakeInVisitOrder(SuggestionsOf(t, g, c), topK, own.date);
    }
    NearerDatesFirst(r, own.date);
  }

  /** A prefix of suggestions in visiting order is in visiting order. */
  lemma TakeInVisitOrder(r: seq<Suggestion>, k: nat, d0: int)
    requires SuggestedInVisitOrder(r, d0)
    ensures SuggestedInVisitOrder(Take(r, k), d0)
  {
  }

  /** Suggestions in visiting order never move further from `d0`. */
  lemma NearerDatesFirst(r: seq<Suggestion>, d0: int)
    requires |r| <= 1 || SuggestedInVisitOrder(r, d0)
    ensures forall i, j :: 0 <= i < j < |r| ==>
              && SlotBefore(Slot(r[i].date, r[i].period), Slot(r[j].date, r[j].period), d0)
              && Abs(r[i].date - d0) <= Abs(r[j].date - d0)
  {
    forall i, j | 0 <= i < j < |r|
      ensures Abs(r[i].date - d0) <= Abs(r[j].date - d0)
    {
      NearerDateFirst(r[i].date - d0, r[j].date - d0);
    }
  }

  /**
   * When fewer than `topK` suggestions come back, none was cut off: every
   * slot within the window and period range, other than the requested one,
   * that has a free lab is suggested.
   */
  lemma SuggestionsComplete(t: Tables, g: string, own: Slot, maxPeriod: int, window: int, topK: int, s: Slot)
    requires topK >= 1
    requires |Suggestions(t, g, own, maxPeriod, window, topK)| < topK
    requires Abs(s.date - own.date) <= window && 1 <= s.period <= maxPeriod && s != own
    requires FreeLabs(t, g, s) != []
    ensures SuggestionAt(t, g, s).Some?
    ensures SuggestionAt(t, g, s).value in Suggestions(t, g, own, maxPeriod, window, topK)
  {
    var c := Candidates(own, maxPeriod, window);
    assert s in c;
    SuggestionsOfMembers(t, g, c);
  }

  /** Visiting order is strict: no slot comes before itself, and no two slots come before each other. */
  lemma SlotBeforeStrict(a: Slot, b: Slot, d0: int)
    ensures !SlotBefore(a, a, d0)
    ensures !(SlotBefore(a, b, d0) && SlotBefore(b, a, d0))
  {
  }

  /**
   * When `topK` suggestions come back they are the first slots in visiting
   * order with a free lab: every slot within the window and the period
   * range, other than the requested one, that has a free lab and comes no
   * later than the last suggestion is suggested.
   */
  lemma SuggestionsAreTheFirst(t: Tables, g: string, own: Slot, maxPeriod: int, window: int, topK: int, s: Slot)
    requires topK >= 1
    requires |Suggestions(t, g, own, maxPeriod, window, topK)| == topK
    requires Abs(s.date - own.date) <= window && 1 <= s.period <= maxPeriod && s != own
    requires FreeLabs(t, g, s) != []
    requires var last := SlotOf(Suggestions(t, g, own, maxPeriod, window, topK)[topK - 1]);
             s == last || SlotBefore(s, last, own.date)
    ensures SuggestionAt(t, g, s).Some?
    ensures SuggestionAt(t, g, s).value in Suggestions(t, g, own, maxPeriod, window, topK)
  {
    var c := Candidates(own, maxPeriod, window);
    var all := SuggestionsOf(t, g, c);
    var r := Suggestions(t, g, own, maxPeriod, window, topK);
    assert r == Take(all, topK);
    CandidatesInOrder(own, maxPeriod, window);
    SuggestionsInOrder(t, g, c, own.date);
    SuggestionsOfMembers(t, g, c);
    assert s in c;
    var x := SuggestionAt(t, g, s).value;
    assert SlotOf(x) == s;
    var m :| 0 <= m < |all| && all[m] == x;
    if m >= topK {
      assert all[topK - 1] == r[topK - 1];
      assert SlotBefore(SlotOf(r[topK - 1]), s, own.date);
      SlotBeforeStrict(s, SlotOf(r[topK - 1]), own.date);
      assert false;
    }
    assert r[m] == x;
  }

  /** The first period of date `d` other than `own`: period 1, or period 2 when `own` is period 1 of `d`. */
  function FirstPeriodSlot(d: int, own: Slot): (s: Slot)
    ensures s.date == d && s != own && 1 <= s.period <= 2
    ensures forall p :: 1 <= p < s.period ==> Slot(d, p) == own
  {
    if own == Slot(d, 1) then Slot(d, 2) else Slot(d, 1)
  }

  /** A date's slot list, when not empty, starts with its first period other than `own`. */
  lemma {:induction false} DateSlotsFirst(d: int, own: Slot, n: int)
    ensures DateSlots(d, own, n) != [] <==> FirstPeriodSlot(d, own).period <= n
    ensures DateSlots(d, own, n) != [] ==> DateSlots(d, own, n)[0] == FirstPeriodSlot(d, own)
    decreases n
  {
    DateSlotsMembers(d, own, n);
    var first := FirstPeriodSlot(d, own);
    assert first.period <= n ==> first in DateSlots(d, own, n);
    if n >= 1 {
      DateSlotsFirst(d, own, n - 1);
    }
  }

  /**
   * With a non-positive `topK` the search stops after the first slot it
   * examines, the first period of the requested date other than the
   * requested one: the answer is that slot's suggestion when it has a free
   * lab, and empty otherwise.
   */
  lemma NonPositiveTopKStillSuggests(t: Tables, g: string, own: Slot, maxPeriod: int, window: int, topK: int)
    requires topK <= 0 && window >= 0
    ensures var first := FirstPeriodSlot(own.date, own);
            var r := Suggestions(t, g, own, maxPeriod, window, topK);
            && (first.period > maxPeriod ==> r == [])
            && (first.period <= maxPeriod && FreeLabs(t, g, first) == [] ==> r == [])
            && (first.period <= maxPeriod && FreeLabs(t, g, first) != [] ==> r == [SuggestionAt(t, g, first).value])
  {
    var slots := DateSlots(own.date, own, maxPeriod);
    DateSlotsFirst(own.date, own, maxPeriod);
    if slots != [] {
      var first := slots[0];
      assert Take(slots, 1) == [first];
      assert [first][..0] == [];
    }
  }

  /**
   * A slot's first free lab by name is the lab allocation falls back to
   * there, so a suggestion's first name is where a request at that slot
   * without an eligible preference would land.
   */
  lemma FirstSuggestedIsFallback(t: Tables, g: string, s: Slot)
    requires FreeLabs(t, g, s) != []
    ensures var occupied := OccupiedIds(t.labs, t.reservations, s.date, s.period, g);
            FirstFree(ActiveLabsInGroup(t.labs, g), occupied) == Some(FreeLabs(t, g, s)[0])
  {
    var occupied := OccupiedIds(t.labs, t.reservations, s.date, s.period, g);
    var cands := ActiveLabsInGroup(t.labs, g);
    FirstIsFirstFree(cands, occupied);
  }

  lemma {:induction false} FirstIsFirstFree(cands: seq<Lab>, occupied: set<LabId>)
    requires Unoccupied(cands, occupied) != []
    ensures FirstFree(cands, occupied) == Some(Unoccupied(cands, occupied)[0])
  {
    if cands[0].id in occupied {
      FirstIsFirstFree(cands[1..], occupied);
    }
  }
}
