/**
 * Bookkeeping for the advisor's nested search loops: which slots the search
 * has examined at each point, and why stopping where it stops gives the
 * advisor's answer.
 */
module Search {
  import opened Wrappers
  import opened Model
  import opened Advisor

  /** Direction `si` of the search at distance `delta` reaches date `d`: the date itself, then earlier before later. */
  predicate Reaches(own: Slot, delta: nat, si: nat, d: int)
  {
    || (delta == 0 && si == 0 && d == own.date)
    || (delta > 0 && si == 0 && d == own.date - delta)
    || (delta > 0 && si == 1 && d == own.date + delta)
  }

  /**
   * The slots the search has examined before direction `si` at distance
   * `delta`: every nearer date, and, for the later direction, the earlier
   * date at distance `delta` too.
   */
  ghost function VisitedBefore(own: Slot, maxPeriod: int, delta: nat, si: nat): seq<Slot>
  {
    if si == 0 then CandidatesWithin(own, maxPeriod, delta - 1)
    else if delta > 0 && si == 1 then CandidatesWithin(own, maxPeriod, delta - 1) + DateSlots(own.date - delta, own, maxPeriod)
    else CandidatesWithin(own, maxPeriod, delta)
  }

  /** Examining all periods of the date a direction reaches moves on to the next direction. */
  lemma VisitNext(own: Slot, maxPeriod: int, delta: nat, si: nat, d: int)
    requires Reaches(own, delta, si, d)
    ensures VisitedBefore(own, maxPeriod, delta, si) + DateSlots(d, own, maxPeriod)
            == VisitedBefore(own, maxPeriod, delta, si + 1)
  {
    if delta == 0 {
      VisitOwnDate(own, maxPeriod);
    } else if si == 0 {
      assert VisitedBefore(own, maxPeriod, delta, 1)
             == VisitedBefore(own, maxPeriod, delta, 0) + DateSlots(own.date - delta, own, maxPeriod);
    } else {
      VisitLaterDate(own, maxPeriod, delta);
    }
  }

  lemma VisitOwnDate(own: Slot, maxPeriod: int)
    ensures VisitedBefore(own, maxPeriod, 0, 0) + DateSlots(own.date, own, maxPeriod)
            == VisitedBefore(own, maxPeriod, 0, 1)
  {
    assert VisitedBefore(own, maxPeriod, 0, 0) == [];
    assert VisitedBefore(own, maxPeriod, 0, 1) == DateSlots(own.date, own, maxPeriod);
  }

  lemma VisitLaterDate(own: Slot, maxPeriod: int, delta: nat)
    requires delta > 0
    ensures VisitedBefore(own, maxPeriod, delta, 1) + DateSlots(own.date + delta, own, maxPeriod)
            == VisitedBefore(own, maxPeriod, delta, 2)
  {
    CandidatesWithinUnfold(own, maxPeriod, delta);
  }

  /** Examining one more slot adds its suggestion, if any, at the end. */
  lemma SuggestionsOfStep(t: Tables, g: string, pre: seq<Slot>, s: Slot)
    ensures SuggestionsOf(t, g, pre + [s]) ==
              SuggestionsOf(t, g, pre)
              + (if FreeLabs(t, g, s) == [] then []
                 else [Suggestion(s.date, s.period, Take(LabNames(FreeLabs(t, g, s)), MaxNamesPerSuggestion))])
  {
    assert (pre + [s])[..|pre|] == pre;
  }

  /** The periods up to `p` of a date are a prefix of its periods up to `n`. */
  lemma {:induction false} DateSlotsPrefix(d: int, own: Slot, p: int, n: int) returns (rest: seq<Slot>)
    requires p <= n
    ensures DateSlots(d, own, n) == DateSlots(d, own, p) + rest
    decreases n - p
  {
    if p == n || n < 1 {
      rest := [];
    } else {
      var r := DateSlotsPrefix(d, own, p, n - 1);
      rest := r + (if Slot(d, n) == own then [] else [Slot(d, n)]);
    }
  }

  lemma ConcatAssoc<T>(a: seq<T>, b: seq<T>, c: seq<T>)
    ensures a + b + c == a + (b + c)
  {
  }

  /** The candidates within `w` days are a prefix of those within `window` days. */
  lemma {:induction false} CandidatesWithinPrefix(own: Slot, maxPeriod: int, w: int, window: int) returns (rest: seq<Slot>)
    requires -1 <= w <= window
    ensures CandidatesWithin(own, maxPeriod, window) == CandidatesWithin(own, maxPeriod, w) + rest
    decreases window - w
  {
    if w == window {
      rest := [];
    } else if w == -1 {
      rest := CandidatesWithin(own, maxPeriod, window);
    } else {
      var r := CandidatesWithinPrefix(own, maxPeriod, w, window - 1);
      var b := DateSlots(own.date - window, own, maxPeriod);
      var c := DateSlots(own.date + window, own, maxPeriod);
      CandidatesWithinUnfold(own, maxPeriod, window);
      rest := r + b + c;
      calc {
        CandidatesWithin(own, maxPeriod, window);
        CandidatesWithin(own, maxPeriod, w) + r + b + c;
        { ConcatAssoc(CandidatesWithin(own, maxPeriod, w) + r, b, c);
          ConcatAssoc(CandidatesWithin(own, maxPeriod, w), r, b);
          ConcatAssoc(CandidatesWithin(own, maxPeriod, w), r + b, c); }
        CandidatesWithin(own, maxPeriod, w) + rest;
      }
    }
  }

  /** The slots examined up to period `p` of the date being searched are a prefix of all candidates. */
  lemma SeenIsPrefix(own: Slot, maxPeriod: int, window: int, delta: nat, si: nat, d: int, p: int)
    returns (rest: seq<Slot>)
    requires Reaches(own, delta, si, d) && delta <= window && p <= maxPeriod
    ensures CandidatesWithin(own, maxPeriod, window)
            == VisitedBefore(own, maxPeriod, delta, si) + DateSlots(d, own, p) + rest
  {
    var vb := VisitedBefore(own, maxPeriod, delta, si);
    var r1 := DateSlotsPrefix(d, own, p, maxPeriod);
    VisitNext(own, maxPeriod, delta, si, d);
    var r2: seq<Slot> := [];
    if delta > 0 && si == 0 {
      r2 := DateSlots(own.date + delta, own, maxPeriod);
      CandidatesWithinUnfold(own, maxPeriod, delta);
    }
    assert CandidatesWithin(own, maxPeriod, delta) == VisitedBefore(own, maxPeriod, delta, si + 1) + r2;
    var r3 := CandidatesWithinPrefix(own, maxPeriod, delta, window);
    rest := r1 + r2 + r3;
    var a := vb + DateSlots(d, own, p);
    calc {
      CandidatesWithin(own, maxPeriod, window);
      vb + (DateSlots(d, own, p) + r1) + r2 + r3;
      { ConcatAssoc(vb, DateSlots(d, own, p), r1); }
      a + r1 + r2 + r3;
      { ConcatAssoc(a, r1, r2); ConcatAssoc(a, r1 + r2, r3); }
      a + rest;
    }
  }

  /** Before the first period of a date, the search has examined exactly the slots visited before it. */
  lemma FirstVisit(own: Slot, maxPeriod: int, delta: nat, si: nat, d: int)
    requires Reaches(own, delta, si, d)
    ensures VisitedBefore(own, maxPeriod, delta, si) + DateSlots(d, own, 0) == VisitedBefore(own, maxPeriod, delta, si)
    ensures delta == 0 ==> VisitedBefore(own, maxPeriod, delta, si) == []
  {
    assert DateSlots(d, own, 0) == [];
  }

  /** The requested slot itself is passed over. */
  lemma SkipOwn(vb: seq<Slot>, own: Slot, d: int, p: int)
    requires 1 <= p && Slot(d, p) == own
    ensures vb + DateSlots(d, own, p - 1) == vb + DateSlots(d, own, p)
  {
    assert DateSlots(d, own, p) == DateSlots(d, own, p - 1) + [];
  }

  /**
   * A date scanned to its last period: below the limit the search moves on
   * to the next direction; at the limit nothing was examined and the
   * answer is empty.
   */
  lemma ScanComplete(t: Tables, g: string, own: Slot, maxPeriod: int, window: int, topK: int,
                     delta: nat, si: nat, d: int, p: int, seen: seq<Slot>)
    requires Reaches(own, delta, si, d) && delta <= window
    requires delta > 0 ==> |SuggestionsOf(t, g, VisitedBefore(own, maxPeriod, delta, si))| < topK
    requires p == (if maxPeriod >= 1 then maxPeriod + 1 else 1)
    requires seen == VisitedBefore(own, maxPeriod, delta, si) + DateSlots(d, own, p - 1)
    requires seen == [] || |SuggestionsOf(t, g, seen)| < topK
    ensures |SuggestionsOf(t, g, seen)| >= topK ==>
              SuggestionsOf(t, g, seen) == Suggestions(t, g, own, maxPeriod, window, topK)
    ensures |SuggestionsOf(t, g, seen)| < topK ==>
              SuggestionsOf(t, g, seen) == SuggestionsOf(t, g, VisitedBefore(own, maxPeriod, delta, si + 1))
  {
    assert DateSlots(d, own, p - 1) == DateSlots(d, own, maxPeriod);
    VisitNext(own, maxPeriod, delta, si, d);
    if |SuggestionsOf(t, g, seen)| >= topK {
      assert seen == [];
      assert delta == 0;
      NothingToExamine(t, g, own, maxPeriod, window, topK);
    }
  }

  /** Examining one more period of the date being searched appends that slot. */
  lemma SeenStep(vb: seq<Slot>, own: Slot, d: int, p: int)
    requires 1 <= p && Slot(d, p) != own
    ensures vb + DateSlots(d, own, p - 1) + [Slot(d, p)] == vb + DateSlots(d, own, p)
  {
    ConcatAssoc(vb, DateSlots(d, own, p - 1), [Slot(d, p)]);
  }

  /** Examining one more period of the date being searched adds its suggestion, if any, at the end. */
  lemma ExamineSlot(t: Tables, g: string, vb: seq<Slot>, own: Slot, d: int, p: int)
    requires 1 <= p && Slot(d, p) != own
    ensures FreeLabs(t, g, Slot(d, p)) == [] ==>
              SuggestionsOf(t, g, vb + DateSlots(d, own, p)) == SuggestionsOf(t, g, vb + DateSlots(d, own, p - 1))
    ensures FreeLabs(t, g, Slot(d, p)) != [] ==>
              SuggestionsOf(t, g, vb + DateSlots(d, own, p)) ==
              SuggestionsOf(t, g, vb + DateSlots(d, own, p - 1))
              + [Suggestion(d, p, Take(LabNames(FreeLabs(t, g, Slot(d, p))), MaxNamesPerSuggestion))]
  {
    SeenStep(vb, own, d, p);
    SuggestionsOfStep(t, g, vb + DateSlots(d, own, p - 1), Slot(d, p));
  }

  /**
   * Where the search stops: the limit was not reached before examining
   * period `p` of date `d` and is reached after it.  The suggestions found
   * are then the advisor's answer.
   */
  lemma StopAtLimit(t: Tables, g: string, own: Slot, maxPeriod: int, window: int, topK: int,
                    delta: nat, si: nat, d: int, p: int)
    requires Reaches(own, delta, si, d) && delta <= window && 1 <= p <= maxPeriod && Slot(d, p) != own
    requires delta > 0 ==> topK >= 1
    requires var before := VisitedBefore(own, maxPeriod, delta, si) + DateSlots(d, own, p - 1);
             before == [] || |SuggestionsOf(t, g, before)| < topK
    requires |SuggestionsOf(t, g, VisitedBefore(own, maxPeriod, delta, si) + DateSlots(d, own, p))| >= topK
    ensures SuggestionsOf(t, g, VisitedBefore(own, maxPeriod, delta, si) + DateSlots(d, own, p))
            == Suggestions(t, g, own, maxPeriod, window, topK)
  {
    var vb := VisitedBefore(own, maxPeriod, delta, si);
    var before := vb + DateSlots(d, own, p - 1);
    var seen := vb + DateSlots(d, own, p);
    SeenStep(vb, own, d, p);
    if topK >= 1 {
      CountAtStop(t, g, before, Slot(d, p), topK);
      var rest := SeenIsPrefix(own, maxPeriod, window, delta, si, d, p);
      StopAtPositiveLimit(t, g, own, maxPeriod, window, topK, seen, rest);
    } else {
      EmptyHasNoSuggestions(t, g, before, topK);
      assert delta == 0 && vb == [];
      StopAtFirstSlot(t, g, own, maxPeriod, p);
    }
  }

  /** One slot adds at most one suggestion, so the limit is met exactly when first reached. */
  lemma CountAtStop(t: Tables, g: string, before: seq<Slot>, s: Slot, topK: int)
    requires topK >= 1
    requires before == [] || |SuggestionsOf(t, g, before)| < topK
    requires |SuggestionsOf(t, g, before + [s])| >= topK
    ensures |SuggestionsOf(t, g, before + [s])| == topK
  {
    SuggestionsOfStep(t, g, before, s);
    if before == [] {
      assert SuggestionsOf(t, g, before) == [];
    }
  }

  /** With a non-positive limit only an empty prefix can be below it. */
  lemma EmptyHasNoSuggestions(t: Tables, g: string, before: seq<Slot>, topK: int)
    requires topK <= 0
    requires before == [] || |SuggestionsOf(t, g, before)| < topK
    ensures before == []
  {
  }

  /** Reaching `topK` suggestions on a prefix of the candidates gives the first `topK` of them all. */
  lemma StopAtPositiveLimit(t: Tables, g: string, own: Slot, maxPeriod: int, window: int, topK: int,
                            seen: seq<Slot>, rest: seq<Slot>)
    requires window >= 0 && topK >= 1
    requires CandidatesWithin(own, maxPeriod, window) == seen + rest
    requires |SuggestionsOf(t, g, seen)| == topK
    ensures SuggestionsOf(t, g, seen) == Suggestions(t, g, own, maxPeriod, window, topK)
  {
    SuggestionsOfPrefix(t, g, seen, rest);
    var found := SuggestionsOf(t, g, seen + rest);
    assert Candidates(own, maxPeriod, window) == seen + rest;
    assert Take(found, topK) == found[..topK];
  }

  /** With a non-positive limit the search stops after the first slot it examines. */
  lemma StopAtFirstSlot(t: Tables, g: string, own: Slot, maxPeriod: int, p: int)
    requires 1 <= p <= maxPeriod && Slot(own.date, p) != own
    requires DateSlots(own.date, own, p - 1) == []
    ensures Take(DateSlots(own.date, own, maxPeriod), 1) == [Slot(own.date, p)]
  {
    var rest := DateSlotsPrefix(own.date, own, p, maxPeriod);
    assert DateSlots(own.date, own, p) == [Slot(own.date, p)];
  }

  /** Every candidate examined below the limit: the suggestions found are the answer. */
  lemma SearchExhausted(t: Tables, g: string, own: Slot, maxPeriod: int, window: int, topK: int)
    requires window >= 0
    requires |SuggestionsOf(t, g, CandidatesWithin(own, maxPeriod, window))| < topK
    ensures SuggestionsOf(t, g, CandidatesWithin(own, maxPeriod, window)) == Suggestions(t, g, own, maxPeriod, window, topK)
  {
    assert Candidates(own, maxPeriod, window) == CandidatesWithin(own, maxPeriod, window);
  }

  /** A non-positive limit with no slot to examine on the requested date gives no suggestion. */
  lemma NothingToExamine(t: Tables, g: string, own: Slot, maxPeriod: int, window: int, topK: int)
    requires window >= 0 && topK <= 0
    requires DateSlots(own.date, own, maxPeriod) == []
    ensures Suggestions(t, g, own, maxPeriod, window, topK) == []
  {
    assert Take(DateSlots(own.date, own, maxPeriod), 1) == [];
  }

}
