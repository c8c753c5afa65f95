/**
 * Ascending name order, as the lab queries use it (`ORDER BY name ASC`):
 * strings compared code point by code point, a proper prefix first.
 */
module Names {
  import opened Model

  /** `a` sorts before or together with `b`. */
  predicate NameLe(a: string, b: string)
  {
    a == [] || (b != [] && (a[0] < b[0] || (a[0] == b[0] && NameLe(a[1..], b[1..]))))
  }

  lemma {:induction false} NameLeReflexive(a: string)
    ensures NameLe(a, a)
  {
    if a != [] { NameLeReflexive(a[1..]); }
  }

  lemma {:induction false} NameLeTotal(a: string, b: string)
    ensures NameLe(a, b) || NameLe(b, a)
  {
    if a != [] && b != [] && a[0] == b[0] { NameLeTotal(a[1..], b[1..]); }
  }

  lemma {:induction false} NameLeTransitive(a: string, b: string, c: string)
    requires NameLe(a, b) && NameLe(b, c)
    ensures NameLe(a, c)
  {
    if a != [] && b != [] && c != [] && a[0] == b[0] && b[0] == c[0] {
      NameLeTransitive(a[1..], b[1..], c[1..]);
    }
  }

  lemma {:induction false} NameLeAntisymmetric(a: string, b: string)
    requires NameLe(a, b) && NameLe(b, a)
    ensures a == b
  {
    if a != [] && b != [] {
      NameLeAntisymmetric(a[1..], b[1..]);
      assert a == [a[0]] + a[1..] && b == [b[0]] + b[1..];
    }
  }

  predicate SortedByName(s: seq<Lab>)
  {
    forall i, j :: 0 <= i < j < |s| ==> NameLe(s[i].name, s[j].name)
  }

  /** Puts `l` before the first lab whose name does not sort below it. */
  function InsertByName(l: Lab, s: seq<Lab>): (r: seq<Lab>)
    requires SortedByName(s)
    ensures multiset(r) == multiset(s) + multiset{l}
    ensures SortedByName(r)
  {
    if s == [] then [l]
    else if NameLe(l.name, s[0].name) then
      PrependSmallest(l, s);
      [l] + s
    else
      var tail := InsertByName(l, s[1..]);
      KeepHeadFirst(l, s, tail);
      [s[0]] + tail
  }

  /** A lab sorting before the first of a sorted list sorts before all of it. */
  lemma PrependSmallest(l: Lab, s: seq<Lab>)
    requires SortedByName(s) && s != [] && NameLe(l.name, s[0].name)
    ensures SortedByName([l] + s)
  {
    forall j | 0 <= j < |s| ensures NameLe(l.name, s[j].name) {
      if j > 0 { NameLeTransitive(l.name, s[0].name, s[j].name); }
    }
    ConsSorted(l, s);
  }

  /** A lab sorting before every lab of a sorted list can head it. */
  lemma ConsSorted(h: Lab, s: seq<Lab>)
    requires SortedByName(s)
    requires forall j :: 0 <= j < |s| ==> NameLe(h.name, s[j].name)
    ensures SortedByName([h] + s)
  {
    var r := [h] + s;
    forall i, j | 0 <= i < j < |r| ensures NameLe(r[i].name, r[j].name) {
      assert r[j] == s[j - 1];
      if i > 0 { assert r[i] == s[i - 1]; }
    }
  }

  /**
   * When `l` sorts after the head of a sorted list, the head followed by the
   * sorted insertion into the rest is sorted and holds the same labs.
   */
  lemma KeepHeadFirst(l: Lab, s: seq<Lab>, tail: seq<Lab>)
    requires SortedByName(s) && s != [] && !NameLe(l.name, s[0].name)
    requires SortedByName(tail) && multiset(tail) == multiset(s[1..]) + multiset{l}
    ensures SortedByName([s[0]] + tail)
    ensures multiset([s[0]] + tail) == multiset(s) + multiset{l}
  {
    assert s == [s[0]] + s[1..];
    HeadBelowInsertion(l, s, tail);
    ConsSorted(s[0], tail);
  }

  lemma HeadBelowInsertion(l: Lab, s: seq<Lab>, tail: seq<Lab>)
    requires SortedByName(s) && s != [] && !NameLe(l.name, s[0].name)
    requires multiset(tail) == multiset(s[1..]) + multiset{l}
    ensures forall j :: 0 <= j < |tail| ==> NameLe(s[0].name, tail[j].name)
  {
    NameLeTotal(l.name, s[0].name);
    forall j | 0 <= j < |tail| ensures NameLe(s[0].name, tail[j].name) {
      var x := tail[j];
      assert x in multiset(tail);
      if x != l {
        assert x in multiset(s[1..]);
        var k :| 0 <= k < |s[1..]| && s[1..][k] == x;
        assert s[k + 1] == x;
      }
    }
  }

  /** The labs in ascending name order (a permutation of `s`). */
  function SortByName(s: seq<Lab>): (r: seq<Lab>)
    ensures multiset(r) == multiset(s)
    ensures SortedByName(r)
  {
    if s == [] then []
    else
      assert s == [s[0]] + s[1..];
      InsertByName(s[0], SortByName(s[1..]))
  }
}
