/** What several modules share. */
module Prelude {
  datatype Option<+T> = None | Some(value: T)

  // --- sequences without repetition ---------------------------------------------------------

  ghost predicate Distinct<T(!new)>(s: seq<T>)
  {
    forall i, j :: 0 <= i < j < |s| ==> s[i] != s[j]
  }

  ghost function ToSet<T(!new)>(s: seq<T>): set<T>
  {
    set x | x in s
  }

  lemma {:induction false} DistinctSize<T(!new)>(s: seq<T>)
    requires Distinct(s)
    ensures |ToSet(s)| == |s|
    decreases |s|
  {
    if s != [] {
      var rest := s[1..];
      DistinctSize(rest);
      assert ToSet(s) == {s[0]} + ToSet(rest);
      assert s[0] !in rest;
    }
  }

  lemma DistinctBound<T(!new)>(s: seq<T>, u: set<T>)
    requires Distinct(s) && forall x :: x in s ==> x in u
    ensures |s| <= |u|
  {
    DistinctSize(s);
    SubsetSize(ToSet(s), u);
  }

  // --- finite sets --------------------------------------------------------------------------

  lemma SubsetSize<T>(a: set<T>, b: set<T>)
    requires a <= b
    ensures |a| <= |b| && (|a| == |b| ==> a == b)
  {
    assert b == a + (b - a);
  }

  // --- division -----------------------------------------------------------------------------

  /** Quotient and remainder are determined. */
  lemma DivisionUnique(a: int, q: int, r: int, d: int)
    requires 0 <= r < d && a == q * d + r
    ensures a / d == q && a % d == r
  {
    var k := a / d - q;
    assert a == (a / d) * d + a % d;
    assert k * d == r - a % d;
    MultipleAway(k, d);
  }

  lemma MultipleAway(k: int, d: int)
    requires d > 0
    ensures (k >= 1 ==> k * d >= d) && (k <= -1 ==> k * d <= -d)
  {
  }
}
