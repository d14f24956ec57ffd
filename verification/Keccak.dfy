/** The Keccak-f[1600] permutation: rounds in place with moving lane positions, against
    section 3 of FIPS 202 on lanes. */
module Keccak {
  import opened Lanes
  import opened RoundConstants
  import opened Words

  function Blank(n: nat): (s: seq<Word>)
    ensures |s| == n && forall i :: 0 <= i < n ==> s[i] == ZERO
  {
    seq<Word>(n, _ => ZERO)
  }

  const ZEROS: seq<Word> := Blank(25)

  // --- section 3.2 of FIPS 202, on lanes: lane (x, y) is word x + 5y ----------------------------

  type State = s: seq<Word> | |s| == 25 witness ZEROS

  function Lane(s: State, x: nat, y: nat): Word
    requires In(x, y)
  {
    s[x + 5 * y]
  }

  /** The state whose lane (x, y) is `f(x, y)`. */
  function Build(f: (int, int) -> Word): State
  {
    seq(25, i => f(i % 5, i / 5))
  }

  function Column(s: State, x: nat): Word
    requires x < 5
  {
    Xor(Xor(Xor(Xor(Lane(s, x, 0), Lane(s, x, 1)), Lane(s, x, 2)), Lane(s, x, 3)), Lane(s, x, 4))
  }

  function Effect(s: State, x: nat): Word
    requires x < 5
  {
    Xor(Column(s, (x + 4) % 5), Rotl(Column(s, (x + 1) % 5), 1))
  }

  function ThetaLane(s: State, x: nat, y: nat): Word
    requires In(x, y)
  {
    Xor(Lane(s, x, y), Effect(s, x))
  }

  function Theta(s: State): State
  {
    Build((x, y) => if In(x, y) then ThetaLane(s, x, y) else ZERO)
  }

  function RhoLane(s: State, x: nat, y: nat): Word
    requires In(x, y)
  {
    Rotl(Lane(s, x, y), Offset(x, y))
  }

  function Rho(s: State): State
  {
    Build((x, y) => if In(x, y) then RhoLane(s, x, y) else ZERO)
  }

  function PiLane(s: State, x: nat, y: nat): Word
    requires In(x, y)
  {
    Lane(s, (x + 3 * y) % 5, x)
  }

  function Pi(s: State): State
  {
    Build((x, y) => if In(x, y) then PiLane(s, x, y) else ZERO)
  }

  function ChiLane(s: State, x: nat, y: nat): Word
    requires In(x, y)
  {
    Xor(Lane(s, x, y), AndNot(Lane(s, (x + 2) % 5, y), Lane(s, (x + 1) % 5, y)))
  }

  function Chi(s: State): State
  {
    Build((x, y) => if In(x, y) then ChiLane(s, x, y) else ZERO)
  }

  function Iota(s: State, rc: Word): State
  {
    s[0 := Xor(s[0], rc)]
  }

  function Round(s: State, rc: Word): State
  {
    Iota(Chi(Pi(Rho(Theta(s)))), rc)
  }

  /** The first `n` rounds. */
  function Rounds(s: State, n: nat): State
    requires n <= 24
  {
    if n == 0 then s else Round(Rounds(s, n - 1), RoundConstant(n - 1))
  }

  function Permutation(s: State): State
  {
    Rounds(s, 24)
  }

  // --- one round, lane by lane -------------------------------------------------------------------

  /** Lane (x, y) of the state between pi and chi. */
  function Moved(s: State, x: nat, y: nat): Word
    requires x < 5 && y < 5
  {
    Rotl(Xor(Lane(s, (x + 3 * y) % 5, x), Effect(s, (x + 3 * y) % 5)), Offset((x + 3 * y) % 5, x))
  }

  function RoundLane(s: State, rc: Word, x: nat, y: nat): Word
    requires x < 5 && y < 5
  {
    var out := Xor(Moved(s, x, y), AndNot(Moved(s, (x + 2) % 5, y), Moved(s, (x + 1) % 5, y)));
    if x == 0 && y == 0 then Xor(out, rc) else out
  }

  lemma BuildAt(f: (int, int) -> Word, x: nat, y: nat)
    requires In(x, y)
    ensures Lane(Build(f), x, y) == f(x, y)
  {
  }

  lemma ThetaAt(s: State, x: nat, y: nat)
    requires In(x, y)
    ensures Lane(Theta(s), x, y) == ThetaLane(s, x, y)
  {
    hide Build, Lane, ThetaLane;
    BuildAt((x, y) => if In(x, y) then ThetaLane(s, x, y) else ZERO, x, y);
  }

  lemma RhoAt(s: State, x: nat, y: nat)
    requires In(x, y)
    ensures Lane(Rho(s), x, y) == RhoLane(s, x, y)
  {
    hide Build, Lane, RhoLane;
    BuildAt((x, y) => if In(x, y) then RhoLane(s, x, y) else ZERO, x, y);
  }

  lemma PiAt(s: State, x: nat, y: nat)
    requires In(x, y)
    ensures Lane(Pi(s), x, y) == PiLane(s, x, y)
  {
    hide Build, Lane, PiLane;
    BuildAt((x, y) => if In(x, y) then PiLane(s, x, y) else ZERO, x, y);
  }

  lemma ChiAt(s: State, x: nat, y: nat)
    requires In(x, y)
    ensures Lane(Chi(s), x, y) == ChiLane(s, x, y)
  {
  }

  lemma MovedAt(s: State, x: nat, y: nat)
    requires x < 5 && y < 5
    ensures Lane(Pi(Rho(Theta(s))), x, y) == Moved(s, x, y)
  {
    hide Xor, Rotl, Effect, Offset, Pi, Rho, Theta, Lane;
    PiAt(Rho(Theta(s)), x, y);
    RhoAt(Theta(s), (x + 3 * y) % 5, x);
    ThetaAt(s, (x + 3 * y) % 5, x);
  }

  lemma RoundAt(s: State, rc: Word, x: nat, y: nat)
    requires x < 5 && y < 5
    ensures Lane(Round(s, rc), x, y) == RoundLane(s, rc, x, y)
  {
    hide Xor, Rotl, AndNot, Effect, Moved, Pi, Rho, Theta, Chi;
    MovedAt(s, x, y);
    MovedAt(s, (x + 1) % 5, y);
    MovedAt(s, (x + 2) % 5, y);
    ChiAt(Pi(Rho(Theta(s))), x, y);
  }

  // --- the rounds in place -------------------------------------------------------------------------

  function PlacedLane(s: State, r: nat, x: nat, y: nat): Word
    requires r <= 4 && In(x, y)
  {
    s[Place(r, x, y)]
  }

  /** The state a word array stands for before round `r` of four. */
  function Placed(s: State, r: nat): State
    requires r <= 4
  {
    Build((x, y) => if In(x, y) then PlacedLane(s, r, x, y) else ZERO)
  }

  lemma PlacedAt(s: State, r: nat, x: nat, y: nat)
    requires r <= 4 && In(x, y)
    ensures Lane(Placed(s, r), x, y) == s[Place(r, x, y)]
  {
    hide Build, Lane, Place;
    BuildAt((x, y) => if In(x, y) then PlacedLane(s, r, x, y) else ZERO, x, y);
  }

  lemma SameLanes(s: State, t: State)
    requires forall x: nat, y: nat :: In(x, y) ==> Lane(s, x, y) == Lane(t, x, y)
    ensures s == t
  {
    forall i: nat | i < 25 ensures s[i] == t[i] {
      assert In(i % 5, i / 5) && i % 5 + 5 * (i / 5) == i;
      assert Lane(s, i % 5, i / 5) == Lane(t, i % 5, i / 5);
    }
  }

  /** At both ends of four rounds every lane is at home. */
  lemma PlacedHome(s: State)
    ensures Placed(s, 0) == s && Placed(s, 4) == s
  {
    hide Placed;
    forall x: nat, y: nat | In(x, y) ensures Lane(Placed(s, 0), x, y) == Lane(s, x, y) && Lane(Placed(s, 4), x, y) == Lane(s, x, y) {
      PlacedAt(s, 0, x, y);
      PlacedAt(s, 4, x, y);
    }
    SameLanes(Placed(s, 0), s);
    SameLanes(Placed(s, 4), s);
  }

  function Xor5(a: Word, b: Word, c: Word, d: Word, e: Word): Word
  {
    Xor(Xor(Xor(Xor(a, b), c), d), e)
  }

  lemma XorCycle(a: Word, b: Word, c: Word, d: Word, e: Word)
    ensures Xor5(b, c, d, e, a) == Xor5(a, b, c, d, e)
  {
  }

  lemma XorDouble(a: Word, b: Word, c: Word, d: Word, e: Word)
    ensures Xor5(a, c, e, b, d) == Xor5(a, b, c, d, e)
  {
  }

  /** Words in arithmetic progression around a column have the column's sum. */
  lemma Progressions(a: Word, b: Word, c: Word, d: Word, e: Word)
    ensures Xor5(a, c, e, b, d) == Xor5(a, b, c, d, e)
    ensures Xor5(b, d, a, c, e) == Xor5(a, b, c, d, e)
    ensures Xor5(c, e, b, d, a) == Xor5(a, b, c, d, e)
    ensures Xor5(d, a, c, e, b) == Xor5(a, b, c, d, e)
    ensures Xor5(e, b, d, a, c) == Xor5(a, b, c, d, e)
    ensures Xor5(a, e, d, c, b) == Xor5(a, b, c, d, e)
    ensures Xor5(d, c, b, a, e) == Xor5(a, b, c, d, e)
    ensures Xor5(b, a, e, d, c) == Xor5(a, b, c, d, e)
    ensures Xor5(e, d, c, b, a) == Xor5(a, b, c, d, e)
    ensures Xor5(c, b, a, e, d) == Xor5(a, b, c, d, e)
    ensures Xor5(a, d, b, e, c) == Xor5(a, b, c, d, e)
    ensures Xor5(c, a, d, b, e) == Xor5(a, b, c, d, e)
    ensures Xor5(e, c, a, d, b) == Xor5(a, b, c, d, e)
    ensures Xor5(b, e, c, a, d) == Xor5(a, b, c, d, e)
    ensures Xor5(d, b, e, c, a) == Xor5(a, b, c, d, e)
  {
    hide Xor5;
    XorCycle(a, b, c, d, e);
    XorDouble(a, b, c, d, e);
    XorDouble(a, c, e, b, d);
    XorDouble(a, e, d, c, b);
    XorCycle(b, c, d, e, a);
    XorDouble(b, c, d, e, a);
    XorDouble(b, d, a, c, e);
    XorDouble(b, a, e, d, c);
    XorCycle(c, d, e, a, b);
    XorDouble(c, d, e, a, b);
    XorDouble(c, e, b, d, a);
    XorDouble(c, b, a, e, d);
    XorCycle(d, e, a, b, c);
    XorDouble(d, e, a, b, c);
    XorDouble(d, a, c, e, b);
    XorDouble(d, c, b, a, e);
    XorDouble(e, a, b, c, d);
    XorDouble(e, b, d, a, c);
    XorDouble(e, d, c, b, a);
  }

  /** Moving lanes within their columns leaves the columns' sums. */
  lemma ColumnPlaced(s: State, r: nat, x: nat)
    requires r < 4 && x < 5
    ensures Column(Placed(s, r), x) == Column(s, x)
  {
    hide Xor, Placed, Xor5, Row, Column;
    ColumnIs(s, x);
    PlacedColumn(s, r, x);
    Progressions(Lane(s, x, 0), Lane(s, x, 1), Lane(s, x, 2), Lane(s, x, 3), Lane(s, x, 4));
    if r == 0 { PlacedHome(s); }
    if r == 1 { Rows1(r, x); }
    if r == 2 { Rows2(r, x); }
    if r == 3 { Rows3(r, x); }
  }

  lemma PlacedColumn(s: State, r: nat, x: nat)
    requires r < 4 && x < 5
    ensures Column(Placed(s, r), x) ==
            Xor5(Lane(s, x, Row(r, x, 0)), Lane(s, x, Row(r, x, 1)), Lane(s, x, Row(r, x, 2)), Lane(s, x, Row(r, x, 3)), Lane(s, x, Row(r, x, 4)))
  {
    hide Xor, Placed, Xor5, Row, Column;
    ColumnIs(Placed(s, r), x);
    PlacedAt(s, r, x, 0);
    PlacedAt(s, r, x, 1);
    PlacedAt(s, r, x, 2);
    PlacedAt(s, r, x, 3);
    PlacedAt(s, r, x, 4);
  }

  lemma ColumnIs(s: State, x: nat)
    requires x < 5
    ensures Column(s, x) == Xor5(Lane(s, x, 0), Lane(s, x, 1), Lane(s, x, 2), Lane(s, x, 3), Lane(s, x, 4))
  {
  }

  /** In a state kept for the next round, rows below `k` hold the next round's lanes and the others
      still hold this round's inputs. */
  ghost predicate Half(v: State, s: State, rc: Word, k: nat)
  {
    forall x: nat, y: nat :: In(x, y) ==>
      Lane(v, x, y) == if y < k then RoundLane(s, rc, x, y) else Lane(s, x, (x + 2 * y) % 5)
  }

  lemma HalfAt(v: State, s: State, rc: Word, k: nat, x: nat, y: nat)
    requires Half(v, s, rc, k) && In(x, y)
    ensures Lane(v, x, y) == if y < k then RoundLane(s, rc, x, y) else Lane(s, x, (x + 2 * y) % 5)
  {
  }

  lemma HalfStart(a: State, r: nat, rc: Word)
    requires r < 4
    ensures Half(Placed(a, r + 1), Placed(a, r), rc, 0)
  {
    hide Placed, RoundLane, Lane, Place;
    forall x: nat, y: nat | In(x, y) ensures Lane(Placed(a, r + 1), x, y) == Lane(Placed(a, r), x, (x + 2 * y) % 5) {
      PlacedAt(a, r + 1, x, y);
      PlacedAt(a, r, x, (x + 2 * y) % 5);
      PlaceStep(r, x, y);
    }
  }

  lemma HalfEnd(v: State, s: State, rc: Word)
    requires Half(v, s, rc, 5)
    ensures v == Round(s, rc)
  {
    hide RoundLane, Lane, Round;
    forall x: nat, y: nat | In(x, y) ensures Lane(v, x, y) == Lane(Round(s, rc), x, y) {
      HalfAt(v, s, rc, 5, x, y);
      RoundAt(s, rc, x, y);
    }
    SameLanes(v, Round(s, rc));
  }

  /** The input of row `y` at column `c`, with theta's effect, rotated: lane (c + 2y, y) before chi. */
  lemma MovedFrom(s: State, c: nat, y: nat)
    requires In(c, y)
    ensures Moved(s, (c + 2 * y) % 5, y) == Rotl(Xor(Lane(s, c, (c + 2 * y) % 5), Effect(s, c)), Offset(c, (c + 2 * y) % 5))
  {
    hide Rotl, Xor, Lane, Effect, Offset;
    Back(c, y);
  }

  /** These are theta's effects by column. */
  ghost predicate EffectsOf(s: State, d0: Word, d1: Word, d2: Word, d3: Word, d4: Word)
  {
    d0 == Effect(s, 0) && d1 == Effect(s, 1) && d2 == Effect(s, 2) && d3 == Effect(s, 3) && d4 == Effect(s, 4)
  }

  lemma PlacesApart(r: nat, u: nat, y: nat, x: nat, z: nat)
    requires r <= 4 && In(u, y) && In(x, z)
    ensures Place(r, u, y) == Place(r, x, z) <==> u == x && y == z
  {
    hide Place;
    if Place(r, u, y) == Place(r, x, z) { PlaceApart(r, u, y, x, z); }
  }

  function Splice(v: State, p0: nat, p1: nat, p2: nat, p3: nat, p4: nat, w0: Word, w1: Word, w2: Word, w3: Word, w4: Word): State
    requires p0 < 25 && p1 < 25 && p2 < 25 && p3 < 25 && p4 < 25
  {
    v[p0 := w0][p1 := w1][p2 := w2][p3 := w3][p4 := w4]
  }

  lemma RowPlaced(v: State, r: nat, y: nat, p0: nat, p1: nat, p2: nat, p3: nat, p4: nat,
                  w0: Word, w1: Word, w2: Word, w3: Word, w4: Word, x: nat, z: nat)
    requires r <= 4 && y < 5 && RowAt(r, y, p0, p1, p2, p3, p4) && In(x, z)
    ensures Lane(Placed(Splice(v, p0, p1, p2, p3, p4, w0, w1, w2, w3, w4), r), x, z) ==
            if z == y then [w0, w1, w2, w3, w4][x] else Lane(Placed(v, r), x, z)
  {
    hide Place, Placed, Lane;
    PlacedAt(Splice(v, p0, p1, p2, p3, p4, w0, w1, w2, w3, w4), r, x, z);
    PlacedAt(v, r, x, z);
    PlacesApart(r, 0, y, x, z);
    PlacesApart(r, 1, y, x, z);
    PlacesApart(r, 2, y, x, z);
    PlacesApart(r, 3, y, x, z);
    PlacesApart(r, 4, y, x, z);
  }

  lemma RowStored(v: State, r: nat, y: nat, p0: nat, p1: nat, p2: nat, p3: nat, p4: nat,
                  w0: Word, w1: Word, w2: Word, w3: Word, w4: Word, s: State, rc: Word)
    requires r <= 4 && y < 5 && RowAt(r, y, p0, p1, p2, p3, p4) && Half(Placed(v, r), s, rc, y)
    requires w0 == RoundLane(s, rc, 0, y) && w1 == RoundLane(s, rc, 1, y) && w2 == RoundLane(s, rc, 2, y)
    requires w3 == RoundLane(s, rc, 3, y) && w4 == RoundLane(s, rc, 4, y)
    ensures Half(Placed(Splice(v, p0, p1, p2, p3, p4, w0, w1, w2, w3, w4), r), s, rc, y + 1)
  {
    hide RoundLane, Place, Placed, Lane, Splice;
    var n := Splice(v, p0, p1, p2, p3, p4, w0, w1, w2, w3, w4);
    forall x: nat, z: nat | In(x, z)
      ensures Lane(Placed(n, r), x, z) == if z < y + 1 then RoundLane(s, rc, x, z) else Lane(s, x, (x + 2 * z) % 5)
    {
      RowPlaced(v, r, y, p0, p1, p2, p3, p4, w0, w1, w2, w3, w4, x, z);
      HalfAt(Placed(v, r), s, rc, y, x, z);
    }
  }

  lemma ReadLane(v: State, r: nat, y: nat, c: nat, p: nat, d: Word, k: nat, s: State, rc: Word)
    requires r <= 4 && In(c, y) && Half(Placed(v, r), s, rc, y) && p == Place(r, c, y) && d == Effect(s, c) && k == Offset(c, (c + 2 * y) % 5)
    ensures Rotl(Xor(v[p], d), k) == Moved(s, (c + 2 * y) % 5, y)
  {
    hide Rotl, Xor, Moved, Placed, Lane, Place, Offset, Effect, Half;
    PlacedAt(v, r, c, y);
    HalfAt(Placed(v, r), s, rc, y, c, y);
    MovedFrom(s, c, y);
  }

  lemma RotlZero(a: Word)
    ensures Rotl(a, 0) == a
  {
  }

  method Plane0(a: array<Word>, p0: nat, p1: nat, p2: nat, p3: nat, p4: nat, d0: Word, d1: Word, d2: Word, d3: Word, d4: Word, rc: Word, ghost r: nat, ghost s: State)
    requires a.Length == 25 && r <= 4 && RowAt(r, 0, p0, p1, p2, p3, p4) && EffectsOf(s, d0, d1, d2, d3, d4)
    requires Half(Placed(a[..], r), s, rc, 0)
    modifies a
    ensures Half(Placed(a[..], r), s, rc, 1)
  {
    hide Rotl, Xor, AndNot, Moved, Placed, Lane, Half, Effect, Place, RoundLane, Offset;
    ghost var v := a[..];
    Reads0(v, r, p0, p1, p2, p3, p4, d0, d1, d2, d3, d4, s, rc);
    var bc0 := Xor(a[p0], d0);
    var bc1 := Rotl(Xor(a[p1], d1), 44);
    var bc2 := Rotl(Xor(a[p2], d2), 43);
    var bc3 := Rotl(Xor(a[p3], d3), 21);
    var bc4 := Rotl(Xor(a[p4], d4), 14);
    var w0 := Xor(Xor(bc0, AndNot(bc2, bc1)), rc);
    var w1 := Xor(bc1, AndNot(bc3, bc2));
    var w2 := Xor(bc2, AndNot(bc4, bc3));
    var w3 := Xor(bc3, AndNot(bc0, bc4));
    var w4 := Xor(bc4, AndNot(bc1, bc0));
    a[p0] := w0;
    a[p1] := w1;
    a[p2] := w2;
    a[p3] := w3;
    a[p4] := w4;
    Chi0(s, rc);
    RowStored(v, r, 0, p0, p1, p2, p3, p4, w0, w1, w2, w3, w4, s, rc);
    assert a[..] == Splice(v, p0, p1, p2, p3, p4, w0, w1, w2, w3, w4);
  }

  lemma Chi0(s: State, rc: Word)
    ensures RoundLane(s, rc, 0, 0) == Xor(Xor(Moved(s, 0, 0), AndNot(Moved(s, 2, 0), Moved(s, 1, 0))), rc)
    ensures RoundLane(s, rc, 1, 0) == Xor(Moved(s, 1, 0), AndNot(Moved(s, 3, 0), Moved(s, 2, 0)))
    ensures RoundLane(s, rc, 2, 0) == Xor(Moved(s, 2, 0), AndNot(Moved(s, 4, 0), Moved(s, 3, 0)))
    ensures RoundLane(s, rc, 3, 0) == Xor(Moved(s, 3, 0), AndNot(Moved(s, 0, 0), Moved(s, 4, 0)))
    ensures RoundLane(s, rc, 4, 0) == Xor(Moved(s, 4, 0), AndNot(Moved(s, 1, 0), Moved(s, 0, 0)))
  {
    hide Xor, AndNot, Moved;
  }

  lemma Reads0(v: State, r: nat, p0: nat, p1: nat, p2: nat, p3: nat, p4: nat, d0: Word, d1: Word, d2: Word, d3: Word, d4: Word, s: State, rc: Word)
    requires r <= 4 && RowAt(r, 0, p0, p1, p2, p3, p4) && EffectsOf(s, d0, d1, d2, d3, d4) && Half(Placed(v, r), s, rc, 0)
    ensures Xor(v[p0], d0) == Moved(s, 0, 0)
    ensures Rotl(Xor(v[p1], d1), 44) == Moved(s, 1, 0)
    ensures Rotl(Xor(v[p2], d2), 43) == Moved(s, 2, 0)
    ensures Rotl(Xor(v[p3], d3), 21) == Moved(s, 3, 0)
    ensures Rotl(Xor(v[p4], d4), 14) == Moved(s, 4, 0)
  {
    hide Rotl, Xor, Moved, Placed, Half, Effect, Place, Offset;
    OffsetValues();
    RotlZero(Xor(v[p0], d0));
    ReadLane(v, r, 0, 0, p0, d0, 0, s, rc);
    ReadLane(v, r, 0, 1, p1, d1, 44, s, rc);
    ReadLane(v, r, 0, 2, p2, d2, 43, s, rc);
    ReadLane(v, r, 0, 3, p3, d3, 21, s, rc);
    ReadLane(v, r, 0, 4, p4, d4, 14, s, rc);
  }

  method Plane1(a: array<Word>, p0: nat, p1: nat, p2: nat, p3: nat, p4: nat, d0: Word, d1: Word, d2: Word, d3: Word, d4: Word, ghost r: nat, ghost s: State, ghost rc: Word)
    requires a.Length == 25 && r <= 4 && RowAt(r, 1, p0, p1, p2, p3, p4) && EffectsOf(s, d0, d1, d2, d3, d4)
    requires Half(Placed(a[..], r), s, rc, 1)
    modifies a
    ensures Half(Placed(a[..], r), s, rc, 2)
  {
    hide Rotl, Xor, AndNot, Moved, Placed, Lane, Half, Effect, Place, RoundLane, Offset;
    ghost var v := a[..];
    Reads1(v, r, p0, p1, p2, p3, p4, d0, d1, d2, d3, d4, s, rc);
    var bc2 := Rotl(Xor(a[p0], d0), 3);
    var bc3 := Rotl(Xor(a[p1], d1), 45);
    var bc4 := Rotl(Xor(a[p2], d2), 61);
    var bc0 := Rotl(Xor(a[p3], d3), 28);
    var bc1 := Rotl(Xor(a[p4], d4), 20);
    var w0 := Xor(bc0, AndNot(bc2, bc1));
    var w1 := Xor(bc1, AndNot(bc3, bc2));
    var w2 := Xor(bc2, AndNot(bc4, bc3));
    var w3 := Xor(bc3, AndNot(bc0, bc4));
    var w4 := Xor(bc4, AndNot(bc1, bc0));
    a[p0] := w0;
    a[p1] := w1;
    a[p2] := w2;
    a[p3] := w3;
    a[p4] := w4;
    Chi1(s, rc);
    RowStored(v, r, 1, p0, p1, p2, p3, p4, w0, w1, w2, w3, w4, s, rc);
    assert a[..] == Splice(v, p0, p1, p2, p3, p4, w0, w1, w2, w3, w4);
  }

  lemma Chi1(s: State, rc: Word)
    ensures RoundLane(s, rc, 0, 1) == Xor(Moved(s, 0, 1), AndNot(Moved(s, 2, 1), Moved(s, 1, 1)))
    ensures RoundLane(s, rc, 1, 1) == Xor(Moved(s, 1, 1), AndNot(Moved(s, 3, 1), Moved(s, 2, 1)))
    ensures RoundLane(s, rc, 2, 1) == Xor(Moved(s, 2, 1), AndNot(Moved(s, 4, 1), Moved(s, 3, 1)))
    ensures RoundLane(s, rc, 3, 1) == Xor(Moved(s, 3, 1), AndNot(Moved(s, 0, 1), Moved(s, 4, 1)))
    ensures RoundLane(s, rc, 4, 1) == Xor(Moved(s, 4, 1), AndNot(Moved(s, 1, 1), Moved(s, 0, 1)))
  {
    hide Xor, AndNot, Moved;
  }

  lemma Reads1(v: State, r: nat, p0: nat, p1: nat, p2: nat, p3: nat, p4: nat, d0: Word, d1: Word, d2: Word, d3: Word, d4: Word, s: State, rc: Word)
    requires r <= 4 && RowAt(r, 1, p0, p1, p2, p3, p4) && EffectsOf(s, d0, d1, d2, d3, d4) && Half(Placed(v, r), s, rc, 1)
    ensures Rotl(Xor(v[p0], d0), 3) == Moved(s, 2, 1)
    ensures Rotl(Xor(v[p1], d1), 45) == Moved(s, 3, 1)
    ensures Rotl(Xor(v[p2], d2), 61) == Moved(s, 4, 1)
    ensures Rotl(Xor(v[p3], d3), 28) == Moved(s, 0, 1)
    ensures Rotl(Xor(v[p4], d4), 20) == Moved(s, 1, 1)
  {
    hide Rotl, Xor, Moved, Placed, Half, Effect, Place, Offset;
    OffsetValues();
    ReadLane(v, r, 1, 0, p0, d0, 3, s, rc);
    ReadLane(v, r, 1, 1, p1, d1, 45, s, rc);
    ReadLane(v, r, 1, 2, p2, d2, 61, s, rc);
    ReadLane(v, r, 1, 3, p3, d3, 28, s, rc);
    ReadLane(v, r, 1, 4, p4, d4, 20, s, rc);
  }

  method Plane2(a: array<Word>, p0: nat, p1: nat, p2: nat, p3: nat, p4: nat, d0: Word, d1: Word, d2: Word, d3: Word, d4: Word, ghost r: nat, ghost s: State, ghost rc: Word)
    requires a.Length == 25 && r <= 4 && RowAt(r, 2, p0, p1, p2, p3, p4) && EffectsOf(s, d0, d1, d2, d3, d4)
    requires Half(Placed(a[..], r), s, rc, 2)
    modifies a
    ensures Half(Placed(a[..], r), s, rc, 3)
  {
    hide Rotl, Xor, AndNot, Moved, Placed, Lane, Half, Effect, Place, RoundLane, Offset;
    ghost var v := a[..];
    Reads2(v, r, p0, p1, p2, p3, p4, d0, d1, d2, d3, d4, s, rc);
    var bc4 := Rotl(Xor(a[p0], d0), 18);
    var bc0 := Rotl(Xor(a[p1], d1), 1);
    var bc1 := Rotl(Xor(a[p2], d2), 6);
    var bc2 := Rotl(Xor(a[p3], d3), 25);
    var bc3 := Rotl(Xor(a[p4], d4), 8);
    var w0 := Xor(bc0, AndNot(bc2, bc1));
    var w1 := Xor(bc1, AndNot(bc3, bc2));
    var w2 := Xor(bc2, AndNot(bc4, bc3));
    var w3 := Xor(bc3, AndNot(bc0, bc4));
    var w4 := Xor(bc4, AndNot(bc1, bc0));
    a[p0] := w0;
    a[p1] := w1;
    a[p2] := w2;
    a[p3] := w3;
    a[p4] := w4;
    Chi2(s, rc);
    RowStored(v, r, 2, p0, p1, p2, p3, p4, w0, w1, w2, w3, w4, s, rc);
    assert a[..] == Splice(v, p0, p1, p2, p3, p4, w0, w1, w2, w3, w4);
  }

  lemma Chi2(s: State, rc: Word)
    ensures RoundLane(s, rc, 0, 2) == Xor(Moved(s, 0, 2), AndNot(Moved(s, 2, 2), Moved(s, 1, 2)))
    ensures RoundLane(s, rc, 1, 2) == Xor(Moved(s, 1, 2), AndNot(Moved(s, 3, 2), Moved(s, 2, 2)))
    ensures RoundLane(s, rc, 2, 2) == Xor(Moved(s, 2, 2), AndNot(Moved(s, 4, 2), Moved(s, 3, 2)))
    ensures RoundLane(s, rc, 3, 2) == Xor(Moved(s, 3, 2), AndNot(Moved(s, 0, 2), Moved(s, 4, 2)))
    ensures RoundLane(s, rc, 4, 2) == Xor(Moved(s, 4, 2), AndNot(Moved(s, 1, 2), Moved(s, 0, 2)))
  {
    hide Xor, AndNot, Moved;
  }

  lemma Reads2(v: State, r: nat, p0: nat, p1: nat, p2: nat, p3: nat, p4: nat, d0: Word, d1: Word, d2: Word, d3: Word, d4: Word, s: State, rc: Word)
    requires r <= 4 && RowAt(r, 2, p0, p1, p2, p3, p4) && EffectsOf(s, d0, d1, d2, d3, d4) && Half(Placed(v, r), s, rc, 2)
    ensures Rotl(Xor(v[p0], d0), 18) == Moved(s, 4, 2)
    ensures Rotl(Xor(v[p1], d1), 1) == Moved(s, 0, 2)
    ensures Rotl(Xor(v[p2], d2), 6) == Moved(s, 1, 2)
    ensures Rotl(Xor(v[p3], d3), 25) == Moved(s, 2, 2)
    ensures Rotl(Xor(v[p4], d4), 8) == Moved(s, 3, 2)
  {
    hide Rotl, Xor, Moved, Placed, Half, Effect, Place, Offset;
    OffsetValues();
    ReadLane(v, r, 2, 0, p0, d0, 18, s, rc);
    ReadLane(v, r, 2, 1, p1, d1, 1, s, rc);
    ReadLane(v, r, 2, 2, p2, d2, 6, s, rc);
    ReadLane(v, r, 2, 3, p3, d3, 25, s, rc);
    ReadLane(v, r, 2, 4, p4, d4, 8, s, rc);
  }

  method Plane3(a: array<Word>, p0: nat, p1: nat, p2: nat, p3: nat, p4: nat, d0: Word, d1: Word, d2: Word, d3: Word, d4: Word, ghost r: nat, ghost s: State, ghost rc: Word)
    requires a.Length == 25 && r <= 4 && RowAt(r, 3, p0, p1, p2, p3, p4) && EffectsOf(s, d0, d1, d2, d3, d4)
    requires Half(Placed(a[..], r), s, rc, 3)
    modifies a
    ensures Half(Placed(a[..], r), s, rc, 4)
  {
    hide Rotl, Xor, AndNot, Moved, Placed, Lane, Half, Effect, Place, RoundLane, Offset;
    ghost var v := a[..];
    Reads3(v, r, p0, p1, p2, p3, p4, d0, d1, d2, d3, d4, s, rc);
    var bc1 := Rotl(Xor(a[p0], d0), 36);
    var bc2 := Rotl(Xor(a[p1], d1), 10);
    var bc3 := Rotl(Xor(a[p2], d2), 15);
    var bc4 := Rotl(Xor(a[p3], d3), 56);
    var bc0 := Rotl(Xor(a[p4], d4), 27);
    var w0 := Xor(bc0, AndNot(bc2, bc1));
    var w1 := Xor(bc1, AndNot(bc3, bc2));
    var w2 := Xor(bc2, AndNot(bc4, bc3));
    var w3 := Xor(bc3, AndNot(bc0, bc4));
    var w4 := Xor(bc4, AndNot(bc1, bc0));
    a[p0] := w0;
    a[p1] := w1;
    a[p2] := w2;
    a[p3] := w3;
    a[p4] := w4;
    Chi3(s, rc);
    RowStored(v, r, 3, p0, p1, p2, p3, p4, w0, w1, w2, w3, w4, s, rc);
    assert a[..] == Splice(v, p0, p1, p2, p3, p4, w0, w1, w2, w3, w4);
  }

  lemma Chi3(s: State, rc: Word)
    ensures RoundLane(s, rc, 0, 3) == Xor(Moved(s, 0, 3), AndNot(Moved(s, 2, 3), Moved(s, 1, 3)))
    ensures RoundLane(s, rc, 1, 3) == Xor(Moved(s, 1, 3), AndNot(Moved(s, 3, 3), Moved(s, 2, 3)))
    ensures RoundLane(s, rc, 2, 3) == Xor(Moved(s, 2, 3), AndNot(Moved(s, 4, 3), Moved(s, 3, 3)))
    ensures RoundLane(s, rc, 3, 3) == Xor(Moved(s, 3, 3), AndNot(Moved(s, 0, 3), Moved(s, 4, 3)))
    ensures RoundLane(s, rc, 4, 3) == Xor(Moved(s, 4, 3), AndNot(Moved(s, 1, 3), Moved(s, 0, 3)))
  {
    hide Xor, AndNot, Moved;
  }

  lemma Reads3(v: State, r: nat, p0: nat, p1: nat, p2: nat, p3: nat, p4: nat, d0: Word, d1: Word, d2: Word, d3: Word, d4: Word, s: State, rc: Word)
    requires r <= 4 && RowAt(r, 3, p0, p1, p2, p3, p4) && EffectsOf(s, d0, d1, d2, d3, d4) && Half(Placed(v, r), s, rc, 3)
    ensures Rotl(Xor(v[p0], d0), 36) == Moved(s, 1, 3)
    ensures Rotl(Xor(v[p1], d1), 10) == Moved(s, 2, 3)
    ensures Rotl(Xor(v[p2], d2), 15) == Moved(s, 3, 3)
    ensures Rotl(Xor(v[p3], d3), 56) == Moved(s, 4, 3)
    ensures Rotl(Xor(v[p4], d4), 27) == Moved(s, 0, 3)
  {
    hide Rotl, Xor, Moved, Placed, Half, Effect, Place, Offset;
    OffsetValues();
    ReadLane(v, r, 3, 0, p0, d0, 36, s, rc);
    ReadLane(v, r, 3, 1, p1, d1, 10, s, rc);
    ReadLane(v, r, 3, 2, p2, d2, 15, s, rc);
    ReadLane(v, r, 3, 3, p3, d3, 56, s, rc);
    ReadLane(v, r, 3, 4, p4, d4, 27, s, rc);
  }

  method Plane4(a: array<Word>, p0: nat, p1: nat, p2: nat, p3: nat, p4: nat, d0: Word, d1: Word, d2: Word, d3: Word, d4: Word, ghost r: nat, ghost s: State, ghost rc: Word)
    requires a.Length == 25 && r <= 4 && RowAt(r, 4, p0, p1, p2, p3, p4) && EffectsOf(s, d0, d1, d2, d3, d4)
    requires Half(Placed(a[..], r), s, rc, 4)
    modifies a
    ensures Half(Placed(a[..], r), s, rc, 5)
  {
    hide Rotl, Xor, AndNot, Moved, Placed, Lane, Half, Effect, Place, RoundLane, Offset;
    ghost var v := a[..];
    Reads4(v, r, p0, p1, p2, p3, p4, d0, d1, d2, d3, d4, s, rc);
    var bc3 := Rotl(Xor(a[p0], d0), 41);
    var bc4 := Rotl(Xor(a[p1], d1), 2);
    var bc0 := Rotl(Xor(a[p2], d2), 62);
    var bc1 := Rotl(Xor(a[p3], d3), 55);
    var bc2 := Rotl(Xor(a[p4], d4), 39);
    var w0 := Xor(bc0, AndNot(bc2, bc1));
    var w1 := Xor(bc1, AndNot(bc3, bc2));
    var w2 := Xor(bc2, AndNot(bc4, bc3));
    var w3 := Xor(bc3, AndNot(bc0, bc4));
    var w4 := Xor(bc4, AndNot(bc1, bc0));
    a[p0] := w0;
    a[p1] := w1;
    a[p2] := w2;
    a[p3] := w3;
    a[p4] := w4;
    Chi4(s, rc);
    RowStored(v, r, 4, p0, p1, p2, p3, p4, w0, w1, w2, w3, w4, s, rc);
    assert a[..] == Splice(v, p0, p1, p2, p3, p4, w0, w1, w2, w3, w4);
  }

  lemma Chi4(s: State, rc: Word)
    ensures RoundLane(s, rc, 0, 4) == Xor(Moved(s, 0, 4), AndNot(Moved(s, 2, 4), Moved(s, 1, 4)))
    ensures RoundLane(s, rc, 1, 4) == Xor(Moved(s, 1, 4), AndNot(Moved(s, 3, 4), Moved(s, 2, 4)))
    ensures RoundLane(s, rc, 2, 4) == Xor(Moved(s, 2, 4), AndNot(Moved(s, 4, 4), Moved(s, 3, 4)))
    ensures RoundLane(s, rc, 3, 4) == Xor(Moved(s, 3, 4), AndNot(Moved(s, 0, 4), Moved(s, 4, 4)))
    ensures RoundLane(s, rc, 4, 4) == Xor(Moved(s, 4, 4), AndNot(Moved(s, 1, 4), Moved(s, 0, 4)))
  {
    hide Xor, AndNot, Moved;
  }

  lemma Reads4(v: State, r: nat, p0: nat, p1: nat, p2: nat, p3: nat, p4: nat, d0: Word, d1: Word, d2: Word, d3: Word, d4: Word, s: State, rc: Word)
    requires r <= 4 && RowAt(r, 4, p0, p1, p2, p3, p4) && EffectsOf(s, d0, d1, d2, d3, d4) && Half(Placed(v, r), s, rc, 4)
    ensures Rotl(Xor(v[p0], d0), 41) == Moved(s, 3, 4)
    ensures Rotl(Xor(v[p1], d1), 2) == Moved(s, 4, 4)
    ensures Rotl(Xor(v[p2], d2), 62) == Moved(s, 0, 4)
    ensures Rotl(Xor(v[p3], d3), 55) == Moved(s, 1, 4)
    ensures Rotl(Xor(v[p4], d4), 39) == Moved(s, 2, 4)
  {
    hide Rotl, Xor, Moved, Placed, Half, Effect, Place, Offset;
    OffsetValues();
    ReadLane(v, r, 4, 0, p0, d0, 41, s, rc);
    ReadLane(v, r, 4, 1, p1, d1, 2, s, rc);
    ReadLane(v, r, 4, 2, p2, d2, 62, s, rc);
    ReadLane(v, r, 4, 3, p3, d3, 55, s, rc);
    ReadLane(v, r, 4, 4, p4, d4, 39, s, rc);
  }

  /** Theta's effects, from the columns as they lie. */
  method Effects(a: array<Word>, ghost r: nat) returns (d0: Word, d1: Word, d2: Word, d3: Word, d4: Word)
    requires a.Length == 25 && r < 4
    ensures EffectsOf(Placed(a[..], r), d0, d1, d2, d3, d4)
  {
    hide Xor, Rotl, Placed;
    var bc0 := Xor(Xor(Xor(Xor(a[0], a[5]), a[10]), a[15]), a[20]);
    var bc1 := Xor(Xor(Xor(Xor(a[1], a[6]), a[11]), a[16]), a[21]);
    var bc2 := Xor(Xor(Xor(Xor(a[2], a[7]), a[12]), a[17]), a[22]);
    var bc3 := Xor(Xor(Xor(Xor(a[3], a[8]), a[13]), a[18]), a[23]);
    var bc4 := Xor(Xor(Xor(Xor(a[4], a[9]), a[14]), a[19]), a[24]);
    ColumnPlaced(a[..], r, 0);
    ColumnPlaced(a[..], r, 1);
    ColumnPlaced(a[..], r, 2);
    ColumnPlaced(a[..], r, 3);
    ColumnPlaced(a[..], r, 4);
    d0 := Xor(bc4, Rotl(bc1, 1));
    d1 := Xor(bc0, Rotl(bc2, 1));
    d2 := Xor(bc1, Rotl(bc3, 1));
    d3 := Xor(bc2, Rotl(bc4, 1));
    d4 := Xor(bc3, Rotl(bc0, 1));
  }

  method Round1(a: array<Word>, rc: Word)
    requires a.Length == 25
    modifies a
    ensures Placed(a[..], 1) == Round(Placed(old(a[..]), 0), rc)
  {
    hide Placed, Half, Effect, Round, RowAt, EffectsOf;
    ghost var r := 1;
    Places1(r, 0);
    Places1(r, 1);
    Places1(r, 2);
    Places1(r, 3);
    Places1(r, 4);
    ghost var s := Placed(a[..], 0);
    HalfStart(a[..], 0, rc);
    var d0, d1, d2, d3, d4 := Effects(a, 0);
    Plane0(a, 0, 6, 12, 18, 24, d0, d1, d2, d3, d4, rc, r, s);
    Plane1(a, 10, 16, 22, 3, 9, d0, d1, d2, d3, d4, r, s, rc);
    Plane2(a, 20, 1, 7, 13, 19, d0, d1, d2, d3, d4, r, s, rc);
    Plane3(a, 5, 11, 17, 23, 4, d0, d1, d2, d3, d4, r, s, rc);
    Plane4(a, 15, 21, 2, 8, 14, d0, d1, d2, d3, d4, r, s, rc);
    HalfEnd(Placed(a[..], 1), s, rc);
  }

  method Round2(a: array<Word>, rc: Word)
    requires a.Length == 25
    modifies a
    ensures Placed(a[..], 2) == Round(Placed(old(a[..]), 1), rc)
  {
    hide Placed, Half, Effect, Round, RowAt, EffectsOf;
    ghost var r := 2;
    Places2(r, 0);
    Places2(r, 1);
    Places2(r, 2);
    Places2(r, 3);
    Places2(r, 4);
    ghost var s := Placed(a[..], 1);
    HalfStart(a[..], 1, rc);
    var d0, d1, d2, d3, d4 := Effects(a, 1);
    Plane0(a, 0, 16, 7, 23, 14, d0, d1, d2, d3, d4, rc, r, s);
    Plane1(a, 20, 11, 2, 18, 9, d0, d1, d2, d3, d4, r, s, rc);
    Plane2(a, 15, 6, 22, 13, 4, d0, d1, d2, d3, d4, r, s, rc);
    Plane3(a, 10, 1, 17, 8, 24, d0, d1, d2, d3, d4, r, s, rc);
    Plane4(a, 5, 21, 12, 3, 19, d0, d1, d2, d3, d4, r, s, rc);
    HalfEnd(Placed(a[..], 2), s, rc);
  }

  method Round3(a: array<Word>, rc: Word)
    requires a.Length == 25
    modifies a
    ensures Placed(a[..], 3) == Round(Placed(old(a[..]), 2), rc)
  {
    hide Placed, Half, Effect, Round, RowAt, EffectsOf;
    ghost var r := 3;
    Places3(r, 0);
    Places3(r, 1);
    Places3(r, 2);
    Places3(r, 3);
    Places3(r, 4);
    ghost var s := Placed(a[..], 2);
    HalfStart(a[..], 2, rc);
    var d0, d1, d2, d3, d4 := Effects(a, 2);
    Plane0(a, 0, 11, 22, 8, 19, d0, d1, d2, d3, d4, rc, r, s);
    Plane1(a, 15, 1, 12, 23, 9, d0, d1, d2, d3, d4, r, s, rc);
    Plane2(a, 5, 16, 2, 13, 24, d0, d1, d2, d3, d4, r, s, rc);
    Plane3(a, 20, 6, 17, 3, 14, d0, d1, d2, d3, d4, r, s, rc);
    Plane4(a, 10, 21, 7, 18, 4, d0, d1, d2, d3, d4, r, s, rc);
    HalfEnd(Placed(a[..], 3), s, rc);
  }

  method Round4(a: array<Word>, rc: Word)
    requires a.Length == 25
    modifies a
    ensures Placed(a[..], 4) == Round(Placed(old(a[..]), 3), rc)
  {
    hide Placed, Half, Effect, Round, RowAt, EffectsOf;
    ghost var r := 4;
    Places4(r, 0);
    Places4(r, 1);
    Places4(r, 2);
    Places4(r, 3);
    Places4(r, 4);
    ghost var s := Placed(a[..], 3);
    HalfStart(a[..], 3, rc);
    var d0, d1, d2, d3, d4 := Effects(a, 3);
    Plane0(a, 0, 1, 2, 3, 4, d0, d1, d2, d3, d4, rc, r, s);
    Plane1(a, 5, 6, 7, 8, 9, d0, d1, d2, d3, d4, r, s, rc);
    Plane2(a, 10, 11, 12, 13, 14, d0, d1, d2, d3, d4, r, s, rc);
    Plane3(a, 15, 16, 17, 18, 19, d0, d1, d2, d3, d4, r, s, rc);
    Plane4(a, 20, 21, 22, 23, 24, d0, d1, d2, d3, d4, r, s, rc);
    HalfEnd(Placed(a[..], 4), s, rc);
  }

  /** Four rounds at a time, the whole permutation of FIPS 202. */
  method KeccakF1600(a: array<Word>)
    requires a.Length == 25
    modifies a
    ensures a[..] == Permutation(old(a[..]))
  {
    hide Round, Placed, Rounds, Bits, RoundConstant;
    RoundsNone(a[..]);
    var i := 0;
    while i < 24
      invariant 0 <= i <= 24 && i % 4 == 0 && a[..] == Rounds(old(a[..]), i)
    {
      ghost var s := a[..];
      PlacedHome(s);
      FourConstants(i);
      Round1(a, Bits(TABLE[i]));
      Round2(a, Bits(TABLE[i + 1]));
      Round3(a, Bits(TABLE[i + 2]));
      Round4(a, Bits(TABLE[i + 3]));
      PlacedHome(a[..]);
      FourRounds(old(a[..]), i);
      i := i + 4;
    }
  }

  lemma RoundsNone(s: State)
    ensures Rounds(s, 0) == s
  {
  }

  lemma FourConstants(i: nat)
    requires i <= 20
    ensures Bits(TABLE[i]) == RoundConstant(i) && Bits(TABLE[i + 1]) == RoundConstant(i + 1)
    ensures Bits(TABLE[i + 2]) == RoundConstant(i + 2) && Bits(TABLE[i + 3]) == RoundConstant(i + 3)
  {
    hide Bits, RoundConstant;
    TableIsDerived(i);
    TableIsDerived(i + 1);
    TableIsDerived(i + 2);
    TableIsDerived(i + 3);
  }

  lemma FourRounds(s: State, i: nat)
    requires i <= 20
    ensures Rounds(s, i + 4) ==
            Round(Round(Round(Round(Rounds(s, i), RoundConstant(i)), RoundConstant(i + 1)), RoundConstant(i + 2)), RoundConstant(i + 3))
  {
    hide Round, RoundConstant;
    assert Rounds(s, i + 1) == Round(Rounds(s, i), RoundConstant(i));
    assert Rounds(s, i + 2) == Round(Rounds(s, i + 1), RoundConstant(i + 1));
    assert Rounds(s, i + 3) == Round(Rounds(s, i + 2), RoundConstant(i + 2));
  }
}
