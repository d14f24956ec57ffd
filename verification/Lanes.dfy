/** Where the in-place Keccak rounds keep their lanes. */
module Lanes {
  predicate In(x: int, y: int)
  {
    0 <= x < 5 && 0 <= y < 5
  }

  /** The remainder by five of a small number. */
  function Fold(n: nat): (m: nat)
    requires n < 30
    ensures m < 5
  {
    if n < 5 then n else if n < 10 then n - 5 else if n < 15 then n - 10 else if n < 20 then n - 15 else if n < 25 then n - 20 else n - 25
  }

  lemma FoldIs(n: nat)
    requires n < 30
    ensures Fold(n) == n % 5
  {
  }

  function Row(r: nat, x: nat, y: nat): (j: nat)
    requires r <= 4 && In(x, y)
    ensures j < 5
  {
    if r == 1 then Fold(x + 2 * y) else if r == 2 then Fold(3 * x + 4 * y) else if r == 3 then Fold(2 * x + 3 * y) else y
  }

  /** Where lane (x, y) is kept before round `r` of four; lanes stay in their column. */
  function Place(r: nat, x: nat, y: nat): (p: nat)
    requires r <= 4 && In(x, y)
    ensures p < 25
  {
    x + 5 * Row(r, x, y)
  }

  /** The next round finds its lanes where this one's inputs were: pi is absorbed by moving the places. */
  lemma PlaceStep(r: nat, x: nat, y: nat)
    requires r < 4 && In(x, y)
    ensures Place(r + 1, x, y) == Place(r, x, (x + 2 * y) % 5)
  {
    FoldIs(x + 2 * y);
    RowStep(r, x, y, (x + 2 * y) % 5);
  }

  lemma FoldSteps(x: nat, y: nat, m: nat)
    requires In(x, y) && m == Fold(x + 2 * y)
    ensures Fold(3 * x + 4 * y) == Fold(x + 2 * m)
  {
  }

  lemma FoldStepsMore(x: nat, y: nat, m: nat)
    requires In(x, y) && m == Fold(x + 2 * y)
    ensures Fold(2 * x + 3 * y) == Fold(3 * x + 4 * m)
  {
  }

  lemma FoldStepsHome(x: nat, y: nat, m: nat)
    requires In(x, y) && m == Fold(x + 2 * y)
    ensures y == Fold(2 * x + 3 * m)
  {
  }

  lemma RowStep(r: nat, x: nat, y: nat, m: nat)
    requires r < 4 && In(x, y) && m == Fold(x + 2 * y)
    ensures Row(r + 1, x, y) == Row(r, x, m)
  {
    hide Fold;
    FoldSteps(x, y, m);
    FoldStepsMore(x, y, m);
    FoldStepsHome(x, y, m);
  }

  lemma FoldApart(x: nat, y: nat, v: nat)
    requires In(x, y) && In(x, v) && Fold(x + 2 * y) == Fold(x + 2 * v)
    ensures y == v
  {
  }

  lemma FoldApartMore(x: nat, y: nat, v: nat)
    requires In(x, y) && In(x, v) && Fold(3 * x + 4 * y) == Fold(3 * x + 4 * v)
    ensures y == v
  {
  }

  lemma FoldApartMost(x: nat, y: nat, v: nat)
    requires In(x, y) && In(x, v) && Fold(2 * x + 3 * y) == Fold(2 * x + 3 * v)
    ensures y == v
  {
  }

  lemma RowApart(r: nat, x: nat, y: nat, v: nat)
    requires r <= 4 && In(x, y) && In(x, v) && Row(r, x, y) == Row(r, x, v)
    ensures y == v
  {
    hide Fold;
    if r == 1 { FoldApart(x, y, v); }
    if r == 2 { FoldApartMore(x, y, v); }
    if r == 3 { FoldApartMost(x, y, v); }
  }

  lemma PlaceApart(r: nat, x: nat, y: nat, u: nat, v: nat)
    requires r <= 4 && In(x, y) && In(u, v) && Place(r, x, y) == Place(r, u, v)
    ensures x == u && y == v
  {
    hide Row;
    if x == u { RowApart(r, x, y, v); }
  }

  lemma Back(c: nat, y: nat)
    requires In(c, y)
    ensures ((c + 2 * y) % 5 + 3 * y) % 5 == c
  {
    FoldIs(c + 2 * y);
    FoldIs(Fold(c + 2 * y) + 3 * y);
  }

  /** These are the places of row `y` before round `r`. */
  ghost predicate RowAt(r: nat, y: nat, p0: nat, p1: nat, p2: nat, p3: nat, p4: nat)
    requires r <= 4 && y < 5
  {
    p0 == Place(r, 0, y) && p1 == Place(r, 1, y) && p2 == Place(r, 2, y) && p3 == Place(r, 3, y) && p4 == Place(r, 4, y)
  }

  lemma Rows1(r: nat, x: nat)
    requires r == 1 && x < 5
    ensures x == 0 ==> Row(r, x, 0) == 0 && Row(r, x, 1) == 2 && Row(r, x, 2) == 4 && Row(r, x, 3) == 1 && Row(r, x, 4) == 3
    ensures x == 1 ==> Row(r, x, 0) == 1 && Row(r, x, 1) == 3 && Row(r, x, 2) == 0 && Row(r, x, 3) == 2 && Row(r, x, 4) == 4
    ensures x == 2 ==> Row(r, x, 0) == 2 && Row(r, x, 1) == 4 && Row(r, x, 2) == 1 && Row(r, x, 3) == 3 && Row(r, x, 4) == 0
    ensures x == 3 ==> Row(r, x, 0) == 3 && Row(r, x, 1) == 0 && Row(r, x, 2) == 2 && Row(r, x, 3) == 4 && Row(r, x, 4) == 1
    ensures x == 4 ==> Row(r, x, 0) == 4 && Row(r, x, 1) == 1 && Row(r, x, 2) == 3 && Row(r, x, 3) == 0 && Row(r, x, 4) == 2
  {
  }

  lemma Rows2(r: nat, x: nat)
    requires r == 2 && x < 5
    ensures x == 0 ==> Row(r, x, 0) == 0 && Row(r, x, 1) == 4 && Row(r, x, 2) == 3 && Row(r, x, 3) == 2 && Row(r, x, 4) == 1
    ensures x == 1 ==> Row(r, x, 0) == 3 && Row(r, x, 1) == 2 && Row(r, x, 2) == 1 && Row(r, x, 3) == 0 && Row(r, x, 4) == 4
    ensures x == 2 ==> Row(r, x, 0) == 1 && Row(r, x, 1) == 0 && Row(r, x, 2) == 4 && Row(r, x, 3) == 3 && Row(r, x, 4) == 2
    ensures x == 3 ==> Row(r, x, 0) == 4 && Row(r, x, 1) == 3 && Row(r, x, 2) == 2 && Row(r, x, 3) == 1 && Row(r, x, 4) == 0
    ensures x == 4 ==> Row(r, x, 0) == 2 && Row(r, x, 1) == 1 && Row(r, x, 2) == 0 && Row(r, x, 3) == 4 && Row(r, x, 4) == 3
  {
  }

  lemma Rows3(r: nat, x: nat)
    requires r == 3 && x < 5
    ensures x == 0 ==> Row(r, x, 0) == 0 && Row(r, x, 1) == 3 && Row(r, x, 2) == 1 && Row(r, x, 3) == 4 && Row(r, x, 4) == 2
    ensures x == 1 ==> Row(r, x, 0) == 2 && Row(r, x, 1) == 0 && Row(r, x, 2) == 3 && Row(r, x, 3) == 1 && Row(r, x, 4) == 4
    ensures x == 2 ==> Row(r, x, 0) == 4 && Row(r, x, 1) == 2 && Row(r, x, 2) == 0 && Row(r, x, 3) == 3 && Row(r, x, 4) == 1
    ensures x == 3 ==> Row(r, x, 0) == 1 && Row(r, x, 1) == 4 && Row(r, x, 2) == 2 && Row(r, x, 3) == 0 && Row(r, x, 4) == 3
    ensures x == 4 ==> Row(r, x, 0) == 3 && Row(r, x, 1) == 1 && Row(r, x, 2) == 4 && Row(r, x, 3) == 2 && Row(r, x, 4) == 0
  {
  }

  lemma Place1(r: nat, x: nat, y: nat)
    requires r == 1 && In(x, y)
    ensures x == 0 ==> (y == 0 ==> Place(r, x, y) == 0) && (y == 1 ==> Place(r, x, y) == 10) && (y == 2 ==> Place(r, x, y) == 20) && (y == 3 ==> Place(r, x, y) == 5) && (y == 4 ==> Place(r, x, y) == 15)
    ensures x == 1 ==> (y == 0 ==> Place(r, x, y) == 6) && (y == 1 ==> Place(r, x, y) == 16) && (y == 2 ==> Place(r, x, y) == 1) && (y == 3 ==> Place(r, x, y) == 11) && (y == 4 ==> Place(r, x, y) == 21)
    ensures x == 2 ==> (y == 0 ==> Place(r, x, y) == 12) && (y == 1 ==> Place(r, x, y) == 22) && (y == 2 ==> Place(r, x, y) == 7) && (y == 3 ==> Place(r, x, y) == 17) && (y == 4 ==> Place(r, x, y) == 2)
    ensures x == 3 ==> (y == 0 ==> Place(r, x, y) == 18) && (y == 1 ==> Place(r, x, y) == 3) && (y == 2 ==> Place(r, x, y) == 13) && (y == 3 ==> Place(r, x, y) == 23) && (y == 4 ==> Place(r, x, y) == 8)
    ensures x == 4 ==> (y == 0 ==> Place(r, x, y) == 24) && (y == 1 ==> Place(r, x, y) == 9) && (y == 2 ==> Place(r, x, y) == 19) && (y == 3 ==> Place(r, x, y) == 4) && (y == 4 ==> Place(r, x, y) == 14)
  {
    hide Row;
    Rows1(r, x);
  }

  lemma Places1(r: nat, y: nat)
    requires r == 1 && y < 5
    ensures y == 0 ==> RowAt(r, y, 0, 6, 12, 18, 24)
    ensures y == 1 ==> RowAt(r, y, 10, 16, 22, 3, 9)
    ensures y == 2 ==> RowAt(r, y, 20, 1, 7, 13, 19)
    ensures y == 3 ==> RowAt(r, y, 5, 11, 17, 23, 4)
    ensures y == 4 ==> RowAt(r, y, 15, 21, 2, 8, 14)
  {
    hide Place;
    Place1(r, 0, y);
    Place1(r, 1, y);
    Place1(r, 2, y);
    Place1(r, 3, y);
    Place1(r, 4, y);
  }

  lemma Place2(r: nat, x: nat, y: nat)
    requires r == 2 && In(x, y)
    ensures x == 0 ==> (y == 0 ==> Place(r, x, y) == 0) && (y == 1 ==> Place(r, x, y) == 20) && (y == 2 ==> Place(r, x, y) == 15) && (y == 3 ==> Place(r, x, y) == 10) && (y == 4 ==> Place(r, x, y) == 5)
    ensures x == 1 ==> (y == 0 ==> Place(r, x, y) == 16) && (y == 1 ==> Place(r, x, y) == 11) && (y == 2 ==> Place(r, x, y) == 6) && (y == 3 ==> Place(r, x, y) == 1) && (y == 4 ==> Place(r, x, y) == 21)
    ensures x == 2 ==> (y == 0 ==> Place(r, x, y) == 7) && (y == 1 ==> Place(r, x, y) == 2) && (y == 2 ==> Place(r, x, y) == 22) && (y == 3 ==> Place(r, x, y) == 17) && (y == 4 ==> Place(r, x, y) == 12)
    ensures x == 3 ==> (y == 0 ==> Place(r, x, y) == 23) && (y == 1 ==> Place(r, x, y) == 18) && (y == 2 ==> Place(r, x, y) == 13) && (y == 3 ==> Place(r, x, y) == 8) && (y == 4 ==> Place(r, x, y) == 3)
    ensures x == 4 ==> (y == 0 ==> Place(r, x, y) == 14) && (y == 1 ==> Place(r, x, y) == 9) && (y == 2 ==> Place(r, x, y) == 4) && (y == 3 ==> Place(r, x, y) == 24) && (y == 4 ==> Place(r, x, y) == 19)
  {
    hide Row;
    Rows2(r, x);
  }

  lemma Places2(r: nat, y: nat)
    requires r == 2 && y < 5
    ensures y == 0 ==> RowAt(r, y, 0, 16, 7, 23, 14)
    ensures y == 1 ==> RowAt(r, y, 20, 11, 2, 18, 9)
    ensures y == 2 ==> RowAt(r, y, 15, 6, 22, 13, 4)
    ensures y == 3 ==> RowAt(r, y, 10, 1, 17, 8, 24)
    ensures y == 4 ==> RowAt(r, y, 5, 21, 12, 3, 19)
  {
    hide Place;
    Place2(r, 0, y);
    Place2(r, 1, y);
    Place2(r, 2, y);
    Place2(r, 3, y);
    Place2(r, 4, y);
  }

  lemma Place3(r: nat, x: nat, y: nat)
    requires r == 3 && In(x, y)
    ensures x == 0 ==> (y == 0 ==> Place(r, x, y) == 0) && (y == 1 ==> Place(r, x, y) == 15) && (y == 2 ==> Place(r, x, y) == 5) && (y == 3 ==> Place(r, x, y) == 20) && (y == 4 ==> Place(r, x, y) == 10)
    ensures x == 1 ==> (y == 0 ==> Place(r, x, y) == 11) && (y == 1 ==> Place(r, x, y) == 1) && (y == 2 ==> Place(r, x, y) == 16) && (y == 3 ==> Place(r, x, y) == 6) && (y == 4 ==> Place(r, x, y) == 21)
    ensures x == 2 ==> (y == 0 ==> Place(r, x, y) == 22) && (y == 1 ==> Place(r, x, y) == 12) && (y == 2 ==> Place(r, x, y) == 2) && (y == 3 ==> Place(r, x, y) == 17) && (y == 4 ==> Place(r, x, y) == 7)
    ensures x == 3 ==> (y == 0 ==> Place(r, x, y) == 8) && (y == 1 ==> Place(r, x, y) == 23) && (y == 2 ==> Place(r, x, y) == 13) && (y == 3 ==> Place(r, x, y) == 3) && (y == 4 ==> Place(r, x, y) == 18)
    ensures x == 4 ==> (y == 0 ==> Place(r, x, y) == 19) && (y == 1 ==> Place(r, x, y) == 9) && (y == 2 ==> Place(r, x, y) == 24) && (y == 3 ==> Place(r, x, y) == 14) && (y == 4 ==> Place(r, x, y) == 4)
  {
    hide Row;
    Rows3(r, x);
  }

  lemma Places3(r: nat, y: nat)
    requires r == 3 && y < 5
    ensures y == 0 ==> RowAt(r, y, 0, 11, 22, 8, 19)
    ensures y == 1 ==> RowAt(r, y, 15, 1, 12, 23, 9)
    ensures y == 2 ==> RowAt(r, y, 5, 16, 2, 13, 24)
    ensures y == 3 ==> RowAt(r, y, 20, 6, 17, 3, 14)
    ensures y == 4 ==> RowAt(r, y, 10, 21, 7, 18, 4)
  {
    hide Place;
    Place3(r, 0, y);
    Place3(r, 1, y);
    Place3(r, 2, y);
    Place3(r, 3, y);
    Place3(r, 4, y);
  }

  lemma Place4(r: nat, x: nat, y: nat)
    requires r == 4 && In(x, y)
    ensures x == 0 ==> (y == 0 ==> Place(r, x, y) == 0) && (y == 1 ==> Place(r, x, y) == 5) && (y == 2 ==> Place(r, x, y) == 10) && (y == 3 ==> Place(r, x, y) == 15) && (y == 4 ==> Place(r, x, y) == 20)
    ensures x == 1 ==> (y == 0 ==> Place(r, x, y) == 1) && (y == 1 ==> Place(r, x, y) == 6) && (y == 2 ==> Place(r, x, y) == 11) && (y == 3 ==> Place(r, x, y) == 16) && (y == 4 ==> Place(r, x, y) == 21)
    ensures x == 2 ==> (y == 0 ==> Place(r, x, y) == 2) && (y == 1 ==> Place(r, x, y) == 7) && (y == 2 ==> Place(r, x, y) == 12) && (y == 3 ==> Place(r, x, y) == 17) && (y == 4 ==> Place(r, x, y) == 22)
    ensures x == 3 ==> (y == 0 ==> Place(r, x, y) == 3) && (y == 1 ==> Place(r, x, y) == 8) && (y == 2 ==> Place(r, x, y) == 13) && (y == 3 ==> Place(r, x, y) == 18) && (y == 4 ==> Place(r, x, y) == 23)
    ensures x == 4 ==> (y == 0 ==> Place(r, x, y) == 4) && (y == 1 ==> Place(r, x, y) == 9) && (y == 2 ==> Place(r, x, y) == 14) && (y == 3 ==> Place(r, x, y) == 19) && (y == 4 ==> Place(r, x, y) == 24)
  {
  }

  lemma Places4(r: nat, y: nat)
    requires r == 4 && y < 5
    ensures y == 0 ==> RowAt(r, y, 0, 1, 2, 3, 4)
    ensures y == 1 ==> RowAt(r, y, 5, 6, 7, 8, 9)
    ensures y == 2 ==> RowAt(r, y, 10, 11, 12, 13, 14)
    ensures y == 3 ==> RowAt(r, y, 15, 16, 17, 18, 19)
    ensures y == 4 ==> RowAt(r, y, 20, 21, 22, 23, 24)
  {
    hide Place;
    Place4(r, 0, y);
    Place4(r, 1, y);
    Place4(r, 2, y);
    Place4(r, 3, y);
    Place4(r, 4, y);
  }
}
