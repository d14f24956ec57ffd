/** The constants of the rounds: the shift register of section 3.2.5 and the walk of section 3.2.2 of FIPS 202,
    against the tables and literals of the program. */
module RoundConstants {
  import opened Lanes
  import opened Words

  // --- the round constants ----------------------------------------------------------------------

  datatype Register = Register(r0: bool, r1: bool, r2: bool, r3: bool, r4: bool, r5: bool, r6: bool, r7: bool)

  /** Put a zero in front, fold the ninth bit into positions 0, 4, 5 and 6, and drop it. */
  function Shift(r: Register): Register
  {
    Register(r.r7, r.r0, r.r1, r.r2, r.r3 != r.r7, r.r4 != r.r7, r.r5 != r.r7, r.r6)
  }

  function After(t: nat): Register
  {
    if t == 0 then Register(true, false, false, false, false, false, false, false) else Shift(After(t - 1))
  }

  /** Algorithm 5. */
  predicate Rc(t: nat)
  {
    if t % 255 == 0 then true else After(t % 255).r0
  }

  /** Algorithm 6: bit `2^j - 1` of the constant of round `i`, for the first `n` values of `j`. */
  function ConstantBits(i: nat, n: nat): Word
    requires n <= 7
  {
    if n == 0 then {} else
      PowBound(n - 1);
      ConstantBits(i, n - 1) + Single(Rc(n - 1 + 7 * i), Pow2(n - 1) - 1)
  }

  function RoundConstant(i: nat): Word
  {
    ConstantBits(i, 7)
  }

  lemma PowBound(n: nat)
    requires n <= 6
    ensures 1 <= Pow2(n) <= 64
    ensures Pow2(0) == 1 && Pow2(1) == 2 && Pow2(2) == 4 && Pow2(3) == 8 && Pow2(4) == 16 && Pow2(5) == 32 && Pow2(6) == 64
  {
    assert Pow2(1) == 2 * Pow2(0);
    assert Pow2(2) == 2 * Pow2(1);
    assert Pow2(3) == 2 * Pow2(2);
    assert Pow2(4) == 2 * Pow2(3);
    assert Pow2(5) == 2 * Pow2(4);
    assert Pow2(6) == 2 * Pow2(5);
  }

  /** The program's table. */
  const TABLE: seq<nat> := [
    0x0000000000000001, 0x0000000000008082, 0x800000000000808A, 0x8000000080008000,
    0x000000000000808B, 0x0000000080000001, 0x8000000080008081, 0x8000000000008009,
    0x000000000000008A, 0x0000000000000088, 0x0000000080008009, 0x000000008000000A,
    0x000000008000808B, 0x800000000000008B, 0x8000000000008089, 0x8000000000008003,
    0x8000000000008002, 0x8000000000000080, 0x000000000000800A, 0x800000008000000A,
    0x8000000080008081, 0x8000000000008080, 0x0000000080000001, 0x8000000080008008]

  /** Seven output bits of the register, and where a round constant has them. */
  datatype Taps = Taps(b0: bool, b1: bool, b3: bool, b7: bool, b15: bool, b31: bool, b63: bool)

  function Spread(t: Taps): Word
  {
    Single(t.b0, 0) + Single(t.b1, 1) + Single(t.b3, 3) + Single(t.b7, 7) + Single(t.b15, 15) + Single(t.b31, 31) + Single(t.b63, 63)
  }

  function Value(t: Taps): nat
  {
    Num(t.b0) + 2 * Num(t.b1) + 8 * Num(t.b3) + 0x80 * Num(t.b7) + 0x8000 * Num(t.b15) + 0x80000000 * Num(t.b31) +
    0x8000000000000000 * Num(t.b63)
  }

  lemma BigPows()
    ensures Pow2(1) == 2 && Pow2(3) == 8 && Pow2(7) == 0x80 && Pow2(15) == 0x8000 && Pow2(31) == 0x80000000
  {
    PowSum(3, 3);
    PowSum(7, 7);
    PowSum(15, 15);
  }

  lemma {:induction false} PowSum(a: nat, b: nat)
    ensures Pow2(a + b) == Pow2(a) * Pow2(b)
    decreases b
  {
    if b > 0 { PowSum(a, b - 1); }
  }

  function From31(t: Taps): nat { Num(t.b31) + 2 * (Num(t.b63) * 0x80000000) }
  function From15(t: Taps): nat { Num(t.b15) + 2 * (From31(t) * 0x8000) }
  function From7(t: Taps): nat { Num(t.b7) + 2 * (From15(t) * 0x80) }
  function From3(t: Taps): nat { Num(t.b3) + 2 * (From7(t) * 8) }
  function From1(t: Taps): nat { Num(t.b1) + 2 * (From3(t) * 2) }

  lemma ValueNested(t: Taps)
    ensures Value(t) == Num(t.b0) + 2 * From1(t)
  {
    hide Num;
    Nested(Num(t.b0), Num(t.b1), Num(t.b3), Num(t.b7), Num(t.b15), Num(t.b31), Num(t.b63), From1(t), From3(t), From7(t), From15(t), From31(t));
  }

  /** The bits from 15 up, and from the bottom. */
  lemma HighBits(t: Taps)
    ensures BitsFrom(From15(t), 15) == Single(t.b15, 15) + (Single(t.b31, 31) + (Single(t.b63, 63) + {}))
  {
    hide BitsFrom, Pow2, Single, Num;
    BigPows();
    SparseBits(t.b15, From31(t), 15, 0x8000, 15);
    SparseBits(t.b31, Num(t.b63), 31, 0x80000000, 31);
    LowBit(t.b63, 0, 63);
    NoBits();
  }

  lemma LowBits(t: Taps)
    ensures BitsFrom(Num(t.b0) + 2 * From1(t), 0) == Single(t.b0, 0) + (Single(t.b1, 1) + (Single(t.b3, 3) + (Single(t.b7, 7) + BitsFrom(From15(t), 15))))
  {
    hide BitsFrom, Pow2, Single, Num, From15;
    BigPows();
    LowBit(t.b0, From1(t), 0);
    SparseBits(t.b1, From3(t), 1, 2, 1);
    SparseBits(t.b3, From7(t), 3, 8, 3);
    SparseBits(t.b7, From15(t), 7, 0x80, 7);
  }

  /** The word with the value of the taps is the taps spread out. */
  lemma SpreadValue(t: Taps)
    ensures Bits(Value(t)) == Spread(t)
  {
    hide BitsFrom, Single, Num, Value, From1, From15;
    ValueNested(t);
    LowBits(t);
    HighBits(t);
    Unnest(Single(t.b0, 0), Single(t.b1, 1), Single(t.b3, 3), Single(t.b7, 7), Single(t.b15, 15), Single(t.b31, 31), Single(t.b63, 63));
  }

  lemma Nested(n0: nat, n1: nat, n3: nat, n7: nat, n15: nat, n31: nat, n63: nat, m1: nat, m2: nat, m3: nat, m4: nat, m5: nat)
    requires m5 == n31 + 2 * (n63 * 0x80000000) && m4 == n15 + 2 * (m5 * 0x8000) && m3 == n7 + 2 * (m4 * 0x80)
    requires m2 == n3 + 2 * (m3 * 8) && m1 == n1 + 2 * (m2 * 2)
    ensures n0 + 2 * n1 + 8 * n3 + 0x80 * n7 + 0x8000 * n15 + 0x80000000 * n31 + 0x8000000000000000 * n63 == n0 + 2 * m1
  {
  }

  lemma Unnest(a: Word, b: Word, c: Word, d: Word, e: Word, f: Word, g: Word)
    ensures a + (b + (c + (d + (e + (f + (g + {})))))) == a + b + c + d + e + f + g
  {
  }

  lemma NoBits()
    ensures BitsFrom(0, 64) == {}
  {
  }

  /** What the register puts out in seven steps, and where it is then. */
  function Outputs(r: Register): Taps
  {
    var a := Shift(r);
    var b := Shift(a);
    var c := Shift(b);
    var d := Shift(c);
    var e := Shift(d);
    var f := Shift(e);
    Taps(r.r0, a.r0, b.r0, c.r0, d.r0, e.r0, f.r0)
  }

  function Seven(r: Register): Register
  {
    Shift(Shift(Shift(Shift(Shift(Shift(Shift(r)))))))
  }

  lemma SevenSteps(t: nat)
    ensures After(t + 7) == Seven(After(t))
    ensures Outputs(After(t)) == Taps(After(t).r0, After(t + 1).r0, After(t + 2).r0, After(t + 3).r0, After(t + 4).r0, After(t + 5).r0, After(t + 6).r0)
  {
    hide Shift;
    assert After(t + 1) == Shift(After(t));
    assert After(t + 2) == Shift(After(t + 1));
    assert After(t + 3) == Shift(After(t + 2));
    assert After(t + 4) == Shift(After(t + 3));
    assert After(t + 5) == Shift(After(t + 4));
    assert After(t + 6) == Shift(After(t + 5));
  }

  /** Seven output bits make a round constant. */
  lemma ConstantIsSpread(i: nat)
    requires i < 24
    ensures RoundConstant(i) == Spread(Outputs(After(7 * i)))
  {
    hide Single, After, Outputs, ConstantBits, Pow2;
    SevenSteps(7 * i);
    PowBound(0);
    NoConstantBits(i);
    NextBit(i, 0, 0);
    NextBit(i, 1, 1);
    NextBit(i, 2, 3);
    NextBit(i, 3, 7);
    NextBit(i, 4, 15);
    NextBit(i, 5, 31);
    NextBit(i, 6, 63);
    assert ConstantBits(i, 0 + 1) == Single(After(7 * i).r0, 0);
  }

  lemma NoConstantBits(i: nat)
    ensures ConstantBits(i, 0) == {}
  {
  }

  lemma NextBit(i: nat, n: nat, z: nat)
    requires i < 24 && n < 7 && z + 1 == Pow2(n) && z < 64
    ensures ConstantBits(i, n + 1) == ConstantBits(i, n) + Single(After(7 * i + n).r0, z)
  {
    hide Pow2;
    RcAt(n + 7 * i);
  }

  lemma RcAt(t: nat)
    requires t < 255
    ensures Rc(t) == After(t).r0
  {
    hide After;
    Start(0);
  }

  lemma Start(t: nat)
    requires t == 0
    ensures After(t) == Register(true, false, false, false, false, false, false, false)
  {
  }

  // --- the register round by round, four rounds at a time ----------------------------------------

  lemma Rounds0(r: Register)
    requires r == Register(true, false, false, false, false, false, false, false)
    ensures Value(Outputs(r)) == 0x1 && Value(Outputs(Seven(r))) == 0x8082
    ensures Value(Outputs(Seven(Seven(r)))) == 0x800000000000808A && Value(Outputs(Seven(Seven(Seven(r))))) == 0x8000000080008000
    ensures Seven(Seven(Seven(Seven(r)))) == Register(true, true, true, true, true, false, true, true)
  {
  }

  lemma Rounds4(r: Register)
    requires r == Register(true, true, true, true, true, false, true, true)
    ensures Value(Outputs(r)) == 0x808B && Value(Outputs(Seven(r))) == 0x80000001
    ensures Value(Outputs(Seven(Seven(r)))) == 0x8000000080008081 && Value(Outputs(Seven(Seven(Seven(r))))) == 0x8000000000008009
    ensures Seven(Seven(Seven(Seven(r)))) == Register(false, true, false, true, false, false, true, true)
  {
  }

  lemma Rounds8(r: Register)
    requires r == Register(false, true, false, true, false, false, true, true)
    ensures Value(Outputs(r)) == 0x8A && Value(Outputs(Seven(r))) == 0x88
    ensures Value(Outputs(Seven(Seven(r)))) == 0x80008009 && Value(Outputs(Seven(Seven(Seven(r))))) == 0x8000000A
    ensures Seven(Seven(Seven(Seven(r)))) == Register(true, false, true, false, true, false, true, true)
  {
  }

  lemma Rounds12(r: Register)
    requires r == Register(true, false, true, false, true, false, true, true)
    ensures Value(Outputs(r)) == 0x8000808B && Value(Outputs(Seven(r))) == 0x800000000000008B
    ensures Value(Outputs(Seven(Seven(r)))) == 0x8000000000008089 && Value(Outputs(Seven(Seven(Seven(r))))) == 0x8000000000008003
    ensures Seven(Seven(Seven(Seven(r)))) == Register(false, true, false, true, false, true, false, true)
  {
  }

  lemma Rounds16(r: Register)
    requires r == Register(false, true, false, true, false, true, false, true)
    ensures Value(Outputs(r)) == 0x8000000000008002 && Value(Outputs(Seven(r))) == 0x8000000000000080
    ensures Value(Outputs(Seven(Seven(r)))) == 0x800A && Value(Outputs(Seven(Seven(Seven(r))))) == 0x800000008000000A
    ensures Seven(Seven(Seven(Seven(r)))) == Register(true, true, true, false, true, true, false, false)
  {
  }

  lemma Rounds20(r: Register)
    requires r == Register(true, true, true, false, true, true, false, false)
    ensures Value(Outputs(r)) == 0x8000000080008081 && Value(Outputs(Seven(r))) == 0x8000000000008080
    ensures Value(Outputs(Seven(Seven(r)))) == 0x80000001 && Value(Outputs(Seven(Seven(Seven(r))))) == 0x8000000080008008
    ensures Seven(Seven(Seven(Seven(r)))) == Register(false, true, true, true, false, false, false, true)
  {
  }

  ghost predicate FourAt(t: nat, a: nat, b: nat, c: nat, d: nat)
  {
    Value(Outputs(After(t))) == a && Value(Outputs(After(t + 7))) == b && Value(Outputs(After(t + 14))) == c && Value(Outputs(After(t + 21))) == d
  }

  lemma FourSteps(t: nat)
    ensures After(t + 7) == Seven(After(t)) && After(t + 14) == Seven(Seven(After(t)))
    ensures After(t + 21) == Seven(Seven(Seven(After(t)))) && After(t + 28) == Seven(Seven(Seven(Seven(After(t)))))
  {
    hide After, Seven, Outputs;
    SevenSteps(t);
    SevenSteps(t + 7);
    SevenSteps(t + 14);
    SevenSteps(t + 21);
  }

  lemma Block0(t: nat)
    requires After(t) == Register(true, false, false, false, false, false, false, false)
    ensures FourAt(t, 0x1, 0x8082, 0x800000000000808A, 0x8000000080008000) && After(t + 28) == Register(true, true, true, true, true, false, true, true)
  {
    hide After, Seven, Outputs, Value;
    FourSteps(t);
    Rounds0(After(t));
  }

  lemma Block4(t: nat)
    requires After(t) == Register(true, true, true, true, true, false, true, true)
    ensures FourAt(t, 0x808B, 0x80000001, 0x8000000080008081, 0x8000000000008009) && After(t + 28) == Register(false, true, false, true, false, false, true, true)
  {
    hide After, Seven, Outputs, Value;
    FourSteps(t);
    Rounds4(After(t));
  }

  lemma Block8(t: nat)
    requires After(t) == Register(false, true, false, true, false, false, true, true)
    ensures FourAt(t, 0x8A, 0x88, 0x80008009, 0x8000000A) && After(t + 28) == Register(true, false, true, false, true, false, true, true)
  {
    hide After, Seven, Outputs, Value;
    FourSteps(t);
    Rounds8(After(t));
  }

  lemma Block12(t: nat)
    requires After(t) == Register(true, false, true, false, true, false, true, true)
    ensures FourAt(t, 0x8000808B, 0x800000000000008B, 0x8000000000008089, 0x8000000000008003) && After(t + 28) == Register(false, true, false, true, false, true, false, true)
  {
    hide After, Seven, Outputs, Value;
    FourSteps(t);
    Rounds12(After(t));
  }

  lemma Block16(t: nat)
    requires After(t) == Register(false, true, false, true, false, true, false, true)
    ensures FourAt(t, 0x8000000000008002, 0x8000000000000080, 0x800A, 0x800000008000000A) && After(t + 28) == Register(true, true, true, false, true, true, false, false)
  {
    hide After, Seven, Outputs, Value;
    FourSteps(t);
    Rounds16(After(t));
  }

  lemma Block20(t: nat)
    requires After(t) == Register(true, true, true, false, true, true, false, false)
    ensures FourAt(t, 0x8000000080008081, 0x8000000000008080, 0x80000001, 0x8000000080008008) && After(t + 28) == Register(false, true, true, true, false, false, false, true)
  {
    hide After, Seven, Outputs, Value;
    FourSteps(t);
    Rounds20(After(t));
  }

  /** What the register makes of each round. */
  lemma Outcomes(t: nat)
    requires t == 0
    ensures FourAt(t, 0x1, 0x8082, 0x800000000000808A, 0x8000000080008000)
    ensures FourAt(t + 28, 0x808B, 0x80000001, 0x8000000080008081, 0x8000000000008009)
    ensures FourAt(t + 56, 0x8A, 0x88, 0x80008009, 0x8000000A)
    ensures FourAt(t + 84, 0x8000808B, 0x800000000000008B, 0x8000000000008089, 0x8000000000008003)
    ensures FourAt(t + 112, 0x8000000000008002, 0x8000000000000080, 0x800A, 0x800000008000000A)
    ensures FourAt(t + 140, 0x8000000080008081, 0x8000000000008080, 0x80000001, 0x8000000080008008)
  {
    hide After, FourAt;
    Start(t);
    Block0(t);
    Block4(t + 28);
    Block8(t + 56);
    Block12(t + 84);
    Block16(t + 112);
    Block20(t + 140);
  }

  lemma OutputsAt(i: nat)
    requires i < 24
    ensures Value(Outputs(After(7 * i))) == TABLE[i]
  {
    hide After, Outputs, Value;
    Outcomes(0);
  }

  /** Every entry of the program's table is what the shift register makes. */
  lemma TableIsDerived(i: nat)
    requires i < 24
    ensures Bits(TABLE[i]) == RoundConstant(i)
  {
    hide After, Outputs, Value, RoundConstant, Spread, Bits;
    ConstantIsSpread(i);
    OutputsAt(i);
    SpreadValue(Outputs(After(7 * i)));
  }

  // --- the rotation offsets -----------------------------------------------------------------------

  /** Algorithm 2 visits the lanes other than (0, 0) in this order. */
  function WalkAt(t: nat): (p: (nat, nat))
    ensures In(p.0, p.1)
  {
    if t == 0 then (1, 0) else var (x, y) := WalkAt(t - 1); (y, (2 * x + 3 * y) % 5)
  }

  /** How far the lane visited at `t` is rotated. */
  function Distance(t: nat): (k: nat)
    ensures k < 64
  {
    (t + 1) * (t + 2) / 2 % 64
  }

  function OffsetFrom(x: nat, y: nat, t: nat): (k: nat)
    ensures k < 64
    decreases 24 - t
  {
    if t >= 24 then 0 else if WalkAt(t) == (x, y) then Distance(t) else OffsetFrom(x, y, t + 1)
  }

  /** The rotation of lane (x, y); the lane never visited stays. */
  function Offset(x: nat, y: nat): (k: nat)
    requires In(x, y)
    ensures k < 64
  {
    OffsetFrom(x, y, 0)
  }

  function Pick(x: nat, a: nat, b: nat, c: nat, d: nat, e: nat): nat
  {
    if x == 0 then a else if x == 1 then b else if x == 2 then c else if x == 3 then d else e
  }

  /** When the walk is where; 24 for never. */
  function Time(x: nat, y: nat): nat
    requires In(x, y)
  {
    if y == 0 then Pick(x, 24, 0, 18, 6, 12)
    else if y == 1 then Pick(x, 7, 23, 2, 9, 22)
    else if y == 2 then Pick(x, 1, 3, 17, 16, 20)
    else if y == 3 then Pick(x, 13, 8, 4, 5, 15)
    else Pick(x, 19, 10, 21, 14, 11)
  }

  lemma Times()
    ensures Time(0, 0) == 24 && Time(1, 0) == 0 && Time(2, 0) == 18 && Time(3, 0) == 6 && Time(4, 0) == 12
    ensures Time(0, 1) == 7 && Time(1, 1) == 23 && Time(2, 1) == 2 && Time(3, 1) == 9 && Time(4, 1) == 22
    ensures Time(0, 2) == 1 && Time(1, 2) == 3 && Time(2, 2) == 17 && Time(3, 2) == 16 && Time(4, 2) == 20
    ensures Time(0, 3) == 13 && Time(1, 3) == 8 && Time(2, 3) == 4 && Time(3, 3) == 5 && Time(4, 3) == 15
    ensures Time(0, 4) == 19 && Time(1, 4) == 10 && Time(2, 4) == 21 && Time(3, 4) == 14 && Time(4, 4) == 11
  {
  }

  lemma WalkStep(t: nat, x: nat, y: nat, v: nat)
    requires In(x, y) && WalkAt(t) == (x, y) && v == Fold(2 * x + 3 * y)
    ensures WalkAt(t + 1) == (y, v)
  {
    FoldIs(2 * x + 3 * y);
  }

  lemma Visits0(t: nat)
    requires WalkAt(t) == (1, 0)
    ensures WalkAt(t + 1) == (0, 2)
    ensures WalkAt(t + 2) == (2, 1)
    ensures WalkAt(t + 3) == (1, 2)
    ensures WalkAt(t + 4) == (2, 3)
    ensures WalkAt(t + 5) == (3, 3)
    ensures WalkAt(t + 6) == (3, 0)
  {
    hide WalkAt;
    WalkStep(t, 1, 0, 2);
    WalkStep(t + 1, 0, 2, 1);
    WalkStep(t + 2, 2, 1, 2);
    WalkStep(t + 3, 1, 2, 3);
    WalkStep(t + 4, 2, 3, 3);
    WalkStep(t + 5, 3, 3, 0);
  }

  lemma Visits6(t: nat)
    requires WalkAt(t) == (3, 0)
    ensures WalkAt(t + 1) == (0, 1)
    ensures WalkAt(t + 2) == (1, 3)
    ensures WalkAt(t + 3) == (3, 1)
    ensures WalkAt(t + 4) == (1, 4)
    ensures WalkAt(t + 5) == (4, 4)
    ensures WalkAt(t + 6) == (4, 0)
  {
    hide WalkAt;
    WalkStep(t, 3, 0, 1);
    WalkStep(t + 1, 0, 1, 3);
    WalkStep(t + 2, 1, 3, 1);
    WalkStep(t + 3, 3, 1, 4);
    WalkStep(t + 4, 1, 4, 4);
    WalkStep(t + 5, 4, 4, 0);
  }

  lemma Visits12(t: nat)
    requires WalkAt(t) == (4, 0)
    ensures WalkAt(t + 1) == (0, 3)
    ensures WalkAt(t + 2) == (3, 4)
    ensures WalkAt(t + 3) == (4, 3)
    ensures WalkAt(t + 4) == (3, 2)
    ensures WalkAt(t + 5) == (2, 2)
    ensures WalkAt(t + 6) == (2, 0)
  {
    hide WalkAt;
    WalkStep(t, 4, 0, 3);
    WalkStep(t + 1, 0, 3, 4);
    WalkStep(t + 2, 3, 4, 3);
    WalkStep(t + 3, 4, 3, 2);
    WalkStep(t + 4, 3, 2, 2);
    WalkStep(t + 5, 2, 2, 0);
  }

  lemma Visits18(t: nat)
    requires WalkAt(t) == (2, 0)
    ensures WalkAt(t + 1) == (0, 4)
    ensures WalkAt(t + 2) == (4, 2)
    ensures WalkAt(t + 3) == (2, 4)
    ensures WalkAt(t + 4) == (4, 1)
    ensures WalkAt(t + 5) == (1, 1)
    ensures WalkAt(t + 6) == (1, 0)
  {
    hide WalkAt;
    WalkStep(t, 2, 0, 4);
    WalkStep(t + 1, 0, 4, 2);
    WalkStep(t + 2, 4, 2, 4);
    WalkStep(t + 3, 2, 4, 1);
    WalkStep(t + 4, 4, 1, 1);
    WalkStep(t + 5, 1, 1, 0);
  }

  lemma Start0(t: nat)
    requires t == 0
    ensures WalkAt(t) == (1, 0)
  {
  }

  lemma TimeOf(t: nat)
    requires t < 24
    ensures Time(WalkAt(t).0, WalkAt(t).1) == t
  {
    hide WalkAt, Time;
    Times();
    Start0(0);
    Visits0(0);
    Visits6(6);
    Visits12(12);
    Visits18(18);
  }

  lemma {:induction false} FoundAt(s: nat, t: nat)
    requires s <= t < 24
    ensures OffsetFrom(WalkAt(t).0, WalkAt(t).1, s) == Distance(t)
    decreases t - s
  {
    hide WalkAt, Time, Distance;
    TimeOf(s);
    TimeOf(t);
    if s < t { FoundAt(s + 1, t); }
  }

  /** The lane visited at `t` is rotated by its triangular number, and the walk visits every lane but one. */
  lemma OffsetVisited(t: nat, x: nat, y: nat, d: nat)
    requires t < 24 && WalkAt(t) == (x, y) && Distance(t) == d
    ensures In(x, y) && Offset(x, y) == d
  {
    hide WalkAt, Distance;
    FoundAt(0, t);
  }

  lemma {:induction false} NeverVisited(t: nat)
    ensures OffsetFrom(0, 0, t) == 0
    decreases 24 - t
  {
    hide WalkAt, Time, Distance;
    if t < 24 {
      TimeOf(t);
      Times();
      NeverVisited(t + 1);
    }
  }

  /** The rotations the program's unrolled rounds use. */
  lemma OffsetValues()
    ensures Offset(0, 0) == 0 && Offset(1, 0) == 1 && Offset(2, 0) == 62 && Offset(3, 0) == 28 && Offset(4, 0) == 27
    ensures Offset(0, 1) == 36 && Offset(1, 1) == 44 && Offset(2, 1) == 6 && Offset(3, 1) == 55 && Offset(4, 1) == 20
    ensures Offset(0, 2) == 3 && Offset(1, 2) == 10 && Offset(2, 2) == 43 && Offset(3, 2) == 25 && Offset(4, 2) == 39
    ensures Offset(0, 3) == 41 && Offset(1, 3) == 45 && Offset(2, 3) == 15 && Offset(3, 3) == 21 && Offset(4, 3) == 8
    ensures Offset(0, 4) == 18 && Offset(1, 4) == 2 && Offset(2, 4) == 61 && Offset(3, 4) == 56 && Offset(4, 4) == 14
  {
    hide WalkAt, Time, OffsetFrom, Distance;
    Start0(0);
    Visits0(0);
    Visits6(6);
    Visits12(12);
    Visits18(18);
    Distances();
    NeverVisited(0);
    OffsetVisited(0, 1, 0, 1);
    OffsetVisited(1, 0, 2, 3);
    OffsetVisited(2, 2, 1, 6);
    OffsetVisited(3, 1, 2, 10);
    OffsetVisited(4, 2, 3, 15);
    OffsetVisited(5, 3, 3, 21);
    OffsetVisited(6, 3, 0, 28);
    OffsetVisited(7, 0, 1, 36);
    OffsetVisited(8, 1, 3, 45);
    OffsetVisited(9, 3, 1, 55);
    OffsetVisited(10, 1, 4, 2);
    OffsetVisited(11, 4, 4, 14);
    OffsetVisited(12, 4, 0, 27);
    OffsetVisited(13, 0, 3, 41);
    OffsetVisited(14, 3, 4, 56);
    OffsetVisited(15, 4, 3, 8);
    OffsetVisited(16, 3, 2, 25);
    OffsetVisited(17, 2, 2, 43);
    OffsetVisited(18, 2, 0, 62);
    OffsetVisited(19, 0, 4, 18);
    OffsetVisited(20, 4, 2, 39);
    OffsetVisited(21, 2, 4, 61);
    OffsetVisited(22, 4, 1, 20);
    OffsetVisited(23, 1, 1, 44);
  }

  lemma Distances()
    ensures Distance(0) == 1 && Distance(1) == 3 && Distance(2) == 6 && Distance(3) == 10 && Distance(4) == 15 && Distance(5) == 21 && Distance(6) == 28 && Distance(7) == 36
    ensures Distance(8) == 45 && Distance(9) == 55 && Distance(10) == 2 && Distance(11) == 14 && Distance(12) == 27 && Distance(13) == 41 && Distance(14) == 56 && Distance(15) == 8
    ensures Distance(16) == 25 && Distance(17) == 43 && Distance(18) == 62 && Distance(19) == 18 && Distance(20) == 39 && Distance(21) == 61 && Distance(22) == 20 && Distance(23) == 44
  {
  }
}
