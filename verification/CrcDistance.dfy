/**
 Two-bit errors. The powers of x modulo the generator repeat after exactly 32767 steps, so two
 wrong bits cancel each other only at a multiple of that distance.
 */
module CrcDistance {
  import opened Basics
  import opened Crc
  import opened Polynomials
  import opened CrcTheory
  import opened CrcDetection

  const PERIOD: nat := 32767

  /** x^k modulo the generator. */
  function Power(k: nat): bv16 {
    BitSteps(1, k)
  }

  // ---------- Multiplication modulo the generator, on words ----------

  function Horner(r: bv16, a: bv16, bit: bool): bv16 {
    if bit then Xor(BitStep(r), a) else BitStep(r)
  }

  function Horner4(r: bv16, a: bv16, b: bv16): bv16 {
    Horner(Horner(Horner(Horner(r, a, b & 0x8000 != 0), a, b & 0x4000 != 0), a, b & 0x2000 != 0), a, b & 0x1000 != 0)
  }

  function MulWord(a: bv16, b: bv16): bv16 {
    Horner4(Horner4(Horner4(Horner4(0, a, b), a, Left4(b)), a, Left8(b)), a, Left12(b))
  }

  function Left4(b: bv16): bv16 {
    b << 4
  }

  function Left8(b: bv16): bv16 {
    b << 8
  }

  function Left12(b: bv16): bv16 {
    b << 12
  }

  /** The word r with the top nibble of b appended. */
  function Append(r: bv16, b: bv16): bv16 {
    (r << 4) ^ (b >> 12)
  }

  predicate Fits(r: bv16) {
    r & 0xF000 == 0
  }

  lemma {:induction false} BitStepXor(c: bv16, d: bv16)
    ensures BitStep(Xor(c, d)) == Xor(BitStep(c), BitStep(d))
  {
    hide Xor, BitStep, TopBits, TimesX;
    BitStepIsTimesX(c);
    BitStepIsTimesX(d);
    BitStepIsTimesX(Xor(c, d));
    BitsOfXor(c, d);
    BitsOfXor(BitStep(c), BitStep(d));
    TimesXAdd(Bits16(c), Bits16(d));
    BitsDetermineWord(BitStep(Xor(c, d)), Xor(BitStep(c), BitStep(d)));
  }

  lemma {:induction false} BitStepsXor(c: bv16, d: bv16, k: nat)
    ensures BitSteps(Xor(c, d), k) == Xor(BitSteps(c, k), BitSteps(d, k))
  {
    hide Xor, BitStep;
    if k > 0 {
      BitStepsXor(c, d, k - 1);
      BitStepXor(BitSteps(c, k - 1), BitSteps(d, k - 1));
    }
  }

  lemma {:induction false} BitStepsConcat(c: bv16, m: nat, n: nat)
    ensures BitSteps(BitSteps(c, m), n) == BitSteps(c, m + n)
  {
    hide BitStep;
    if n > 0 {
      BitStepsConcat(c, m, n - 1);
    }
  }

  lemma StepFirst(c: bv16, k: nat)
    ensures BitSteps(BitStep(c), k) == BitStep(BitSteps(c, k)) == BitSteps(c, k + 1)
  {
    hide BitStep, BitSteps;
    BitStepsNone(c);
    BitStepsMore(c, 0);
    BitStepsMore(c, k);
    BitStepsConcat(c, 1, k);
  }

  lemma {:induction false} HornerSteps(r: bv16, a: bv16, bit: bool, k: nat)
    ensures BitSteps(Horner(r, a, bit), k) == Horner(BitSteps(r, k), BitSteps(a, k), bit)
  {
    hide Xor, BitStep, BitSteps;
    StepFirst(r, k);
    if bit {
      BitStepsXor(BitStep(r), a, k);
    }
  }

  lemma {:induction false} Horner4Steps(r: bv16, a: bv16, b: bv16, k: nat)
    ensures BitSteps(Horner4(r, a, b), k) == Horner4(BitSteps(r, k), BitSteps(a, k), b)
  {
    var b0, b1, b2, b3 := b & 0x8000 != 0, b & 0x4000 != 0, b & 0x2000 != 0, b & 0x1000 != 0;
    hide BitSteps, Horner;
    var r1 := Horner(r, a, b0);
    var r2 := Horner(r1, a, b1);
    var r3 := Horner(r2, a, b2);
    HornerSteps(r, a, b0, k);
    HornerSteps(r1, a, b1, k);
    HornerSteps(r2, a, b2, k);
    HornerSteps(r3, a, b3, k);
  }

  lemma {:induction false} ZeroSteps(k: nat)
    ensures BitSteps(0, k) == 0
  {
    if k > 0 {
      ZeroSteps(k - 1);
      ZeroStep();
    }
  }

  lemma ZeroStep()
    ensures BitStep(0) == 0
  {
  }

  lemma {:induction false} MulWordSteps(a: bv16, b: bv16, k: nat)
    ensures BitSteps(MulWord(a, b), k) == MulWord(BitSteps(a, k), b)
  {
    var b1, b2, b3 := Left4(b), Left8(b), Left12(b);
    hide Left4, Left8, Left12, BitSteps, Horner4;
    var r1 := Horner4(0, a, b);
    var r2 := Horner4(r1, a, b1);
    var r3 := Horner4(r2, a, b2);
    ZeroSteps(k);
    Horner4Steps(0, a, b, k);
    Horner4Steps(r1, a, b1, k);
    Horner4Steps(r2, a, b2, k);
    Horner4Steps(r3, a, b3, k);
  }

  /** Without overflow, Horner's rule with factor one just moves a nibble in. */
  lemma HornerOne(r: bv16, b: bv16)
    requires Fits(r)
    ensures Horner4(r, 1, b) == Append(r, b)
  {
  }

  lemma NibblesFit(b: bv16)
    ensures Fits(0)
    ensures Fits(Append(0, b))
    ensures Fits(Append(Append(0, b), Left4(b)))
    ensures Fits(Append(Append(Append(0, b), Left4(b)), Left8(b)))
    ensures Append(Append(Append(Append(0, b), Left4(b)), Left8(b)), Left12(b)) == b
  {
  }

  lemma {:induction false} MulWordOne(b: bv16)
    ensures MulWord(1, b) == b
  {
    NibblesFit(b);
    hide Horner4, Fits, Append, Left4, Left8, Left12;
    HornerOne(0, b);
    HornerOne(Append(0, b), Left4(b));
    HornerOne(Append(Append(0, b), Left4(b)), Left8(b));
    HornerOne(Append(Append(Append(0, b), Left4(b)), Left8(b)), Left12(b));
  }

  /** x^(m+n) = x^m * x^n */
  lemma PowerSum(m: nat, n: nat)
    ensures Power(m + n) == MulWord(Power(m), Power(n))
  {
    hide BitSteps, MulWord;
    BitStepsConcat(1, n, m);
    MulWordOne(Power(n));
    MulWordSteps(1, Power(n), m);
  }

  // ---------- The period ----------

  lemma Squares()
    ensures MulWord(0x0002, 0x0002) == 0x0004
    ensures MulWord(0x0004, 0x0004) == 0x0010
    ensures MulWord(0x0010, 0x0010) == 0x0100
    ensures MulWord(0x0100, 0x0100) == 0x1021
    ensures MulWord(0x1021, 0x1021) == 0x3730
    ensures MulWord(0x3730, 0x3730) == 0xB861
    ensures MulWord(0xB861, 0xB861) == 0xAEFC
    ensures MulWord(0xAEFC, 0xAEFC) == 0x8E29
    ensures MulWord(0x8E29, 0x8E29) == 0x13FC
    ensures MulWord(0x13FC, 0x13FC) == 0x36C4
    ensures MulWord(0x36C4, 0x36C4) == 0xFD50
    ensures MulWord(0xFD50, 0xFD50) == 0xAA9E
    ensures MulWord(0xAA9E, 0xAA9E) == 0x881C
    ensures MulWord(0x881C, 0x881C) == 0x4458
    ensures MulWord(0x4458, 0x4458) == 0x0002
  {
  }

  /** x^(2^i) for i = 0 .. 15, by repeated squaring. */
  lemma PowersOfTwo()
    ensures Power(1) == 0x0002
    ensures Power(2) == 0x0004
    ensures Power(4) == 0x0010
    ensures Power(8) == 0x0100
    ensures Power(16) == 0x1021
    ensures Power(32) == 0x3730
    ensures Power(64) == 0xB861
    ensures Power(128) == 0xAEFC
    ensures Power(256) == 0x8E29
    ensures Power(512) == 0x13FC
    ensures Power(1024) == 0x36C4
    ensures Power(2048) == 0xFD50
    ensures Power(4096) == 0xAA9E
    ensures Power(8192) == 0x881C
    ensures Power(16384) == 0x4458
    ensures Power(32768) == 0x0002
  {
    PowerOne();
    Squares();
    hide Power, MulWord;
    PowerSum(1, 1);
    PowerSum(2, 2);
    PowerSum(4, 4);
    PowerSum(8, 8);
    PowerSum(16, 16);
    PowerSum(32, 32);
    PowerSum(64, 64);
    PowerSum(128, 128);
    PowerSum(256, 256);
    PowerSum(512, 512);
    PowerSum(1024, 1024);
    PowerSum(2048, 2048);
    PowerSum(4096, 4096);
    PowerSum(8192, 8192);
    PowerSum(16384, 16384);
  }

  lemma PowerOne()
    ensures Power(1) == 0x0002
  {
    BitStepsNone(1);
    BitStepsMore(1, 0);
    OneDoubled();
    hide BitSteps, BitStep;
  }

  lemma OneDoubled()
    ensures BitStep(1) == 0x0002
  {
  }

  lemma Products()
    ensures MulWord(0xAEFC, 0xB861) == 0x650B
    ensures MulWord(0x650B, 0x1021) == 0x45B4
    ensures MulWord(0x45B4, 0x0100) == 0xAC61
    ensures MulWord(0xAC61, 0x0002) == 0x48E3
    ensures MulWord(0x36C4, 0x3730) == 0xF147
    ensures MulWord(0xF147, 0x0002) == 0xF2AF
    ensures MulWord(0xAA9E, 0x13FC) == 0x54A0
    ensures MulWord(0x54A0, 0xB861) == 0x0106
    ensures MulWord(0x0106, 0x0100) == 0x1621
    ensures MulWord(0x1621, 0x0002) == 0x2C42
  {
  }

  /** The three largest proper divisors of the period are not periods. */
  lemma LargeDivisors()
    ensures Power(217) == 0x48E3 && Power(1057) == 0xF2AF && Power(4681) == 0x2C42
  {
    PowersOfTwo();
    Products();
    hide Power, MulWord;
    PowerSum(128, 64);
    PowerSum(192, 16);
    PowerSum(208, 8);
    PowerSum(216, 1);
    PowerSum(1024, 32);
    PowerSum(1056, 1);
    PowerSum(4096, 512);
    PowerSum(4608, 64);
    PowerSum(4672, 8);
    PowerSum(4680, 1);
  }

  lemma StepOnlyZero(w: bv16)
    requires BitStep(w) == 0
    ensures w == 0
  {
  }

  lemma {:induction false} BitStepsInjective(c: bv16, d: bv16, k: nat)
    requires BitSteps(c, k) == BitSteps(d, k)
    ensures c == d
  {
    hide BitStep, Xor;
    if k > 0 {
      var u, v := BitSteps(c, k - 1), BitSteps(d, k - 1);
      BitStepXor(u, v);
      XorZero(BitStep(u), BitStep(v));
      StepOnlyZero(Xor(u, v));
      XorZero(u, v);
      BitStepsInjective(c, d, k - 1);
    }
  }

  ghost predicate IsPeriod(d: nat) {
    Power(d) == 1
  }

  ghost predicate Divides(g: nat, n: nat) {
    exists k: nat :: n == g * k
  }

  lemma PeriodDifference(a: nat, b: nat)
    requires a <= b && IsPeriod(a)
    ensures IsPeriod(b) <==> IsPeriod(b - a)
  {
    hide BitSteps;
    BitStepsConcat(1, a, b - a);
  }

  lemma {:induction false} PeriodMultiple(g: nat, k: nat)
    requires IsPeriod(g)
    ensures IsPeriod(g * k)
  {
    hide Power;
    if k == 0 {
      BitStepsNone(1);
      assert Power(0) == 1 by { PowerZero(); }
    } else {
      PeriodMultiple(g, k - 1);
      assert g * k == g * (k - 1) + g;
      PeriodDifference(g, g * k);
    }
  }

  lemma PowerZero()
    ensures Power(0) == 1
  {
  }

  /** Euclid's algorithm on periods. */
  lemma {:induction false} CommonPeriod(a: nat, b: nat) returns (g: nat)
    requires a > 0 && IsPeriod(a) && IsPeriod(b)
    ensures g > 0 && IsPeriod(g) && Divides(g, a) && Divides(g, b)
    decreases a + b, a
  {
    hide IsPeriod;
    if b == 0 {
      g := a;
      assert a == g * 1 && b == g * 0;
    } else if a <= b {
      PeriodDifference(a, b);
      g := CommonPeriod(a, b - a);
      var k: nat :| a == g * k;
      var m: nat :| b - a == g * m;
      assert b == g * (k + m);
    } else {
      g := CommonPeriod(b, a);
    }
  }

  lemma SmallFactor(k: nat, m: nat)
    requires 2 <= k <= 181 && k * m == 32767
    ensures k == 7 || k == 31 || k == 151
  {
  }

  lemma ProperDivisors(g: nat, k: nat)
    requires g * k == PERIOD && k >= 2
    ensures Divides(g, 217) || Divides(g, 1057) || Divides(g, 4681)
  {
    if k <= 181 {
      SmallFactor(k, g);
      assert g == 4681 || g == 1057 || g == 217;
      assert g == g * 1;
    } else if g == 1 {
      assert 217 == g * 217;
    } else {
      ProductBound(g, k);
      SmallFactor(g, k);
      assert g == 7 ==> 217 == g * 31;
      assert g == 31 ==> 217 == g * 7;
      assert g == 151 ==> 1057 == g * 7;
    }
  }

  lemma ProductBound(g: nat, k: nat)
    requires k > 181 && 0 < g * k < 182 * 182
    ensures 0 < g <= 181
  {
    if g >= 182 {
      ProductMonotone(g, 182, k, 182);
    }
  }

  lemma ProductMonotone(a: nat, b: nat, c: nat, d: nat)
    requires a >= b && c >= d
    ensures a * c >= b * d
  {
    assert a * c == b * c + (a - b) * c;
    assert b * c == b * d + b * (c - d);
  }

  lemma FullPeriod()
    ensures IsPeriod(PERIOD)
  {
    PowersOfTwo();
    hide Power;
    StepFirst(1, PERIOD);
    assert Power(PERIOD + 1) == Power(1);
    PowerAsSteps();
    BitStepsInjective(Power(PERIOD), 1, 1);
  }

  lemma PowerAsSteps()
    ensures Power(PERIOD + 1) == BitSteps(Power(PERIOD), 1) && Power(1) == BitSteps(1, 1)
  {
    BitStepsConcat(1, PERIOD, 1);
    hide BitSteps;
  }

  /** x has order exactly 32767 modulo the generator. */
  lemma {:induction false} PeriodIffMultiple(d: nat)
    ensures IsPeriod(d) <==> d % PERIOD == 0
  {
    hide IsPeriod;
    FullPeriod();
    if d >= PERIOD {
      PeriodDifference(PERIOD, d);
      PeriodIffMultiple(d - PERIOD);
    } else if d == 0 {
      PeriodMultiple(PERIOD, 0);
    } else if IsPeriod(d) {
      var g := CommonPeriod(d, PERIOD);
      var k: nat :| PERIOD == g * k;
      var m: nat :| d == g * m;
      assert m != 0 && k != 0;
      ProductMonotone(g, g, m, 1);
      assert k >= 2;
      ProperDivisors(g, k);
      NoLargeDivisorIsPeriod(g);
      assert false;
    }
  }

  lemma NoLargeDivisorIsPeriod(g: nat)
    requires Divides(g, 217) || Divides(g, 1057) || Divides(g, 4681)
    ensures !IsPeriod(g)
  {
    LargeDivisors();
    hide Power;
    if IsPeriod(g) {
      if Divides(g, 217) {
        var k: nat :| 217 == g * k;
        PeriodMultiple(g, k);
      } else if Divides(g, 1057) {
        var k: nat :| 1057 == g * k;
        PeriodMultiple(g, k);
      } else {
        var k: nat :| 4681 == g * k;
        PeriodMultiple(g, k);
      }
      assert false;
    }
  }

  // ---------- Two wrong bits ----------

  /** The ones of a polynomial are exactly those at i and j. */
  ghost predicate TwoBits(bits: Poly, i: nat, j: nat) {
    i < j < |bits| && forall t :: 0 <= t < |bits| ==> (bits[t] <==> t == i || t == j)
  }

  lemma TopWord()
    ensures Bits16(0x8000) == [true] + Zeros(15)
    ensures Power(15) == 0x8000
  {
    TopWordBits();
    PowersOfTwo();
    FifteenProducts();
    hide Power, MulWord;
    PowerSum(8, 4);
    PowerSum(12, 2);
    PowerSum(14, 1);
  }

  lemma FifteenProducts()
    ensures MulWord(0x0100, 0x0010) == 0x1000
    ensures MulWord(0x1000, 0x0004) == 0x4000
    ensures MulWord(0x4000, 0x0002) == 0x8000
  {
  }

  lemma TopWordBits()
    ensures Bits16(0x8000) == [true] + Zeros(15)
  {
    TopWordShifted();
    hide Top, Shl, TopBits;
    TopBitsUnfold(0x8000, 15);
    TopBitsZero(15);
  }

  lemma TopWordShifted()
    ensures Top(0x8000) && Shl(0x8000) == 0
  {
  }

  /** Long division, expressed on the checksum register. */
  lemma FeedWord(c: bv16, m: bool)
    ensures Feed(Bits16(c), m) == Bits16(BitStep(if m then Xor(c, 0x8000) else c))
  {
    hide Top, Shl, Xor, BitStep, TopBits, TimesX;
    TopWordBits();
    BitsOfXor(c, 0x8000);
    BitStepIsTimesX(Xor(c, 0x8000));
    BitStepIsTimesX(c);
    assert Add(Bits16(c), [true] + Zeros(15)) == [!Bits16(c)[0]] + Bits16(c)[1..];
    assert Bits16(c) == [Bits16(c)[0]] + Bits16(c)[1..];
  }

  lemma {:induction false} SerialZeros(c: bv16, n: nat)
    ensures Serial(Bits16(c), Zeros(n)) == Bits16(BitSteps(c, n))
  {
    hide BitStep, Feed, Bits16;
    if n > 0 {
      SerialZeros(c, n - 1);
      assert Zeros(n)[..n - 1] == Zeros(n - 1);
      FeedWord(BitSteps(c, n - 1), false);
    }
  }

  lemma SerialOne(c: bv16, n: nat)
    ensures Serial(Bits16(c), Zeros(n) + [true]) == Bits16(BitStep(Xor(BitSteps(c, n), 0x8000)))
  {
    hide BitStep, BitSteps, Feed, Bits16, Serial, Xor;
    SerialZeros(c, n);
    SerialSnoc(Bits16(c), Zeros(n), true);
    FeedWord(BitSteps(c, n), true);
  }

  lemma TwoBitRemainder(bits: Poly, i: nat, j: nat)
    requires TwoBits(bits, i, j)
    ensures Serial(Zeros(16), bits)
         == Bits16(BitSteps(BitStep(Xor(BitSteps(0x8000, j - i), 0x8000)), |bits| - j - 1))
  {
    var first, second, rest := Zeros(i) + [true], Zeros(j - i - 1) + [true], Zeros(|bits| - j - 1);
    assert bits == (first + second) + rest;
    hide BitStep, BitSteps, Bits16, Serial, Xor;
    ZeroBits16();
    SerialOne(0, i);
    ZeroSteps(i);
    XorIntoZero(0x8000);
    SerialConcat(Zeros(16), first, second);
    SerialConcat(Zeros(16), first + second, rest);
    var c := BitStep(0x8000);
    StepFirst(0x8000, j - i - 1);
    SerialOne(c, j - i - 1);
    SerialZeros(BitStep(Xor(BitSteps(0x8000, j - i), 0x8000)), |bits| - j - 1);
  }

  /** A two-bit error goes unnoticed exactly when its bits are a multiple of the period apart. */
  lemma {:induction false} TwoBitErrorMissedIff(a: Bytes, e: Bytes, i: nat, j: nat)
    requires |a| == |e| && TwoBits(MessageBits(e), i, j)
    ensures Checksum(XorBytes(a, e)) == Checksum(a) <==> (j - i) % PERIOD == 0
  {
    hide BitStep, BitSteps, Bits16, Serial, Xor, MessageBits, CrcFrom, IsPeriod;
    var d := j - i;
    var rest := 8 * |e| - j - 1;
    var last := Xor(BitSteps(0x8000, d), 0x8000);
    CrcIsSerial(0, e);
    ZeroBits16();
    TwoBitRemainder(MessageBits(e), i, j);
    BitsDetermineWord(Checksum(e), BitSteps(BitStep(last), rest));
    StepFirst(last, rest);
    ZeroSteps(rest + 1);
    if Checksum(e) == 0 {
      BitStepsInjective(last, 0, rest + 1);
    }
    assert Checksum(e) == 0 <==> last == 0;
    XorZero(BitSteps(0x8000, d), 0x8000);
    TopWordReturns(d);
    PeriodIffMultiple(d);
    ChecksumXor(a, e);
    XorUnchanged(Checksum(a), Checksum(e));
  }

  lemma TopWordReturns(d: nat)
    ensures BitSteps(0x8000, d) == 0x8000 <==> IsPeriod(d)
  {
    TopWord();
    hide BitSteps;
    BitStepsConcat(1, 15, d);
    BitStepsConcat(1, d, 15);
    if BitSteps(0x8000, d) == 0x8000 {
      BitStepsInjective(Power(d), 1, 15);
    }
  }

  // ---------- Errors of few bits ----------

  lemma {:induction false} NoOnes(bits: Poly)
    requires Weight(bits) == 0
    ensures forall t :: 0 <= t < |bits| ==> !bits[t]
  {
    if bits != [] {
      NoOnes(bits[..|bits| - 1]);
      assert forall t :: 0 <= t < |bits| - 1 ==> bits[t] == bits[..|bits| - 1][t];
    }
  }

  lemma {:induction false} OneOne(bits: Poly) returns (i: nat)
    requires Weight(bits) == 1
    ensures i < |bits| && forall t :: 0 <= t < |bits| ==> (bits[t] <==> t == i)
  {
    var n := |bits| - 1;
    if bits[n] {
      NoOnes(bits[..n]);
      i := n;
    } else {
      i := OneOne(bits[..n]);
    }
    assert forall t :: 0 <= t < n ==> bits[t] == bits[..n][t];
  }

  lemma {:induction false} TwoOnes(bits: Poly) returns (i: nat, j: nat)
    requires Weight(bits) == 2
    ensures TwoBits(bits, i, j)
  {
    var n := |bits| - 1;
    if bits[n] {
      i := OneOne(bits[..n]);
      j := n;
    } else {
      i, j := TwoOnes(bits[..n]);
    }
    assert forall t :: 0 <= t < n ==> bits[t] == bits[..n][t];
  }

  /** In any body of up to 4095 bytes, one, two or three wrong bits always change the checksum. */
  lemma {:induction false} FewBitErrorsDetected(a: Bytes, e: Bytes)
    requires |a| == |e| <= 4095
    requires 1 <= Weight(MessageBits(e)) <= 3
    ensures Checksum(XorBytes(a, e)) != Checksum(a)
  {
    hide MessageBits, Weight, CrcFrom;
    if Weight(MessageBits(e)) == 2 {
      var i, j := TwoOnes(MessageBits(e));
      TwoBitErrorMissedIff(a, e, i, j);
    } else {
      OddErrorsDetected(a, e);
    }
  }
}
