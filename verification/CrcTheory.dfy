/** What the checksum loop computes: the bridge from machine words to polynomials. */
module CrcTheory {
  import opened Basics
  import opened Crc
  import opened Polynomials

  // ---------- Machine words as polynomials ----------

  // The word operations of the checksum loop, named so that the proofs below can hide them.

  function Top(c: bv16): bool {
    c & 0x8000 != 0
  }

  function Shl(c: bv16): bv16 {
    c << 1
  }

  function Xor(c: bv16, d: bv16): bv16 {
    c ^ d
  }

  /** A byte moved to the upper half of a word. */
  function Upper(b: bv8): bv16 {
    (b as bv16) << 8
  }

  /** The n most significant bits of a word, and the word after they have been shifted out. */
  function TopBits(c: bv16, n: nat): (bits: Poly)
    ensures |bits| == n
    decreases n
  {
    if n == 0 then [] else [Top(c)] + TopBits(Shl(c), n - 1)
  }

  function Shifted(c: bv16, n: nat): bv16
    decreases n
  {
    if n == 0 then c else Shifted(Shl(c), n - 1)
  }

  function Bits16(c: bv16): (bits: Poly)
    ensures |bits| == 16
  {
    TopBits(c, 16)
  }

  /** The bits of a byte, taken from the top of a word as the checksum loop takes them. */
  function Bits8(b: bv8): (bits: Poly)
    ensures |bits| == 8
  {
    TopBits(Upper(b), 8)
  }

  /** A byte string as one polynomial, most significant bit first. */
  function MessageBits(bytes: Bytes): (bits: Poly)
    ensures |bits| == 8 * |bytes|
  {
    if bytes == [] then [] else MessageBits(bytes[..|bytes| - 1]) + Bits8(bytes[|bytes| - 1])
  }

  lemma MessageBitsSnoc(bytes: Bytes, b: bv8)
    ensures MessageBits(bytes + [b]) == MessageBits(bytes) + Bits8(b)
  {
    hide Bits8;
    assert (bytes + [b])[..|bytes|] == bytes;
  }

  lemma {:induction false} MessageBitsConcat(a: Bytes, b: Bytes)
    ensures MessageBits(a + b) == MessageBits(a) + MessageBits(b)
  {
    hide Bits8;
    if b == [] {
      assert a + b == a;
    } else {
      var init := b[..|b| - 1];
      assert (a + b)[..|a + b| - 1] == a + init;
      MessageBitsConcat(a, init);
    }
  }

  lemma ShlXor(c: bv16, d: bv16)
    ensures Shl(Xor(c, d)) == Xor(Shl(c), Shl(d))
  {
    ShiftXor(c, d);
  }

  lemma ShiftXor(c: bv16, d: bv16)
    ensures (c ^ d) << 1 == (c << 1) ^ (d << 1)
  {
  }

  lemma TopXor(c: bv16, d: bv16)
    ensures Top(Xor(c, d)) == (Top(c) != Top(d))
  {
  }

  lemma ZeroWord()
    ensures Shl(0) == 0 && !Top(0)
  {
  }

  lemma {:induction false} TopBitsXor(c: bv16, d: bv16, n: nat)
    ensures TopBits(Xor(c, d), n) == Add(TopBits(c, n), TopBits(d, n))
    decreases n
  {
    hide Top, Shl, Xor;
    if n > 0 {
      ShlXor(c, d);
      TopXor(c, d);
      TopBitsXor(Shl(c), Shl(d), n - 1);
    }
  }

  lemma {:induction false} TopBitsZero(n: nat)
    ensures TopBits(0, n) == Zeros(n)
    decreases n
  {
    hide Top, Shl, Xor;
    if n > 0 {
      ZeroWord();
      TopBitsZero(n - 1);
    }
  }

  lemma {:induction false} TopBitsConcat(c: bv16, m: nat, n: nat)
    ensures TopBits(c, m + n) == TopBits(c, m) + TopBits(Shifted(c, m), n)
    decreases m
  {
    hide Top, Shl, Xor;
    if m > 0 {
      TopBitsConcat(Shl(c), m - 1, n);
    }
  }

  lemma {:induction false} ShiftedConcat(c: bv16, m: nat, n: nat)
    ensures Shifted(c, m + n) == Shifted(Shifted(c, m), n)
    decreases m
  {
    hide Top, Shl, Xor;
    if m > 0 {
      ShiftedConcat(Shl(c), m - 1, n);
    }
  }

  lemma Shifted4(c: bv16)
    ensures Shifted(c, 4) == Shl(Shl(Shl(Shl(c))))
  {
    hide Top, Shl, Xor;
  }

  lemma Shl4(c: bv16)
    ensures Shl(Shl(Shl(Shl(c)))) == c << 4
  {
  }

  lemma Shift4Twice(c: bv16)
    ensures (c << 4) << 4 == c << 8
    ensures (c << 8) << 8 == 0
  {
  }

  lemma Shifted8(c: bv16)
    ensures Shifted(c, 8) == c << 8
  {
    hide Top, Shl, Xor;
    ShiftedConcat(c, 4, 4);
    Shifted4(c);
    Shl4(c);
    Shifted4(c << 4);
    Shl4(c << 4);
    Shift4Twice(c);
  }

  lemma Shifted16(c: bv16)
    ensures Shifted(c, 16) == 0
  {
    hide Top, Shl, Xor, Shifted;
    ShiftedConcat(c, 8, 8);
    Shifted8(c);
    Shifted8(c << 8);
    Shift4Twice(c);
  }

  /** A word shifted by one place loses its first bit and gains a zero. */
  lemma BitsOfShl(c: bv16)
    ensures Bits16(Shl(c)) == Bits16(c)[1..] + [false]
    ensures Bits16(c)[0] == Top(c)
  {
    hide Top, Shl, Shifted, TopBits;
    TopBitsConcat(c, 16, 1);
    Shifted16(c);
    TopBitsZero(1);
    TopBitsUnfold(c, 16);
    TopBitsUnfold(c, 15);
    assert [Top(c)] + TopBits(Shl(c), 16) == TopBits(c, 16) + [false];
    assert ([Top(c)] + TopBits(Shl(c), 16))[1..] == TopBits(Shl(c), 16);
  }

  lemma TapWords()
    ensures Shl(0x1021) == 0x2042 && !Top(0x1021)
    ensures Shl(0x2042) == 0x4084 && !Top(0x2042)
    ensures Shl(0x4084) == 0x8108 && !Top(0x4084)
    ensures Shl(0x8108) == 0x0210 && Top(0x8108)
    ensures Shl(0x0210) == 0x0420 && !Top(0x0210)
    ensures Shl(0x0420) == 0x0840 && !Top(0x0420)
    ensures Shl(0x0840) == 0x1080 && !Top(0x0840)
    ensures Shl(0x1080) == 0x2100 && !Top(0x1080)
    ensures Shl(0x2100) == 0x4200 && !Top(0x2100)
    ensures Shl(0x4200) == 0x8400 && !Top(0x4200)
    ensures Shl(0x8400) == 0x0800 && Top(0x8400)
    ensures Shl(0x0800) == 0x1000 && !Top(0x0800)
    ensures Shl(0x1000) == 0x2000 && !Top(0x1000)
    ensures Shl(0x2000) == 0x4000 && !Top(0x2000)
    ensures Shl(0x4000) == 0x8000 && !Top(0x4000)
    ensures Shl(0x8000) == 0 && Top(0x8000)
  {
  }

  lemma TopBitsUnfold(c: bv16, n: nat)
    ensures TopBits(c, n + 1) == [Top(c)] + TopBits(Shl(c), n)
  {
  }

  lemma TapsAreGenerator()
    ensures Bits16(0x1021) == GENERATOR[1..]
  {
    hide Top, Shl, TopBits;
    TapWords();
    TopBitsUnfold(0x1021, 15);
    TopBitsUnfold(0x2042, 14);
    TopBitsUnfold(0x4084, 13);
    TopBitsUnfold(0x8108, 12);
    TopBitsUnfold(0x0210, 11);
    TopBitsUnfold(0x0420, 10);
    TopBitsUnfold(0x0840, 9);
    TopBitsUnfold(0x1080, 8);
    TopBitsUnfold(0x2100, 7);
    TopBitsUnfold(0x4200, 6);
    TopBitsUnfold(0x8400, 5);
    TopBitsUnfold(0x0800, 4);
    TopBitsUnfold(0x1000, 3);
    TopBitsUnfold(0x2000, 2);
    TopBitsUnfold(0x4000, 1);
    TopBitsUnfold(0x8000, 0);
    TopBitsZero(0);
  }

  lemma BitStepCases(c: bv16)
    ensures BitStep(c) == if Top(c) then Xor(Shl(c), 0x1021) else Shl(c)
  {
  }

  /** One turn of the inner loop multiplies the register by x modulo the generator. */
  lemma BitStepIsTimesX(c: bv16)
    ensures Bits16(BitStep(c)) == TimesX(Bits16(c))
  {
    hide Top, Shl, Xor, BitStep, TopBits;
    BitStepCases(c);
    BitsOfShl(c);
    TopBitsXor(Shl(c), 0x1021, 16);
    TapsAreGenerator();
    assert Bits16(Xor(Shl(c), 0x1021)) == Add(Bits16(Shl(c)), Bits16(0x1021));
    assert Add(Bits16(Shl(c)), Zeros(16)) == Bits16(Shl(c));
  }

  lemma {:induction false} BitStepsIsTimesXs(c: bv16, n: nat)
    ensures Bits16(BitSteps(c, n)) == TimesXs(Bits16(c), n)
  {
    hide BitStep, Bits16, TimesX;
    if n > 0 {
      BitStepsIsTimesXs(c, n - 1);
      BitStepIsTimesX(BitSteps(c, n - 1));
    }
  }

  lemma {:induction false} BitsDetermineWord(c: bv16, d: bv16)
    requires Bits16(c) == Bits16(d)
    ensures c == d
  {
    hide Xor, Shifted, TopBits;
    TopBitsXor(c, d, 16);
    Shifted16(Xor(c, d));
    assert TopBits(Xor(c, d), 16) == Zeros(16);
    ZeroBitsZeroWord(Xor(c, d), 16);
    XorZero(c, d);
  }

  lemma XorSame(c: bv16)
    ensures Xor(c, c) == 0
  {
  }

  lemma XorTwice(c: bv16, d: bv16)
    ensures Xor(Xor(c, d), d) == c
  {
  }

  lemma XorIntoZero(c: bv16)
    ensures Xor(0, c) == c
  {
  }

  lemma XorCommutes(c: bv16, d: bv16)
    ensures Xor(c, d) == Xor(d, c)
  {
  }

  lemma XorZero(c: bv16, d: bv16)
    ensures Xor(c, d) == 0 <==> c == d
  {
    hide Xor;
    XorSame(c);
    XorTwice(c, d);
    XorIntoZero(d);
  }

  lemma XorUnchanged(c: bv16, d: bv16)
    ensures Xor(c, d) == c <==> d == 0
  {
    hide Xor;
    XorCommutes(c, d);
    XorTwice(d, c);
    XorSame(c);
    XorIntoZero(c);
  }

  lemma ShlZero(c: bv16)
    requires !Top(c) && Shl(c) == 0
    ensures c == 0
  {
  }

  lemma {:induction false} ZeroBitsZeroWord(c: bv16, n: nat)
    requires TopBits(c, n) == Zeros(n) && Shifted(c, n) == 0
    ensures c == 0
    decreases n
  {
    hide Top, Shl;
    if n > 0 {
      assert TopBits(c, n)[0] == Top(c) && TopBits(c, n)[1..] == TopBits(Shl(c), n - 1);
      assert Zeros(n)[1..] == Zeros(n - 1);
      ZeroBitsZeroWord(Shl(c), n - 1);
      ShlZero(c);
    }
  }

  // ---------- Bytes ----------

  function XorByte(a: bv8, b: bv8): bv8 {
    a ^ b
  }

  lemma UpperXor(a: bv8, b: bv8)
    ensures Upper(XorByte(a, b)) == Xor(Upper(a), Upper(b))
  {
  }

  lemma UpperOut(b: bv8)
    ensures Upper(b) << 8 == 0
  {
  }

  lemma {:induction false} ByteXor(a: bv8, b: bv8)
    ensures Bits8(XorByte(a, b)) == Add(Bits8(a), Bits8(b))
  {
    hide XorByte, Xor, Upper, TopBits;
    UpperXor(a, b);
    TopBitsXor(Upper(a), Upper(b), 8);
  }

  lemma ByteInPlace(b: bv8)
    ensures Bits16(Upper(b)) == Bits8(b) + Zeros(8)
  {
    hide Upper, TopBits, Shifted;
    TopBitsConcat(Upper(b), 8, 8);
    Shifted8(Upper(b));
    UpperOut(b);
    TopBitsZero(8);
  }

  lemma ByteStepCases(c: bv16, b: bv8)
    ensures ByteStep(c, b) == BitSteps(Xor(c, Upper(b)), 8)
  {
    hide BitSteps;
  }

  /** One turn of the outer loop feeds the eight bits of its byte to the long division. */
  lemma ByteStepIsSerial(c: bv16, b: bv8)
    ensures Bits16(ByteStep(c, b)) == Serial(Bits16(c), Bits8(b))
  {
    hide ByteStep, BitSteps, Xor, Upper, TopBits, TimesXs, Serial;
    ByteStepCases(c, b);
    BitStepsIsTimesXs(Xor(c, Upper(b)), 8);
    TopBitsXor(c, Upper(b), 16);
    ByteInPlace(b);
    var w := Bits8(b) + Zeros(8);
    WordIsSerial(Bits16(c), w, 8);
    assert w[..8] == Bits8(b);
    var r := Serial(Bits16(c), Bits8(b));
    assert Add(r, w[8..] + Zeros(8)) == r;
  }

  lemma {:induction false} CrcIsSerial(c: bv16, bytes: Bytes)
    ensures Bits16(CrcFrom(c, bytes)) == Serial(Bits16(c), MessageBits(bytes))
  {
    hide ByteStep, Bits16, Bits8, Serial;
    if bytes == [] {
      assert Serial(Bits16(c), []) == Bits16(c) by { SerialNone(Bits16(c)); }
    } else {
      var init, b := bytes[..|bytes| - 1], bytes[|bytes| - 1];
      CrcIsSerial(c, init);
      ByteStepIsSerial(CrcFrom(c, init), b);
      SerialConcat(Bits16(c), MessageBits(init), Bits8(b));
    }
  }

  lemma SerialNone(r: Poly)
    requires |r| == 16
    ensures Serial(r, []) == r
  {
  }

  /** The checksum is the one remainder of M(x) * x^16 modulo the generator, for every message M. */
  lemma CrcIsRemainder(bytes: Bytes, r: Poly)
    ensures IsRemainder(MessageBits(bytes), r) <==> r == Bits16(Checksum(bytes))
  {
    hide TopBits, Serial, MessageBits;
    CrcIsSerial(0, bytes);
    TopBitsZero(16);
    SerialIsRemainder(MessageBits(bytes), r);
  }

  // ---------- The two bytes of a checksum ----------

  function HighByte(c: bv16): bv8 {
    (c >> 8) as bv8
  }

  function LowByte(c: bv16): bv8 {
    (c & 0xFF) as bv8
  }

  function Lower(c: bv16): bv16 {
    c & 0xFF
  }

  lemma HighPart(c: bv16)
    ensures Xor(Upper(HighByte(c)), Lower(c)) == c
    ensures c << 8 == Upper(LowByte(c))
  {
  }

  lemma LowHalf(c: bv16, w: bv16)
    requires w == Lower(c)
    ensures !Top(w)
    ensures !Top(Shl(w))
    ensures !Top(Shl(Shl(w)))
    ensures !Top(Shl(Shl(Shl(w))))
    ensures !Top(Shl(Shl(Shl(Shl(w)))))
    ensures !Top(Shl(Shl(Shl(Shl(Shl(w))))))
    ensures !Top(Shl(Shl(Shl(Shl(Shl(Shl(w)))))))
    ensures !Top(Shl(Shl(Shl(Shl(Shl(Shl(Shl(w))))))))
  {
  }

  lemma LowHalfBits(c: bv16)
    ensures TopBits(Lower(c), 8) == Zeros(8)
  {
    var w := Lower(c);
    LowHalf(c, w);
    hide Lower, Top, Shl, TopBits;
    TopBitsUnfold(w, 7);
    TopBitsUnfold(Shl(w), 6);
    TopBitsUnfold(Shl(Shl(w)), 5);
    TopBitsUnfold(Shl(Shl(Shl(w))), 4);
    TopBitsUnfold(Shl(Shl(Shl(Shl(w)))), 3);
    TopBitsUnfold(Shl(Shl(Shl(Shl(Shl(w))))), 2);
    TopBitsUnfold(Shl(Shl(Shl(Shl(Shl(Shl(w)))))), 1);
    TopBitsUnfold(Shl(Shl(Shl(Shl(Shl(Shl(Shl(w))))))), 0);
    assert TopBits(Shl(Shl(Shl(Shl(Shl(Shl(Shl(Shl(w)))))))), 0) == [];
  }

  lemma {:induction false} WordHalves(c: bv16)
    ensures Bits16(c) == Bits8(HighByte(c)) + Bits8(LowByte(c))
  {
    HighPart(c);
    hide Lower, Top, Shl, Xor, Upper, HighByte, LowByte, TopBits, Shifted;
    TopBitsConcat(c, 8, 8);
    Shifted8(c);
    TopBitsXor(Upper(HighByte(c)), Lower(c), 8);
    LowHalfBits(c);
    assert TopBits(c, 8) == Add(Bits8(HighByte(c)), Zeros(8)) == Bits8(HighByte(c));
  }
}
