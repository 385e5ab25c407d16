/** Which errors the checksum detects. */
module CrcDetection {
  import opened Basics
  import opened Crc
  import opened Polynomials
  import opened CrcTheory

  // ---------- Linearity ----------

  /** The byte-wise exclusive or of two equally long strings: a message and an error pattern. */
  function XorBytes(a: Bytes, e: Bytes): (r: Bytes)
    requires |a| == |e|
    ensures |r| == |a|
  {
    if a == [] then []
    else XorBytes(a[..|a| - 1], e[..|e| - 1]) + [XorByte(a[|a| - 1], e[|e| - 1])]
  }

  lemma {:induction false} XorBytesBits(a: Bytes, e: Bytes)
    requires |a| == |e|
    ensures MessageBits(XorBytes(a, e)) == Add(MessageBits(a), MessageBits(e))
  {
    hide Bits8, XorByte;
    if a != [] {
      var n := |a| - 1;
      XorBytesBits(a[..n], e[..n]);
      MessageBitsSnoc(XorBytes(a[..n], e[..n]), XorByte(a[n], e[n]));
      ByteXor(a[n], e[n]);
    }
  }

  lemma TimesXAdd(r: Poly, s: Poly)
    requires |r| == |s| == 16
    ensures TimesX(Add(r, s)) == Add(TimesX(r), TimesX(s))
  {
  }

  lemma FeedAdd(r: Poly, s: Poly, m: bool, n: bool)
    requires |r| == |s| == 16
    ensures Feed(Add(r, s), m != n) == Add(Feed(r, m), Feed(s, n))
  {
    hide TimesX;
    TimesXAdd([r[0] != m] + r[1..], [s[0] != n] + s[1..]);
    assert [Add(r, s)[0] != (m != n)] + Add(r, s)[1..] == Add([r[0] != m] + r[1..], [s[0] != n] + s[1..]);
  }

  lemma {:induction false} SerialAdd(r: Poly, a: Poly, s: Poly, b: Poly)
    requires |r| == |s| == 16 && |a| == |b|
    ensures Serial(Add(r, s), Add(a, b)) == Add(Serial(r, a), Serial(s, b))
  {
    hide Feed;
    if a != [] {
      var n := |a| - 1;
      SerialAdd(r, a[..n], s, b[..n]);
      FeedAdd(Serial(r, a[..n]), Serial(s, b[..n]), a[n], b[n]);
      assert Add(a, b)[..n] == Add(a[..n], b[..n]);
    }
  }

  /** An error changes the checksum by its own checksum, whatever the message. */
  lemma {:induction false} ChecksumXor(a: Bytes, e: Bytes)
    requires |a| == |e|
    ensures Checksum(XorBytes(a, e)) == Xor(Checksum(a), Checksum(e))
  {
    hide Xor, XorBytes, Serial, Bits16, MessageBits, CrcFrom;
    CrcIsSerial(0, a);
    CrcIsSerial(0, e);
    CrcIsSerial(0, XorBytes(a, e));
    ZeroBits16();
    XorBytesBits(a, e);
    SerialAdd(Zeros(16), MessageBits(a), Zeros(16), MessageBits(e));
    assert Add(Zeros(16), Zeros(16)) == Zeros(16);
    BitsOfXor(Checksum(a), Checksum(e));
    BitsDetermineWord(Checksum(XorBytes(a, e)), Xor(Checksum(a), Checksum(e)));
  }

  lemma ZeroBits16()
    ensures Bits16(0) == Zeros(16)
  {
    TopBitsZero(16);
  }

  lemma BitsOfXor(c: bv16, d: bv16)
    ensures Bits16(Xor(c, d)) == Add(Bits16(c), Bits16(d))
  {
    hide Xor, TopBits;
    TopBitsXor(c, d, 16);
  }

  // ---------- Multiples of the generator ----------

  lemma {:induction false} MulZeros(q: Poly)
    requires forall i :: 0 <= i < |q| ==> !q[i]
    ensures Mul(q, GENERATOR) == Zeros(|q| + 16)
  {
    if q != [] {
      var n := |q| - 1;
      MulZeros(q[..n]);
      assert q == q[..n] + [q[n]];
      MulSnoc(q[..n], q[n]);
      assert Zeros(n + 16) + [false] == Zeros(n + 17);
    }
  }

  /** Leading zeros of a multiple of the generator are leading zeros of the factor. */
  lemma {:induction false} LeadingZeros(q: Poly, k: nat)
    requires k <= |q| && forall i :: 0 <= i < k ==> !Mul(q, GENERATOR)[i]
    ensures forall i :: 0 <= i < k ==> !q[i]
  {
    hide Mul;
    if k > 0 {
      var n := |q| - 1;
      assert q == q[..n] + [q[n]];
      MulSnoc(q[..n], q[n]);
      if k <= n {
        LeadingZeros(q[..n], k);
        assert forall i :: 0 <= i < k ==> q[i] == q[..n][i];
      } else {
        LeadingZeros(q[..n], n);
        assert forall i :: 0 <= i < n ==> q[i] == q[..n][i];
        MulZeros(q[..n]);
      }
    }
  }

  /** Trailing zeros of a multiple of the generator are trailing zeros of the factor. */
  lemma {:induction false} TrailingZeros(q: Poly, j: nat)
    requires j <= |q| && forall i :: |q| + 16 - j <= i < |q| + 16 ==> !Mul(q, GENERATOR)[i]
    ensures forall i :: |q| - j <= i < |q| ==> !q[i]
  {
    hide Mul;
    if j > 0 {
      var n := |q| - 1;
      assert q == q[..n] + [q[n]];
      MulSnoc(q[..n], q[n]);
      assert !q[n];
      TrailingZeros(q[..n], j - 1);
      assert forall i :: |q| - j <= i < n ==> q[i] == q[..n][i];
    }
  }

  lemma {:induction false} MulAppendZeros(q: Poly, j: nat)
    ensures Mul(q + Zeros(j), GENERATOR) == Mul(q, GENERATOR) + Zeros(j)
  {
    hide Mul;
    if j == 0 {
      assert q + Zeros(0) == q && Mul(q, GENERATOR) + Zeros(0) == Mul(q, GENERATOR);
    } else {
      MulAppendZeros(q, j - 1);
      assert q + Zeros(j) == (q + Zeros(j - 1)) + [false];
      MulSnoc(q + Zeros(j - 1), false);
      assert Zeros(j - 1) + [false] == Zeros(j);
    }
  }

  lemma {:induction false} MulPrependZeros(k: nat, q: Poly)
    ensures Mul(Zeros(k) + q, GENERATOR) == Zeros(k) + Mul(q, GENERATOR)
  {
    hide Mul, Zeros, Add;
    if q == [] {
      MulNothing(k);
    } else {
      var init, t := q[..|q| - 1], q[|q| - 1];
      MulPrependZeros(k, init);
      MulPrependStep(k, init, t);
      assert q == init + [t];
    }
  }

  lemma MulNothing(k: nat)
    ensures Mul(Zeros(k) + [], GENERATOR) == Zeros(k) + Mul([], GENERATOR)
  {
    assert Zeros(k) + [] == Zeros(k);
    MulZeros(Zeros(k));
    MulZeros([]);
  }

  lemma MulPrependStep(k: nat, q: Poly, t: bool)
    requires Mul(Zeros(k) + q, GENERATOR) == Zeros(k) + Mul(q, GENERATOR)
    ensures Mul(Zeros(k) + (q + [t]), GENERATOR) == Zeros(k) + Mul(q + [t], GENERATOR)
  {
    hide Mul, Zeros, Add;
    MulUnfold(Zeros(k) + q, t, GENERATOR);
    MulUnfold(q, t, GENERATOR);
    HornerAfterZeros(k, |q|, Mul(q, GENERATOR), if t then GENERATOR else Zeros(17));
    assert Zeros(k) + (q + [t]) == (Zeros(k) + q) + [t];
  }

  lemma HornerAfterZeros(k: nat, n: nat, product: Poly, multiple: Poly)
    requires |product| == n + 16 && |multiple| == 17
    ensures Add((Zeros(k) + product) + [false], Zeros(k + n) + multiple)
         == Zeros(k) + Add(product + [false], Zeros(n) + multiple)
  {
    hide Add, Zeros;
    ZerosConcat(k, n);
    AddAfterZeros(k, product + [false], Zeros(n) + multiple);
    assert (Zeros(k) + product) + [false] == Zeros(k) + (product + [false]);
    assert (Zeros(k) + Zeros(n)) + multiple == Zeros(k) + (Zeros(n) + multiple);
  }

  lemma ZerosConcat(k: nat, n: nat)
    ensures Zeros(k + n) == Zeros(k) + Zeros(n)
  {
  }

  lemma AddAfterZeros(k: nat, a: Poly, b: Poly)
    requires |a| == |b|
    ensures Add(Zeros(k) + a, Zeros(k) + b) == Zeros(k) + Add(a, b)
  {
  }

  // ---------- Missed errors are the multiples of the generator ----------

  ghost predicate IsFactor(q: Poly, p: Poly) {
    |q| == |p| && Mul(q, GENERATOR) == Zeros(16) + p
  }

  /** p is a multiple of the generator; leading zeros make room for a factor as long as p. */
  ghost predicate IsMultiple(p: Poly) {
    exists q: Poly :: IsFactor(q, p)
  }

  lemma MultipleAfterZeros(k: nat, p: Poly)
    ensures IsMultiple(Zeros(k) + p) <==> IsMultiple(p)
  {
    hide Mul;
    var padded := Zeros(k) + p;
    if IsMultiple(p) {
      var q :| IsFactor(q, p);
      MulPrependZeros(k, q);
      assert Zeros(k) + (Zeros(16) + p) == Zeros(16) + padded;
      assert IsFactor(Zeros(k) + q, padded);
    }
    if IsMultiple(padded) {
      var q :| IsFactor(q, padded);
      assert Zeros(16) + padded == Zeros(k) + (Zeros(16) + p);
      LeadingZeros(q, k);
      assert q == Zeros(k) + q[k..];
      MulPrependZeros(k, q[k..]);
      SameTail(k, Mul(q[k..], GENERATOR), Zeros(16) + p);
      assert IsFactor(q[k..], p);
    }
  }

  lemma SameTail(k: nat, a: Poly, b: Poly)
    requires Zeros(k) + a == Zeros(k) + b
    ensures a == b
  {
    assert (Zeros(k) + a)[k..] == a && (Zeros(k) + b)[k..] == b;
  }

  lemma MultipleBeforeZeros(p: Poly, j: nat)
    ensures IsMultiple(p + Zeros(j)) <==> IsMultiple(p)
  {
    hide Mul;
    var padded := p + Zeros(j);
    assert Zeros(16) + padded == (Zeros(16) + p) + Zeros(j);
    if IsMultiple(p) {
      var q :| IsFactor(q, p);
      MulAppendZeros(q, j);
      assert IsFactor(q + Zeros(j), padded);
    }
    if IsMultiple(padded) {
      var q :| IsFactor(q, padded);
      var init := q[..|p|];
      TrailingZeros(q, j);
      assert q == init + Zeros(j);
      MulAppendZeros(init, j);
      assert (Mul(init, GENERATOR) + Zeros(j))[..|p| + 16] == Mul(init, GENERATOR);
      assert ((Zeros(16) + p) + Zeros(j))[..|p| + 16] == Zeros(16) + p;
      assert IsFactor(init, p);
    }
  }

  /** With remainder zero, the padded message is the quotient times the generator. */
  lemma ZeroRemainder(bits: Poly)
    requires Serial(Zeros(16), bits) == Zeros(16)
    ensures Mul(Quotient(bits), GENERATOR) == bits + Zeros(16)
  {
    hide Mul, Serial, Quotient;
    SerialDivides(bits);
    var product := Mul(Quotient(bits), GENERATOR);
    assert Add(product, Zeros(|bits|) + Zeros(16)) == product;
  }

  /** Long division leaves nothing exactly for the multiples of the generator. */
  lemma {:induction false} ZeroRemainderIffMultiple(bits: Poly)
    ensures Serial(Zeros(16), bits) == Zeros(16) <==> IsMultiple(bits)
  {
    hide Mul, Serial, Quotient;
    MultipleBeforeZeros(bits, 16);
    var padded := bits + Zeros(16);
    if Serial(Zeros(16), bits) == Zeros(16) {
      ZeroRemainder(bits);
      MulPrependZeros(16, Quotient(bits));
      assert IsFactor(Zeros(16) + Quotient(bits), padded);
    }
    if IsMultiple(padded) {
      var q :| IsFactor(q, padded);
      LeadingZeros(q, 16);
      var rest := q[16..];
      assert q == Zeros(16) + rest;
      MulPrependZeros(16, rest);
      SameTail(16, Mul(rest, GENERATOR), padded);
      assert Add(padded, Zeros(|bits|) + Zeros(16)) == padded;
      assert IsDivision(bits, rest, Zeros(16));
      SerialDivides(bits);
      RemainderUnique(bits, rest, Zeros(16), Quotient(bits), Serial(Zeros(16), bits));
    }
  }

  /** An error goes unnoticed if and only if it is a multiple of the generator. */
  lemma {:induction false} ErrorMissedIff(a: Bytes, e: Bytes)
    requires |a| == |e|
    ensures Checksum(XorBytes(a, e)) == Checksum(a) <==> IsMultiple(MessageBits(e))
  {
    hide Serial, Bits16, MessageBits, CrcFrom, IsMultiple, Xor;
    ChecksumXor(a, e);
    XorUnchanged(Checksum(a), Checksum(e));
    CrcIsSerial(0, e);
    ZeroBits16();
    if Bits16(Checksum(e)) == Zeros(16) {
      BitsDetermineWord(Checksum(e), 0);
    }
    ZeroRemainderIffMultiple(MessageBits(e));
  }

  // ---------- Bursts ----------

  /** The ones of a polynomial all lie among the n coefficients from k on. */
  ghost predicate Within(bits: Poly, k: nat, n: nat) {
    forall i :: 0 <= i < |bits| && bits[i] ==> k <= i < k + n
  }

  /** Whether a burst is missed depends on its pattern alone, not on its place. */
  lemma {:induction false} BurstMissedIff(a: Bytes, e: Bytes, k: nat, n: nat)
    requires |a| == |e| && k + n <= 8 * |e| && Within(MessageBits(e), k, n)
    ensures Checksum(XorBytes(a, e)) == Checksum(a) <==> IsMultiple(MessageBits(e)[k..k + n])
  {
    hide MessageBits, CrcFrom, IsMultiple;
    ErrorMissedIff(a, e);
    var bits := MessageBits(e);
    var window, after := bits[k..k + n], Zeros(|bits| - k - n);
    assert bits == (Zeros(k) + window) + after;
    MultipleBeforeZeros(Zeros(k) + window, |bits| - k - n);
    MultipleAfterZeros(k, window);
  }

  /** The only multiple of the generator with up to 16 coefficients is zero. */
  lemma ShortMultiple(p: Poly)
    requires |p| <= 16 && IsMultiple(p)
    ensures forall i :: 0 <= i < |p| ==> !p[i]
  {
    hide Mul;
    var q :| IsFactor(q, p);
    LeadingZeros(q, |p|);
    MulZeros(q);
    forall i | 0 <= i < |p|
      ensures !p[i]
    {
      assert p[i] == (Zeros(16) + p)[16 + i] == Mul(q, GENERATOR)[16 + i];
    }
  }

  /** And with 17, there is the generator itself. */
  lemma SeventeenMultiple(p: Poly)
    requires |p| == 17
    ensures IsMultiple(p) <==> p == GENERATOR || p == Zeros(17)
  {
    GeneratorFactors();
    hide Mul;
    if IsMultiple(p) {
      var q :| IsFactor(q, p);
      LeadingZeros(q, 16);
      assert q == Zeros(16) + [q[16]];
      MulPrependZeros(16, [q[16]]);
      SameTail(16, Mul([q[16]], GENERATOR), p);
    }
    if p == GENERATOR || p == Zeros(17) {
      var q := Zeros(16) + [p == GENERATOR];
      MulPrependZeros(16, [p == GENERATOR]);
      assert IsFactor(q, p);
    }
  }

  lemma GeneratorFactors()
    ensures Mul([true], GENERATOR) == GENERATOR && Mul([false], GENERATOR) == Zeros(17)
  {
    assert [true][..0] == [] && [false][..0] == [];
    assert Mul([], GENERATOR) == Zeros(16);
  }

  /** A non-zero error confined to 16 consecutive bits. */
  ghost predicate Burst(e: Bytes) {
    && (exists i :: 0 <= i < 8 * |e| && MessageBits(e)[i])
    && (exists k: nat :: k <= 8 * |e| && Within(MessageBits(e), k, 16))
  }

  /** Every such error changes the checksum of every message. */
  lemma {:induction false} BurstDetected(a: Bytes, e: Bytes)
    requires |a| == |e| && Burst(e)
    ensures Checksum(XorBytes(a, e)) != Checksum(a)
  {
    hide MessageBits, CrcFrom, IsMultiple;
    var bits := MessageBits(e);
    var k: nat :| k <= |bits| && Within(bits, k, 16);
    var n := if k + 16 <= |bits| then 16 else |bits| - k;
    var i :| 0 <= i < |bits| && bits[i];
    var window := bits[k..k + n];
    assert window[i - k];
    BurstMissedIff(a, e, k, n);
    if IsMultiple(window) {
      ShortMultiple(window);
      assert false;
    }
  }

  /** Of the errors confined to 17 consecutive bits, exactly the generator itself goes unnoticed. */
  lemma {:induction false} SeventeenBitBurstMissedIff(a: Bytes, e: Bytes, k: nat)
    requires |a| == |e| && k + 17 <= 8 * |e| && Within(MessageBits(e), k, 17)
    requires exists i :: 0 <= i < 8 * |e| && MessageBits(e)[i]
    ensures Checksum(XorBytes(a, e)) == Checksum(a) <==> MessageBits(e)[k..k + 17] == GENERATOR
  {
    hide MessageBits, CrcFrom, IsMultiple;
    var bits := MessageBits(e);
    var i :| 0 <= i < |bits| && bits[i];
    BurstMissedIff(a, e, k, 17);
    SeventeenMultiple(bits[k..k + 17]);
    assert bits[k..k + 17][i - k];
    assert !Zeros(17)[i - k];
  }

  // ---------- Parity ----------

  /** The number of ones. */
  function Weight(bits: Poly): nat {
    if bits == [] then 0 else Weight(bits[..|bits| - 1]) + (if bits[|bits| - 1] then 1 else 0)
  }

  ghost predicate Even(bits: Poly) {
    Weight(bits) % 2 == 0
  }

  lemma {:induction false} WeightConcat(a: Poly, b: Poly)
    ensures Weight(a + b) == Weight(a) + Weight(b)
  {
    if b == [] {
      assert a + b == a;
    } else {
      var init := b[..|b| - 1];
      assert (a + b)[..|a + b| - 1] == a + init;
      WeightConcat(a, init);
    }
  }

  lemma {:induction false} WeightAdd(a: Poly, b: Poly)
    requires |a| == |b|
    ensures Even(Add(a, b)) <==> (Even(a) <==> Even(b))
  {
    if a != [] {
      var n := |a| - 1;
      WeightAdd(a[..n], b[..n]);
      assert Add(a, b)[..n] == Add(a[..n], b[..n]);
    }
  }

  lemma {:induction false} WeightZeros(n: nat)
    ensures Weight(Zeros(n)) == 0
  {
    if n > 0 {
      WeightZeros(n - 1);
      assert Zeros(n)[..n - 1] == Zeros(n - 1);
    }
  }

  lemma WeightNibble(a: bool, b: bool, c: bool, d: bool)
    ensures Weight([a, b, c, d])
         == (if a then 1 else 0) + (if b then 1 else 0) + (if c then 1 else 0) + (if d then 1 else 0)
  {
    WeightConcat([a, b], [c, d]);
    assert [a, b] + [c, d] == [a, b, c, d];
    WeightPair(a, b);
    WeightPair(c, d);
  }

  lemma WeightPair(a: bool, b: bool)
    ensures Weight([a, b]) == (if a then 1 else 0) + (if b then 1 else 0)
  {
    WeightSnoc([a], b);
    WeightSnoc([], a);
    assert [] + [a] == [a] && [a] + [b] == [a, b];
  }

  lemma WeightSnoc(bits: Poly, m: bool)
    ensures Weight(bits + [m]) == Weight(bits) + (if m then 1 else 0)
  {
    assert (bits + [m])[..|bits|] == bits;
  }

  lemma GeneratorWeight()
    ensures Weight(GENERATOR[1..]) == 3
  {
    var n0, n1, n2 := [false, false, false, true], [false, false, false, false], [false, false, true, false];
    WeightNibble(false, false, false, true);
    WeightNibble(false, false, false, false);
    WeightNibble(false, false, true, false);
    WeightConcat(n0, n1);
    WeightConcat(n2, n0);
    WeightConcat(n0 + n1, n2 + n0);
    assert GENERATOR[1..] == (n0 + n1) + (n2 + n0);
  }

  lemma {:induction false} WeightSplit(bits: Poly)
    requires |bits| >= 1
    ensures Weight(bits) == (if bits[0] then 1 else 0) + Weight(bits[1..])
    ensures Weight(bits[1..] + [false]) == Weight(bits[1..])
  {
    WeightConcat([bits[0]], bits[1..]);
    assert bits == [bits[0]] + bits[1..];
    assert Weight([bits[0]]) == if bits[0] then 1 else 0;
    assert (bits[1..] + [false])[..|bits| - 1] == bits[1..];
  }

  /** The generator has even weight, so a step of long division keeps the parity it is fed. */
  lemma TimesXParity(r: Poly)
    requires |r| == 16
    ensures Even(TimesX(r)) <==> Even(r)
  {
    hide Weight;
    WeightSplit(r);
    GeneratorWeight();
    WeightZeros(16);
    WeightAdd(r[1..] + [false], if r[0] then GENERATOR[1..] else Zeros(16));
  }

  lemma FeedParity(r: Poly, m: bool)
    requires |r| == 16
    ensures Even(Feed(r, m)) <==> (Even(r) <==> !m)
  {
    hide Weight, TimesX;
    var fed := [r[0] != m] + r[1..];
    TimesXParity(fed);
    WeightSplit(fed);
    WeightSplit(r);
    assert fed[1..] == r[1..];
  }

  lemma {:induction false} SerialParity(r: Poly, bits: Poly)
    requires |r| == 16
    ensures Even(Serial(r, bits)) <==> (Even(r) <==> Even(bits))
  {
    hide Feed;
    if bits != [] {
      var n := |bits| - 1;
      SerialParity(r, bits[..n]);
      FeedParity(Serial(r, bits[..n]), bits[n]);
    }
  }

  /** The checksum has the parity of the message. */
  lemma {:induction false} ChecksumParity(bytes: Bytes)
    ensures Even(Bits16(Checksum(bytes))) <==> Even(MessageBits(bytes))
  {
    hide Bits16, MessageBits, Serial, Weight, CrcFrom;
    CrcIsSerial(0, bytes);
    ZeroBits16();
    WeightZeros(16);
    SerialParity(Zeros(16), MessageBits(bytes));
  }

  /** So an odd number of wrong bits always changes the checksum. */
  lemma {:induction false} OddErrorsDetected(a: Bytes, e: Bytes)
    requires |a| == |e| && !Even(MessageBits(e))
    ensures Checksum(XorBytes(a, e)) != Checksum(a)
  {
    hide Bits16, MessageBits, Weight, CrcFrom, Xor;
    ChecksumXor(a, e);
    ChecksumParity(e);
    ZeroBits16();
    WeightZeros(16);
    XorUnchanged(Checksum(a), Checksum(e));
  }

  // ---------- Residue ----------

  /** A message followed by its checksum, high byte first, is a multiple of the generator. */
  lemma Residue(bytes: Bytes)
    ensures Checksum(bytes + [HighByte(Checksum(bytes)), LowByte(Checksum(bytes))]) == 0
  {
    var c := Checksum(bytes);
    var trailer := [HighByte(c), LowByte(c)];
    hide Bits16, MessageBits, Serial, CrcFrom, HighByte, LowByte, Bits8;
    CrcIsSerial(0, bytes + trailer);
    CrcIsSerial(0, bytes);
    ZeroBits16();
    MessageBitsConcat(bytes, trailer);
    TrailerBits(c);
    SerialConcat(Zeros(16), MessageBits(bytes), Bits16(c));
    WordIsSerial(Bits16(c), Bits16(c), 16);
    assert Bits16(c)[..16] == Bits16(c);
    assert Add(Bits16(c), Bits16(c)) == Zeros(16);
    var r := Serial(Bits16(c), Bits16(c));
    assert Bits16(c)[16..] + Zeros(16) == Zeros(16);
    assert Add(r, Zeros(16)) == r;
    ZerosStayZero(16);
    BitsDetermineWord(Checksum(bytes + trailer), 0);
  }

  lemma {:induction false} TrailerBits(c: bv16)
    ensures MessageBits([HighByte(c), LowByte(c)]) == Bits16(c)
  {
    hide Bits8, HighByte, LowByte, Bits16;
    MessageBitsSnoc([], HighByte(c));
    MessageBitsSnoc([] + [HighByte(c)], LowByte(c));
    assert [] + [HighByte(c)] + [LowByte(c)] == [HighByte(c), LowByte(c)];
    WordHalves(c);
  }

  lemma {:induction false} ZerosStayZero(n: nat)
    ensures TimesXs(Zeros(16), n) == Zeros(16)
  {
    if n > 0 {
      ZerosStayZero(n - 1);
      assert TimesX(Zeros(16)) == Zeros(16);
    }
  }

  // ---------- The limit of burst detection ----------

  /** One bit more than 16 is too many: the generator itself, as an error, goes unnoticed. */
  lemma SeventeenBitBurstMissed()
    ensures Checksum([0x01, 0x10, 0x21]) == 0
  {
    var e: Bytes := [0x01];
    var c := Checksum(e);
    ChecksumOfOne();
    Residue(e);
    assert e + [HighByte(c), LowByte(c)] == [0x01, 0x10, 0x21];
  }

  lemma ChecksumOfOne()
    ensures Checksum([0x01]) == 0x1021
  {
    OneSpelt();
    ByteStepSpelt(0, 0x01);
    hide ByteStep, EightSteps;
    assert [0x01 as bv8][..0] == [];
  }

  lemma OneSpelt()
    ensures EightSteps(0x0100) == 0x1021
  {
  }
}
