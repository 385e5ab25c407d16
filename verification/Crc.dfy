/**
 The CRC of the serial packets: generator x^16 + x^12 + x^5 + 1 (the FCS-16 generator of Appendix
 C.1 of RFC 1662), most significant bit first, initial value 0, no final complement.
 */
module Crc {
  import opened Basics

  function BitStep(c: bv16): bv16 {
    if c & 0x8000 != 0 then (c << 1) ^ 0x1021 else c << 1
  }

  function BitSteps(c: bv16, n: nat): bv16 {
    if n == 0 then c else BitStep(BitSteps(c, n - 1))
  }

  function ByteStep(c: bv16, b: bv8): bv16 {
    BitSteps(c ^ ((b as bv16) << 8), 8)
  }

  /** The checksum register after a byte string, from a given register. */
  function CrcFrom(c: bv16, bytes: Bytes): bv16 {
    if bytes == [] then c else ByteStep(CrcFrom(c, bytes[..|bytes| - 1]), bytes[|bytes| - 1])
  }

  function Checksum(bytes: Bytes): bv16 {
    CrcFrom(0, bytes)
  }

  method CalculateCrc(bytes: Bytes) returns (crc: bv16)
    ensures crc == Checksum(bytes)
  {
    hide BitSteps, ByteStep, CrcFrom, BitStep;
    crc := 0;
    CrcFromNone(0);
    for i := 0 to |bytes|
      invariant crc == CrcFrom(0, bytes[..i])
    {
      CrcFromMore(0, bytes, i);
      ByteStepUnfold(crc, bytes[i]);
      crc := crc ^ ((bytes[i] as bv16) << 8);
      ghost var start := crc;
      BitStepsNone(start);
      for n := 0 to 8
        invariant crc == BitSteps(start, n)
      {
        BitStepsMore(start, n);
        BitStepUnfold(crc);
        if crc & 0x8000 != 0 {
          crc := (crc << 1) ^ 0x1021;
        } else {
          crc := crc << 1;
        }
      }
    }
    assert bytes[..|bytes|] == bytes;
  }

  lemma BitStepUnfold(c: bv16)
    ensures BitStep(c) == if c & 0x8000 != 0 then (c << 1) ^ 0x1021 else c << 1
  {
  }

  lemma BitStepsNone(c: bv16)
    ensures BitSteps(c, 0) == c
  {
  }

  lemma BitStepsMore(c: bv16, n: nat)
    ensures BitSteps(c, n + 1) == BitStep(BitSteps(c, n))
  {
  }

  lemma ByteStepUnfold(c: bv16, b: bv8)
    ensures ByteStep(c, b) == BitSteps(c ^ ((b as bv16) << 8), 8)
  {
  }

  lemma CrcFromNone(c: bv16)
    ensures CrcFrom(c, []) == c
  {
  }

  lemma CrcFromMore(c: bv16, bytes: Bytes, i: nat)
    requires i < |bytes|
    ensures CrcFrom(c, bytes[..i + 1]) == ByteStep(CrcFrom(c, bytes[..i]), bytes[i])
  {
    hide ByteStep;
    assert bytes[..i + 1][..i] == bytes[..i];
  }

  /** One turn of the outer loop, spelt out, for checksums of given bytes. */
  function EightSteps(c: bv16): bv16 {
    BitStep(BitStep(BitStep(BitStep(BitStep(BitStep(BitStep(BitStep(c))))))))
  }

  lemma ByteStepSpelt(c: bv16, b: bv8)
    ensures ByteStep(c, b) == EightSteps(c ^ ((b as bv16) << 8))
  {
    var start := c ^ ((b as bv16) << 8);
    ByteStepUnfold(c, b);
    hide BitStep, BitSteps, ByteStep;
    BitStepsNone(start);
    BitStepsMore(start, 0);
    BitStepsMore(start, 1);
    BitStepsMore(start, 2);
    BitStepsMore(start, 3);
    BitStepsMore(start, 4);
    BitStepsMore(start, 5);
    BitStepsMore(start, 6);
    BitStepsMore(start, 7);
  }

  lemma ChecksumOfTwo(a: bv8, b: bv8)
    ensures Checksum([a, b]) == ByteStep(ByteStep(0, a), b)
  {
    hide ByteStep;
    CrcFromNone(0);
    CrcFromMore(0, [a, b], 0);
    CrcFromMore(0, [a, b], 1);
    assert [a, b][..0] == [] && [a, b][..1] == [a] && [a, b][..2] == [a, b];
  }

  lemma ChecksumOfThree(a: bv8, b: bv8, c: bv8)
    ensures Checksum([a, b, c]) == ByteStep(ByteStep(ByteStep(0, a), b), c)
  {
    hide ByteStep;
    ChecksumOfTwo(a, b);
    CrcFromMore(0, [a, b, c], 2);
    assert [a, b, c][..2] == [a, b] && [a, b, c][..3] == [a, b, c];
  }

  /** The checksum of a concatenation continues from the checksum of the first part. */
  lemma {:induction false} CrcConcat(c: bv16, a: Bytes, b: Bytes)
    ensures CrcFrom(c, a + b) == CrcFrom(CrcFrom(c, a), b)
  {
    hide ByteStep;
    if b == [] {
      assert a + b == a;
    } else {
      var init := b[..|b| - 1];
      assert (a + b)[..|a + b| - 1] == a + init;
      CrcConcat(c, a, init);
    }
  }
}
