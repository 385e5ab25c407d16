/** Damaged packets: what the parsers are sure to reject. */
module PacketErrors {
  import opened Basics
  import opened Crc
  import opened CrcTheory
  import opened CrcDetection
  import opened CrcDistance
  import opened Packets

  ghost predicate Accepted(value: Bytes) {
    ParseAckPacket(value).Ok? || ParseAck(value).Ok? || ParseNoAckPacket(value).Ok?
  }

  lemma AcceptedIsConsistent(value: Bytes)
    requires Accepted(value)
    ensures |value| >= 4 && Carried(value) == Checksum(Body(value))
    ensures value == Body(value) + ToLeBytes(Checksum(Body(value)))
  {
    hide ToLeBytes, FromLeBytes, CrcFrom;
    CarriedIff(Body(value), value, Carried(value));
  }

  lemma TrailerWeight(c: bv16)
    ensures Weight(MessageBits(ToLeBytes(c))) == Weight(Bits16(c))
  {
    hide Bits8, Bits16, LowByte, HighByte, Weight;
    var low, high := LowByte(c), HighByte(c);
    MessageBitsSnoc([], low);
    MessageBitsSnoc([] + [low], high);
    assert [] + [low] + [high] == ToLeBytes(c);
    WordHalves(c);
    assert MessageBits(ToLeBytes(c)) == Bits8(low) + Bits8(high);
    WeightConcat(Bits8(low), Bits8(high));
    WeightConcat(Bits8(high), Bits8(low));
  }

  /** Every accepted packet has an even number of ones, its trailer included. */
  lemma AcceptedIsEven(value: Bytes)
    requires Accepted(value)
    ensures Even(MessageBits(value))
  {
    hide Bits16, MessageBits, Weight, ToLeBytes, CrcFrom, Accepted;
    AcceptedIsConsistent(value);
    var body := Body(value);
    var c := Checksum(body);
    MessageBitsConcat(body, ToLeBytes(c));
    WeightConcat(MessageBits(body), MessageBits(ToLeBytes(c)));
    TrailerWeight(c);
    ChecksumParity(body);
  }

  /** So an odd number of wrong bits, anywhere in a packet, makes all three parsers refuse it. */
  lemma {:induction false} OddDamageRejected(value: Bytes, e: Bytes)
    requires Accepted(value) && |e| == |value|
    requires !Even(MessageBits(e))
    ensures !Accepted(XorBytes(value, e))
  {
    hide MessageBits, Weight, Accepted, XorBytes;
    AcceptedIsEven(value);
    XorBytesBits(value, e);
    WeightAdd(MessageBits(value), MessageBits(e));
    if Accepted(XorBytes(value, e)) {
      AcceptedIsEven(XorBytes(value, e));
      assert false;
    }
  }

  /** Damage to the checksummed bytes that is a burst of up to 16 bits, or one to three wrong bits. */
  ghost predicate Detectable(e: Bytes) {
    Burst(e) || !Even(MessageBits(e)) || (|e| <= 4095 && 1 <= Weight(MessageBits(e)) <= 3)
  }

  /** With the trailer as sent, such damage makes all three parsers refuse the packet. */
  lemma {:induction false} DetectableDamageRejected(value: Bytes, e: Bytes)
    requires Accepted(value) && |e| == |value| - 2
    requires Detectable(e)
    ensures !Accepted(XorBytes(Body(value), e) + value[|value| - 2..])
  {
    hide MessageBits, Weight, CrcFrom, Burst, FromLeBytes, XorBytes;
    AcceptedIsConsistent(value);
    var body := Body(value);
    var damaged := XorBytes(body, e) + value[|value| - 2..];
    if Burst(e) {
      BurstDetected(body, e);
    } else if !Even(MessageBits(e)) {
      OddErrorsDetected(body, e);
    } else {
      FewBitErrorsDetected(body, e);
    }
    assert Carried(damaged) == Carried(value);
    assert Body(damaged) == XorBytes(body, e);
  }
}
