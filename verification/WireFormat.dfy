/** The formats on the wire and the addresses, in numbers. */
module WireFormat {
  import opened Basics
  import opened Crc
  import opened Polynomials
  import opened CrcTheory
  import opened Packets
  import opened Receiver
  import Hdlc

  // ---------- Numbers and bytes ----------

  /** A sequence number, identifier or dispatch byte is read from its byte as it stands. */
  lemma {:induction false} ByteIsNumber(b: bv8)
    ensures FromByte(0) == 0 && (b != 0xFF ==> FromByte(b + 1) == FromByte(b) + 1)
    ensures ToByte(FromByte(b)) == b
  {
    NoNumberAbove(b);
    if b != 0xFF {
      NextByte(b);
    }
    NumberDeterminesByte(FromByte(b), b);
  }

  lemma NoNumberAbove(b: bv8)
    ensures b != 0xFF ==> FromByte(b) < 255
    ensures FromByte(0) == 0
  {
  }

  // ---------- The generator ----------

  lemma GeneratorPowers()
    ensures |GENERATOR| == 17
    ensures forall i :: 0 <= i < 17 ==>
              (GENERATOR[i] <==> 16 - i == 16 || 16 - i == 12 || 16 - i == 5 || 16 - i == 0)
  {
  }

  // ---------- HDLC ----------

  /** The frame of a body, byte by byte: 7E and 7D become 7D 5E and 7D 5D, and 7E stands at both ends. */
  lemma {:induction false} FrameLayout(x: Bytes, b: bv8)
    ensures Hdlc.Encode([]) == [0x7E, 0x7E]
    ensures Hdlc.Encode(x + [b]) == Hdlc.Encode(x)[..|Hdlc.Encode(x)| - 1]
              + (if b == 0x7E then [0x7D, 0x5E] else if b == 0x7D then [0x7D, 0x5D] else [b]) + [0x7E]
  {
    Hdlc.StuffNone();
    Hdlc.StuffSnoc(x, b);
    Hdlc.StuffByteCases(b);
    hide Hdlc.Stuff, Hdlc.StuffByte;
  }

  lemma PlainFrame()
    ensures Hdlc.Encode([0x44, 0x00, 0xFF, 0x9D, 0xDF]) == [0x7E, 0x44, 0x00, 0xFF, 0x9D, 0xDF, 0x7E]
  {
    hide Hdlc.Encode;
    FrameLayout([], 0x44);
    FrameLayout([0x44], 0x00);
    FrameLayout([0x44, 0x00], 0xFF);
    FrameLayout([0x44, 0x00, 0xFF], 0x9D);
    FrameLayout([0x44, 0x00, 0xFF, 0x9D], 0xDF);
    assert [] + [0x44 as bv8] == [0x44];
    assert [0x44 as bv8] + [0x00] == [0x44, 0x00];
    assert [0x44 as bv8, 0x00] + [0xFF] == [0x44, 0x00, 0xFF];
    assert [0x44 as bv8, 0x00, 0xFF] + [0x9D] == [0x44, 0x00, 0xFF, 0x9D];
    assert [0x44 as bv8, 0x00, 0xFF, 0x9D] + [0xDF] == [0x44, 0x00, 0xFF, 0x9D, 0xDF];
  }

  lemma EscapedFrame()
    ensures Hdlc.Encode([0x7E, 0x7D]) == [0x7E, 0x7D, 0x5E, 0x7D, 0x5D, 0x7E]
  {
    hide Hdlc.Encode;
    FrameLayout([], 0x7E);
    FrameLayout([0x7E], 0x7D);
    assert [] + [0x7E as bv8] == [0x7E];
    assert [0x7E as bv8] + [0x7D] == [0x7E, 0x7D];
  }

  // ---------- Packets ----------

  /** The trailer is the checksum of all the bytes before it, low byte first. */
  ghost predicate TrailerFits(v: Bytes)
    requires |v| >= 2
  {
    Bits8(v[|v| - 1]) + Bits8(v[|v| - 2]) == Bits16(Checksum(v[..|v| - 2]))
  }

  lemma PrintedTrailer(body: Bytes)
    ensures |body + ToLeBytes(Checksum(body))| == |body| + 2
    ensures TrailerFits(body + ToLeBytes(Checksum(body)))
  {
    var v := body + ToLeBytes(Checksum(body));
    LeLength(Checksum(body));
    assert v[..|v| - 2] == body;
    WordHalves(Checksum(body));
    hide Bits8, Bits16, CrcFrom, LowByte, HighByte;
  }

  lemma {:induction false} AckPacketLayout(seqNum: bv8, data: Bytes)
    ensures var v := AckPacketBytes(NewAckPacket(seqNum, data));
            && |v| == |data| + 4 && v[0] == 0x44 && v[1] == seqNum && v[2..|v| - 2] == data && TrailerFits(v)
  {
    PrintedTrailer([0x44, seqNum] + data);
    hide ToLeBytes, TrailerFits, CrcFrom;
  }

  lemma {:induction false} AckLayout(seqNum: bv8)
    ensures var v := AckBytes(NewAck(seqNum));
            |v| == 4 && v[0] == 0x43 && v[1] == seqNum && TrailerFits(v)
  {
    PrintedTrailer([0x43, seqNum]);
    hide ToLeBytes, TrailerFits, CrcFrom;
  }

  lemma {:induction false} NoAckPacketLayout(data: Bytes)
    ensures var v := NoAckPacketBytes(NewNoAckPacket(data));
            |v| == |data| + 3 && v[0] == 0x45 && v[1..|v| - 2] == data && TrailerFits(v)
  {
    PrintedTrailer([0x45] + data);
    hide ToLeBytes, TrailerFits, CrcFrom;
  }

  /** When and why the parser refuses a byte string: too short, another first byte, or else no printed packet. */
  lemma {:induction false} AckPacketRefused(v: Bytes)
    ensures ParseAckPacket(v) == Err(InvalidLength) <==> |v| < 5
    ensures ParseAckPacket(v) == Err(InvalidProtocolByte) <==> |v| >= 5 && v[0] != 0x44
    ensures ParseAckPacket(v) == Err(InvalidChecksum) <==>
              |v| >= 5 && v[0] == 0x44 && v != AckPacketBytes(NewAckPacket(v[1], v[2..|v| - 2]))
  {
    if |v| >= 5 {
      AckPacketParseIff(v, NewAckPacket(v[1], v[2..|v| - 2]));
      if ParseAckPacket(v).Ok? {
        AckPacketParseIff(v, ParseAckPacket(v).value);
      }
    }
    hide CrcFrom, ToLeBytes, FromLeBytes;
  }

  lemma {:induction false} AckRefused(v: Bytes)
    ensures ParseAck(v) == Err(InvalidLength) <==> |v| != 4
    ensures ParseAck(v) == Err(InvalidProtocolByte) <==> |v| == 4 && v[0] != 0x43
    ensures ParseAck(v) == Err(InvalidChecksum) <==> |v| == 4 && v[0] == 0x43 && v != AckBytes(NewAck(v[1]))
  {
    if |v| == 4 {
      AckParseIff(v, NewAck(v[1]));
      if ParseAck(v).Ok? {
        AckParseIff(v, ParseAck(v).value);
      }
    }
    hide CrcFrom, ToLeBytes, FromLeBytes;
  }

  lemma {:induction false} NoAckPacketRefused(v: Bytes)
    ensures ParseNoAckPacket(v) == Err(InvalidLength) <==> |v| < 4
    ensures ParseNoAckPacket(v) == Err(InvalidProtocolByte) <==> |v| >= 4 && v[0] != 0x45
    ensures ParseNoAckPacket(v) == Err(InvalidChecksum) <==>
              |v| >= 4 && v[0] == 0x45 && v != NoAckPacketBytes(NewNoAckPacket(v[1..|v| - 2]))
  {
    if |v| >= 4 {
      NoAckPacketParseIff(v, NewNoAckPacket(v[1..|v| - 2]));
      if ParseNoAckPacket(v).Ok? {
        NoAckPacketParseIff(v, ParseNoAckPacket(v).value);
      }
    }
    hide CrcFrom, ToLeBytes, FromLeBytes;
  }

  lemma {:induction false} FirstBytes(v: Bytes)
    ensures ParseAckPacket(v).Ok? ==> v != [] && v[0] == 0x44
    ensures ParseAck(v).Ok? ==> v != [] && v[0] == 0x43
    ensures ParseNoAckPacket(v).Ok? ==> v != [] && v[0] == 0x45
    ensures KnownType(v) <==> v == [] || v[0] == 0x43 || v[0] == 0x44 || v[0] == 0x45
  {
    AckPacketRefused(v);
    AckRefused(v);
    NoAckPacketRefused(v);
    hide ParseAckPacket, ParseAck, ParseNoAckPacket, AckPacketBytes, AckBytes, NoAckPacketBytes;
  }

  // Four packets in full.

  lemma AckPacketVector()
    ensures AckPacketBytes(NewAckPacket(0x00, [0x00])) == [0x44, 0x00, 0x00, 0x6D, 0xC1]
  {
    EightStepsSpelt();
    TrailerVectors();
    ByteStepSpelt(0, 0x44);
    ByteStepSpelt(0x0840, 0x00);
    ByteStepSpelt(0xC108, 0x00);
    hide ByteStep, EightSteps, CrcFrom, ToLeBytes;
    ChecksumOfThree(0x44, 0x00, 0x00);
    assert [0x44 as bv8, 0x00] + [0x00] == [0x44, 0x00, 0x00];
  }

  lemma AckVectors()
    ensures AckBytes(NewAck(0x00)) == [0x43, 0x00, 0x9F, 0x58]
    ensures AckBytes(NewAck(0x54)) == [0x43, 0x54, 0xEE, 0x42]
  {
    EightStepsSpelt();
    TrailerVectors();
    ByteStepSpelt(0, 0x43);
    ByteStepSpelt(0x78A7, 0x00);
    ByteStepSpelt(0x78A7, 0x54);
    hide ByteStep, EightSteps, CrcFrom, ToLeBytes;
    ChecksumOfTwo(0x43, 0x00);
    ChecksumOfTwo(0x43, 0x54);
  }

  lemma NoAckPacketVector()
    ensures NoAckPacketBytes(NewNoAckPacket([0x00])) == [0x45, 0x00, 0x39, 0xF2]
  {
    EightStepsSpelt();
    TrailerVectors();
    ByteStepSpelt(0, 0x45);
    ByteStepSpelt(0x1861, 0x00);
    hide ByteStep, EightSteps, CrcFrom, ToLeBytes;
    ChecksumOfTwo(0x45, 0x00);
    assert [0x45 as bv8] + [0x00] == [0x45, 0x00];
  }

  lemma EightStepsSpelt()
    ensures EightSteps(0x0000 ^ ((0x44 as bv8 as bv16) << 8)) == 0x0840
    ensures EightSteps(0x0840 ^ ((0x00 as bv8 as bv16) << 8)) == 0xC108
    ensures EightSteps(0xC108 ^ ((0x00 as bv8 as bv16) << 8)) == 0xC16D
    ensures EightSteps(0x0000 ^ ((0x43 as bv8 as bv16) << 8)) == 0x78A7
    ensures EightSteps(0x78A7 ^ ((0x00 as bv8 as bv16) << 8)) == 0x589F
    ensures EightSteps(0x78A7 ^ ((0x54 as bv8 as bv16) << 8)) == 0x42EE
    ensures EightSteps(0x0000 ^ ((0x45 as bv8 as bv16) << 8)) == 0x1861
    ensures EightSteps(0x1861 ^ ((0x00 as bv8 as bv16) << 8)) == 0xF239
  {
  }

  lemma TrailerVectors()
    ensures ToLeBytes(0xC16D) == [0x6D, 0xC1]
    ensures ToLeBytes(0x589F) == [0x9F, 0x58]
    ensures ToLeBytes(0x42EE) == [0xEE, 0x42]
    ensures ToLeBytes(0xF239) == [0x39, 0xF2]
  {
  }
}
