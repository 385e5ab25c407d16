/** The three packets of the serial protocol and their byte representations. */
module Packets {
  import opened Basics
  import opened Crc
  import opened CrcTheory

  const ACKPACKET: bv8 := 0x44
  const ACK: bv8 := 0x43
  const NOACKPACKET: bv8 := 0x45

  datatype AckPacket = AckPacket(protocol: bv8, seqNum: bv8, data: Bytes, checksum: bv16)

  datatype Ack = Ack(protocol: bv8, seqNum: bv8, checksum: bv16)

  datatype NoAckPacket = NoAckPacket(protocol: bv8, data: Bytes, checksum: bv16)

  datatype ParseError = InvalidLength | InvalidProtocolByte | InvalidChecksum

  // ---------- Construction ----------

  function NewAckPacket(seqNum: bv8, data: Bytes): AckPacket {
    AckPacket(ACKPACKET, seqNum, data, Checksum([ACKPACKET, seqNum] + data))
  }

  function NewAck(seqNum: bv8): Ack {
    Ack(ACK, seqNum, Checksum([ACK, seqNum]))
  }

  function NewNoAckPacket(data: Bytes): NoAckPacket {
    NoAckPacket(NOACKPACKET, data, Checksum([NOACKPACKET] + data))
  }

  /** The acknowledgement of a received packet. */
  function AckFor(packet: AckPacket): Ack {
    NewAck(packet.seqNum)
  }

  // ---------- Printing ----------

  function ToLeBytes(c: bv16): Bytes {
    [LowByte(c), HighByte(c)]
  }

  function FromLeBytes(low: bv8, high: bv8): bv16 {
    (low as bv16) | ((high as bv16) << 8)
  }

  function AckPacketBytes(packet: AckPacket): Bytes {
    [packet.protocol, packet.seqNum] + packet.data + ToLeBytes(packet.checksum)
  }

  function AckBytes(packet: Ack): Bytes {
    [packet.protocol, packet.seqNum] + ToLeBytes(packet.checksum)
  }

  function NoAckPacketBytes(packet: NoAckPacket): Bytes {
    [packet.protocol] + packet.data + ToLeBytes(packet.checksum)
  }

  // ---------- Parsing ----------

  /** The bytes that the checksum of a packet covers, and the checksum it carries. */
  function Body(value: Bytes): Bytes
    requires |value| >= 2
  {
    value[..|value| - 2]
  }

  function Carried(value: Bytes): bv16
    requires |value| >= 2
  {
    FromLeBytes(value[|value| - 2], value[|value| - 1])
  }

  function ParseAckPacket(value: Bytes): Result<AckPacket, ParseError> {
    if |value| < 5 then Err(InvalidLength)
    else if value[0] != ACKPACKET then Err(InvalidProtocolByte)
    else if Carried(value) != Checksum(Body(value)) then Err(InvalidChecksum)
    else Ok(AckPacket(value[0], value[1], value[2..|value| - 2], Carried(value)))
  }

  function ParseAck(value: Bytes): Result<Ack, ParseError> {
    if |value| != 4 then Err(InvalidLength)
    else if value[0] != ACK then Err(InvalidProtocolByte)
    else if Carried(value) != Checksum(Body(value)) then Err(InvalidChecksum)
    else Ok(Ack(value[0], value[1], Carried(value)))
  }

  function ParseNoAckPacket(value: Bytes): Result<NoAckPacket, ParseError> {
    if |value| < 4 then Err(InvalidLength)
    else if value[0] != NOACKPACKET then Err(InvalidProtocolByte)
    else if Carried(value) != Checksum(Body(value)) then Err(InvalidChecksum)
    else Ok(NoAckPacket(value[0], value[1..|value| - 2], Carried(value)))
  }

  // The parsers cut their buffer from the end and then from the front.

  method TryAckPacket(value: Bytes) returns (result: Result<AckPacket, ParseError>)
    ensures result == ParseAckPacket(value)
  {
    var buffer := value;
    if |buffer| >= 5 {
      if buffer[0] == ACKPACKET {
        var trailer;
        buffer, trailer := SplitOff(buffer, |buffer| - 2);
        var checksum := FromLeBytes(trailer[0], trailer[1]);
        var calculated := CalculateCrc(buffer);
        if checksum == calculated {
          var rest, data;
          buffer, rest := SplitOff(buffer, 1);
          rest, data := SplitOff(rest, 1);
          result := Ok(AckPacket(buffer[0], rest[0], data, checksum));
        } else {
          result := Err(InvalidChecksum);
        }
      } else {
        result := Err(InvalidProtocolByte);
      }
    } else {
      result := Err(InvalidLength);
    }
  }

  method TryAck(value: Bytes) returns (result: Result<Ack, ParseError>)
    ensures result == ParseAck(value)
  {
    var buffer := value;
    if |buffer| == 4 {
      if buffer[0] == ACK {
        var trailer;
        buffer, trailer := SplitOff(buffer, |buffer| - 2);
        var checksum := FromLeBytes(trailer[0], trailer[1]);
        var calculated := CalculateCrc(buffer);
        if calculated == checksum {
          var seqNum;
          buffer, seqNum := SplitOff(buffer, 1);
          result := Ok(Ack(buffer[0], seqNum[0], checksum));
        } else {
          result := Err(InvalidChecksum);
        }
      } else {
        result := Err(InvalidProtocolByte);
      }
    } else {
      result := Err(InvalidLength);
    }
  }

  method TryNoAckPacket(value: Bytes) returns (result: Result<NoAckPacket, ParseError>)
    ensures result == ParseNoAckPacket(value)
  {
    var buffer := value;
    if |buffer| >= 4 {
      if buffer[0] == NOACKPACKET {
        var trailer;
        buffer, trailer := SplitOff(buffer, |buffer| - 2);
        var checksum := FromLeBytes(trailer[0], trailer[1]);
        var calculated := CalculateCrc(buffer);
        if calculated == checksum {
          var data;
          buffer, data := SplitOff(buffer, 1);
          result := Ok(NoAckPacket(buffer[0], data, checksum));
        } else {
          result := Err(InvalidChecksum);
        }
      } else {
        result := Err(InvalidProtocolByte);
      }
    } else {
      result := Err(InvalidLength);
    }
  }

  method SplitOff(buffer: Bytes, at: nat) returns (front: Bytes, back: Bytes)
    requires at <= |buffer|
    ensures front == buffer[..at] && back == buffer[at..]
  {
    front := buffer[..at];
    back := buffer[at..];
  }

  // ---------- Parsing inverts printing ----------

  lemma LittleEndian(c: bv16, low: bv8, high: bv8)
    ensures FromLeBytes(LowByte(c), HighByte(c)) == c
    ensures LowByte(FromLeBytes(low, high)) == low
    ensures HighByte(FromLeBytes(low, high)) == high
  {
  }

  lemma {:induction false} CarriedIff(body: Bytes, value: Bytes, c: bv16)
    requires |value| >= 2
    ensures value == body + ToLeBytes(c) <==> Body(value) == body && Carried(value) == c
  {
    var n := |value| - 2;
    LittleEndian(c, value[n], value[n + 1]);
    hide LowByte, HighByte, FromLeBytes;
    if Body(value) == body && Carried(value) == c {
      assert value == body + [value[n], value[n + 1]];
    }
  }

  /** The parser accepts exactly the printed form of constructed packets with some data. */
  lemma AckPacketParseIff(value: Bytes, packet: AckPacket)
    ensures ParseAckPacket(value) == Ok(packet) <==>
            && packet.data != []
            && packet == NewAckPacket(packet.seqNum, packet.data)
            && value == AckPacketBytes(packet)
  {
    hide ToLeBytes, FromLeBytes, CrcFrom;
    var body := [packet.protocol, packet.seqNum] + packet.data;
    LeLength(packet.checksum);
    if |value| >= 5 {
      CarriedIff(body, value, packet.checksum);
      assert ParseAckPacket(value).Ok? ==> Body(value) == [value[0], value[1]] + value[2..|value| - 2];
      if Body(value) == body {
        assert value[0] == Body(value)[0] && value[1] == Body(value)[1];
        assert value[2..|value| - 2] == Body(value)[2..] == packet.data;
      }
    }
  }

  lemma LeLength(c: bv16)
    ensures |ToLeBytes(c)| == 2
  {
  }

  lemma AckParseIff(value: Bytes, packet: Ack)
    ensures ParseAck(value) == Ok(packet) <==> packet == NewAck(packet.seqNum) && value == AckBytes(packet)
  {
    hide ToLeBytes, FromLeBytes, CrcFrom;
    var body := [packet.protocol, packet.seqNum];
    LeLength(packet.checksum);
    if |value| == 4 {
      CarriedIff(body, value, packet.checksum);
      assert Body(value) == [value[0], value[1]];
    }
  }

  lemma NoAckPacketParseIff(value: Bytes, packet: NoAckPacket)
    ensures ParseNoAckPacket(value) == Ok(packet) <==>
            && packet.data != []
            && packet == NewNoAckPacket(packet.data)
            && value == NoAckPacketBytes(packet)
  {
    hide ToLeBytes, FromLeBytes, CrcFrom;
    var body := [packet.protocol] + packet.data;
    LeLength(packet.checksum);
    if |value| >= 4 {
      CarriedIff(body, value, packet.checksum);
      assert ParseNoAckPacket(value).Ok? ==> Body(value) == [value[0]] + value[1..|value| - 2];
      if Body(value) == body {
        assert value[0] == Body(value)[0];
        assert value[1..|value| - 2] == Body(value)[1..] == packet.data;
      }
    }
  }

  /** No byte string is accepted as two kinds of packet. */
  lemma ParsersDisjoint(value: Bytes)
    ensures !(ParseAckPacket(value).Ok? && ParseAck(value).Ok?)
    ensures !(ParseAckPacket(value).Ok? && ParseNoAckPacket(value).Ok?)
    ensures !(ParseAck(value).Ok? && ParseNoAckPacket(value).Ok?)
  {
  }
}
