/** The messages of the ActiveMessage layer. */
module Am {
  import opened Basics
  import opened CrcTheory

  const MINIMUM_LENGTH: int := 7

  datatype Message = Message(
    dest: bv16, src: bv16, length: bv8, group: bv8, id: bv8, payload: Bytes, metadata: Bytes)

  /** Parsing can also panic, when adding the header length to the length byte overflows a byte. */
  datatype Parsed = Accepted(message: Message) | VecTooLarge | VecTooSmall | PayloadSizeMismatch | Panic

  function ToBeBytes(c: bv16): Bytes {
    [HighByte(c), LowByte(c)]
  }

  function FromBeBytes(high: bv8, low: bv8): bv16 {
    ((high as bv16) << 8) | (low as bv16)
  }

  function Serialize(m: Message): Bytes {
    ToBeBytes(m.dest) + ToBeBytes(m.src) + [m.length, m.group, m.id] + m.payload + m.metadata
  }

  function Parse(data: Bytes): Parsed {
    if |data| > 255 then VecTooLarge
    else if |data| < MINIMUM_LENGTH then VecTooSmall
    else
      var stated := FromByte(data[4]);
      if stated + MINIMUM_LENGTH > 255 then Panic
      else if |data| < stated + MINIMUM_LENGTH then PayloadSizeMismatch
      else
        var payloadEnd := stated + MINIMUM_LENGTH;
        Accepted(Message(FromBeBytes(data[0], data[1]), FromBeBytes(data[2], data[3]), data[4], data[5], data[6],
                         data[MINIMUM_LENGTH..payloadEnd], data[payloadEnd..]))
  }

  lemma BigEndian(c: bv16, high: bv8, low: bv8)
    ensures FromBeBytes(HighByte(c), LowByte(c)) == c
    ensures HighByte(FromBeBytes(high, low)) == high
    ensures LowByte(FromBeBytes(high, low)) == low
  {
  }

  /** The messages that survive the trip: the length byte is the payload length, and it all fits. */
  predicate WellFormed(m: Message) {
    |m.payload| == FromByte(m.length) && |m.payload| + |m.metadata| <= 248
  }

  lemma SerializedHeader(m: Message)
    ensures var data := Serialize(m);
            && |data| == MINIMUM_LENGTH + |m.payload| + |m.metadata|
            && data[0] == HighByte(m.dest) && data[1] == LowByte(m.dest)
            && data[2] == HighByte(m.src) && data[3] == LowByte(m.src)
            && data[4] == m.length && data[5] == m.group && data[6] == m.id
            && data[MINIMUM_LENGTH..] == m.payload + m.metadata
  {
    hide HighByte, LowByte;
  }

  /** A message comes back from its bytes exactly when it is well formed. */
  lemma RoundTripIff(m: Message)
    ensures Parse(Serialize(m)) == Accepted(m) <==> WellFormed(m)
  {
    SerializedHeader(m);
    BigEndian(m.dest, 0, 0);
    BigEndian(m.src, 0, 0);
    hide HighByte, LowByte, FromBeBytes, FromByte, Serialize;
    var data := Serialize(m);
    var stated := FromByte(m.length);
    if |data| <= 255 && stated + MINIMUM_LENGTH <= |data| {
      var tail := m.payload + m.metadata;
      assert data[MINIMUM_LENGTH..stated + MINIMUM_LENGTH] == tail[..stated];
      assert data[stated + MINIMUM_LENGTH..] == tail[stated..];
    }
  }

  lemma ParsedFields(data: Bytes)
    requires Parse(data).Accepted?
    ensures var m := Parse(data).message;
            var payloadEnd := FromByte(m.length) + MINIMUM_LENGTH;
            && payloadEnd <= |data| <= 255
            && ToBeBytes(m.dest) == data[0..2] && ToBeBytes(m.src) == data[2..4]
            && [m.length, m.group, m.id] == data[4..7]
            && m.payload == data[MINIMUM_LENGTH..payloadEnd] && m.metadata == data[payloadEnd..]
  {
    BigEndian(0, data[0], data[1]);
    BigEndian(0, data[2], data[3]);
    hide HighByte, LowByte, FromBeBytes, FromByte;
  }

  lemma SliceJoin(data: Bytes, i: nat, j: nat)
    requires i <= j <= |data|
    ensures data[0..i] + data[i..j] == data[0..j]
  {
  }

  /** Whatever parses is the serialised form of the result. */
  lemma ParsedReserializes(data: Bytes)
    requires Parse(data).Accepted?
    ensures WellFormed(Parse(data).message) && Serialize(Parse(data).message) == data
  {
    ParsedFields(data);
    hide Parse, ToBeBytes, FromByte;
    var payloadEnd := FromByte(data[4]) + MINIMUM_LENGTH;
    SliceJoin(data, 2, 4);
    SliceJoin(data, 4, 7);
    SliceJoin(data, 7, payloadEnd);
    assert data[0..payloadEnd] + data[payloadEnd..] == data;
  }

  /** The inputs on which the parser panics instead of reporting an error. */
  lemma PanicIff(data: Bytes)
    ensures Parse(data) == Panic <==> 7 <= |data| <= 255 && FromByte(data[4]) > 248
  {
  }

  /** What is refused, and why; everything else that does not panic is accepted. */
  lemma {:induction false} RefusedIff(data: Bytes)
    ensures Parse(data) == VecTooLarge <==> |data| > 255
    ensures Parse(data) == VecTooSmall <==> |data| < 7
    ensures Parse(data) == PayloadSizeMismatch <==>
              7 <= |data| <= 255 && FromByte(data[4]) <= 248 && |data| < 7 + FromByte(data[4])
    ensures Parse(data).Accepted? <==> 7 <= |data| <= 255 && 7 + FromByte(data[4]) <= |data|
  {
    hide FromByte, FromBeBytes;
  }

  /** The order of the fields: destination and source with the high byte first, then the single bytes. */
  lemma {:induction false} MessageLayout(m: Message)
    ensures var data := Serialize(m);
            && |data| == 7 + |m.payload| + |m.metadata|
            && Bits8(data[0]) + Bits8(data[1]) == Bits16(m.dest)
            && Bits8(data[2]) + Bits8(data[3]) == Bits16(m.src)
            && data[4] == m.length && data[5] == m.group && data[6] == m.id
            && data[7..7 + |m.payload|] == m.payload && data[7 + |m.payload|..] == m.metadata
  {
    SerializedHeader(m);
    WordHalves(m.dest);
    WordHalves(m.src);
    hide Bits8, Bits16, HighByte, LowByte, Serialize;
    var data := Serialize(m);
    assert data[7..7 + |m.payload|] == data[7..][..|m.payload|];
    assert data[7 + |m.payload|..] == data[7..][|m.payload|..];
  }
}
