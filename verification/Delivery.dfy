/**
 From one endpoint's writer to another's reader, over a wire that may drop, repeat and reorder
 whole frames.
 */
module Delivery {
  import opened Basics
  import opened Crc
  import opened Packets
  import opened DuplicateCache
  import opened Receiver
  import CrcDetection
  import PacketErrors
  import Endpoint
  import Retransmission
  import Runs
  import Writer
  import Hdlc

  /** A copy of a packet that reached the receiver's cache. */
  datatype Copy = Copy(packet: AckPacket, time: int)

  /** The arrivals that parse as packets with data, in order. */
  function ValidCopies(arrivals: seq<Arrival>): seq<Copy> {
    if arrivals == [] then []
    else
      var last := arrivals[|arrivals| - 1];
      ValidCopies(arrivals[..|arrivals| - 1]) +
      (match ParseAckPacket(last.packet)
       case Ok(packet) => [Copy(packet, last.time)]
       case Err(_) => [])
  }

  function Attempts(copies: seq<Copy>): (log: seq<Attempt>)
    ensures |log| == |copies|
  {
    seq(|copies|, k requires 0 <= k < |copies| => Attempt(FromByte(copies[k].packet.seqNum), copies[k].time))
  }

  predicate IsAccepted(copies: seq<Copy>, k: nat)
    requires k < |copies|
  {
    Accepted(Attempts(copies), k, COOLDOWN)
  }

  /** The copies that the cache lets through, in order. */
  function AcceptedCopies(copies: seq<Copy>): seq<Copy> {
    if copies == [] then []
    else
      var n := |copies| - 1;
      AcceptedCopies(copies[..n]) + (if IsAccepted(copies, n) then [copies[n]] else [])
  }

  function Payloads(copies: seq<Copy>): (data: seq<Bytes>)
    ensures |data| == |copies|
  {
    seq(|copies|, k requires 0 <= k < |copies| => copies[k].packet.data)
  }

  function QueuedAcks(copies: seq<Copy>): (acks: seq<Bytes>)
    ensures |acks| == |copies|
  {
    seq(|copies|, k requires 0 <= k < |copies| => AckBytes(AckFor(copies[k].packet)))
  }

  ghost predicate OnlyAckPackets(arrivals: seq<Arrival>) {
    forall a :: a in arrivals ==> a.packet != [] && a.packet[0] == ACKPACKET
  }

  lemma AttemptsSnoc(copies: seq<Copy>, c: Copy)
    ensures Attempts(copies + [c]) == Attempts(copies) + [Attempt(FromByte(c.packet.seqNum), c.time)]
    ensures AcceptedCopies(copies + [c])
         == AcceptedCopies(copies)
          + (if Admits(CacheAfter(Attempts(copies), COOLDOWN), FromByte(c.packet.seqNum), c.time, COOLDOWN)
             then [c] else [])
    ensures CacheAfter(Attempts(copies + [c]), COOLDOWN)
         == Stamped(CacheAfter(Attempts(copies), COOLDOWN), FromByte(c.packet.seqNum), c.time, COOLDOWN)
  {
    hide Admits, Stamped, FromByte;
    var all := copies + [c];
    assert all[..|copies|] == copies;
    assert Attempts(all) == Attempts(copies) + [Attempt(FromByte(c.packet.seqNum), c.time)];
    assert Attempts(all)[..|copies|] == Attempts(copies);
  }

  /** The reader after some copies: its cache, and one payload and one acknowledgement per accepted copy. */
  function StateAfter(copies: seq<Copy>): State {
    var accepted := AcceptedCopies(copies);
    State(CacheAfter(Attempts(copies), COOLDOWN), Payloads(accepted), QueuedAcks(accepted), map[])
  }

  lemma OneMoreCopy(copies: seq<Copy>, c: Copy)
    ensures StateAfter(copies + [c]) == HandledAckPacket(StateAfter(copies), c.packet, c.time)
  {
    hide AckBytes, AckFor, FromByte, IsAccepted, CacheAfter, Attempts, AcceptedCopies;
    AttemptsSnoc(copies, c);
    var accepted := AcceptedCopies(copies);
    assert Payloads(accepted + [c]) == Payloads(accepted) + [c.packet.data];
    assert QueuedAcks(accepted + [c]) == QueuedAcks(accepted) + [AckBytes(AckFor(c.packet))];
    assert accepted + [] == accepted;
  }

  /** What a new receiver has passed up and queued: one payload and one acknowledgement per accepted copy. */
  lemma {:induction false} ReceiverState(arrivals: seq<Arrival>)
    requires OnlyAckPackets(arrivals)
    ensures AllKnown(arrivals)
    ensures HandledAll(INITIAL, arrivals) == StateAfter(ValidCopies(arrivals))
  {
    hide ParseAckPacket, HandledAckPacket, StateAfter;
    if arrivals == [] {
      assert StateAfter([]) == INITIAL by { NoCopiesYet(); }
    } else {
      var init, last := arrivals[..|arrivals| - 1], arrivals[|arrivals| - 1];
      assert last in arrivals && OnlyAckPackets(init);
      ReceiverState(init);
      match ParseAckPacket(last.packet) {
        case Err(_) =>
          assert ValidCopies(arrivals) == ValidCopies(init);
        case Ok(packet) =>
          OneMoreCopy(ValidCopies(init), Copy(packet, last.time));
      }
    }
  }

  lemma NoCopiesYet()
    ensures StateAfter([]) == INITIAL
  {
  }

  /** The wire delivers only whole frames that were written to the port; any number of times, in any order. */
  ghost predicate FromPort(port: seq<Bytes>, arrivals: seq<Arrival>) {
    forall a :: a in arrivals ==> Hdlc.Encode(a.packet) in port
  }

  /** c is a copy of the i-th submission. */
  ghost predicate CopyOf(h: Retransmission.History, c: Copy, i: nat)
    requires i < |h.subs|
  {
    c.packet == NewAckPacket(ToByte(Retransmission.Key(i)), h.subs[i])
  }

  lemma WrittenPacketParses(s: U8, data: Bytes)
    ensures ParseAckPacket(Endpoint.PacketFor(s, data))
         == if data == [] then Err(InvalidLength) else Ok(NewAckPacket(ToByte(s), data))
    ensures Endpoint.PacketFor(s, data) != [] && Endpoint.PacketFor(s, data)[0] == ACKPACKET
  {
    hide ToByte;
    LeLength(NewAckPacket(ToByte(s), data).checksum);
    AckPacketParseIff(Endpoint.PacketFor(s, data), NewAckPacket(ToByte(s), data));
    hide CrcFrom, ToLeBytes;
  }

  lemma {:induction false} ValidCopiesOfRun(h: Retransmission.History, arrivals: seq<Arrival>)
    requires Retransmission.Inv(h) && FromPort(h.st.port, arrivals)
    ensures OnlyAckPackets(arrivals)
    ensures forall c :: c in ValidCopies(arrivals) ==> exists i: nat :: i < |h.subs| && CopyOf(h, c, i)
  {
    hide ParseAckPacket, NewAckPacket, Endpoint.PacketFor, Hdlc.Encode,
      Retransmission.Balanced, Retransmission.EntryFits;
    if arrivals != [] {
      var init, last := arrivals[..|arrivals| - 1], arrivals[|arrivals| - 1];
      assert last in arrivals;
      ValidCopiesOfRun(h, init);
      var j :| 0 <= j < |h.st.port| && h.st.port[j] == Hdlc.Encode(last.packet);
      var i := h.portIds[j];
      Hdlc.EncodeInjective(last.packet, Retransmission.PacketOf(h, i));
      WrittenPacketParses(Retransmission.Key(i), h.subs[i]);
      assert ParseAckPacket(last.packet).Ok? ==> CopyOf(h, Copy(ParseAckPacket(last.packet).value, last.time), i);
    }
  }

  /** However the frames that got through are cut into reads, the decoder hands over their packets. */
  lemma {:induction false} WholeFramesDecode(
    actions: seq<Endpoint.Action>, arrivals: seq<Arrival>, chunks: seq<Bytes>)
    requires Endpoint.Allowed(Endpoint.INITIAL, actions)
    requires FromPort(Endpoint.Exec(Endpoint.INITIAL, actions).port, arrivals)
    requires Flatten(chunks) == Hdlc.EncodeAll(PacketsOf(arrivals))
    ensures Hdlc.FramesOfReads(Hdlc.FRESH, chunks) == PacketsOf(arrivals)
  {
    hide Retransmission.Inv, Hdlc.Frames, Hdlc.Encode;
    ValidCopiesOfRun(Runs.RunOf(actions), arrivals);
    Hdlc.ChunkIndependence(Hdlc.FRESH, chunks);
    Hdlc.FrameListRoundTrip(PacketsOf(arrivals));
    Hdlc.DropEmptyKeepsAll(PacketsOf(arrivals));
  }

  function PacketsOf(arrivals: seq<Arrival>): (packets: seq<Bytes>)
    ensures |packets| == |arrivals|
  {
    seq(|arrivals|, k requires 0 <= k < |arrivals| => arrivals[k].packet)
  }

  lemma {:induction false} AcceptedAreCopies(copies: seq<Copy>)
    ensures forall c :: c in AcceptedCopies(copies) ==> c in copies
  {
    hide IsAccepted;
    if copies != [] {
      AcceptedAreCopies(copies[..|copies| - 1]);
    }
  }

  /** The payload is a submission, and the acknowledgement is the one for its sequence number. */
  ghost predicate DeliversSubmission(subs: seq<Bytes>, payload: Bytes, ack: Bytes) {
    exists i: nat :: i < |subs| && payload == subs[i] && ack == AckBytes(NewAck(ToByte(Retransmission.Key(i))))
  }

  /**
   Delivery safety: every payload passed up was submitted by the sender, and the acknowledgement
   queued with it carries the sequence number it was submitted under.
   */
  lemma {:induction false} OnlySubmissionsAreDelivered(actions: seq<Endpoint.Action>, arrivals: seq<Arrival>)
    requires Endpoint.Allowed(Endpoint.INITIAL, actions)
    requires FromPort(Endpoint.Exec(Endpoint.INITIAL, actions).port, arrivals)
    ensures AllKnown(arrivals)
    ensures var st := HandledAll(INITIAL, arrivals);
            && |st.delivered| == |st.acks|
            && forall k :: 0 <= k < |st.delivered| ==>
                 DeliversSubmission(Runs.Submitted(actions), st.delivered[k], st.acks[k])
  {
    hide AckBytes, NewAck, ToByte, IsAccepted, ParseAckPacket, HandledAll, Retransmission.Inv, Runs.Submitted;
    var h := Runs.RunOf(actions);
    Runs.RunRecords(actions);
    ValidCopiesOfRun(h, arrivals);
    ReceiverState(arrivals);
    var copies := ValidCopies(arrivals);
    var accepted := AcceptedCopies(copies);
    AcceptedAreCopies(copies);
    var st := HandledAll(INITIAL, arrivals);
    forall k | 0 <= k < |st.delivered|
      ensures DeliversSubmission(h.subs, st.delivered[k], st.acks[k])
    {
      var c := accepted[k];
      assert c in copies;
      var i: nat :| i < |h.subs| && CopyOf(h, c, i);
    }
  }

  /** Receiving the raw acknowledgement of a sequence number is exactly the acknowledgement step. */
  lemma AckFrameIsAckStep(st: State, now: int, endpoint: Endpoint.State, s: U8)
    requires st.table == endpoint.waiting
    ensures KnownType(AckBytes(NewAck(ToByte(s))))
    ensures Handled(st, AckBytes(NewAck(ToByte(s))), now)
         == st.(table := Endpoint.Apply(endpoint, Endpoint.AckArrives(s)).waiting)
  {
    var packet := NewAck(ToByte(s));
    AckParseIff(AckBytes(packet), packet);
    NumberOfByte(s);
    hide ParseAck, ToByte, FromByte, ToLeBytes, CrcFrom;
    LeLength(packet.checksum);
  }

  /** The acknowledgement steps that some arrivals amount to. */
  function AckSteps(arrivals: seq<Arrival>): seq<Endpoint.Action> {
    if arrivals == [] then []
    else
      var last := arrivals[|arrivals| - 1];
      AckSteps(arrivals[..|arrivals| - 1]) +
      (match ParseAck(last.packet)
       case Ok(packet) => [Endpoint.AckArrives(FromByte(packet.seqNum))]
       case Err(_) => [])
  }

  lemma HandledTable(st: State, packet: Bytes, now: int)
    requires KnownType(packet)
    ensures Handled(st, packet, now).table
         == match ParseAck(packet) { case Ok(p) => st.table - {FromByte(p.seqNum)} case Err(_) => st.table }
  {
    AcksStartWithAck(packet);
    hide ParseAckPacket, ParseNoAckPacket, ParseAck, FromByte;
  }

  lemma AcksStartWithAck(packet: Bytes)
    ensures ParseAck(packet).Ok? ==> packet != [] && packet[0] == ACK
  {
    hide CrcFrom;
  }

  /**
   Whatever arrives, the reader does to the shared table exactly what the acknowledgement steps for
   the valid acknowledgements among the arrivals do: what the writer has to expect at a free lock.
   */
  lemma {:induction false} ArrivalsAreAckSteps(st: State, arrivals: seq<Arrival>)
    requires AllKnown(arrivals)
    ensures Writer.OnlyAcks(AckSteps(arrivals))
    ensures HandledAll(st, arrivals).table == Writer.AfterAcks(st.table, AckSteps(arrivals))
  {
    hide ParseAck, Handled, FromByte, KnownType;
    if arrivals == [] {
      assert Writer.AfterAcks(st.table, []) == st.table;
    } else {
      var init, last := arrivals[..|arrivals| - 1], arrivals[|arrivals| - 1];
      assert last in arrivals && AllKnown(init);
      ArrivalsAreAckSteps(st, init);
      HandledTable(HandledAll(st, init), last.packet, last.time);
    }
  }

  /** A packet sent without acknowledgement is passed up every time it arrives, and never acknowledged. */
  lemma UnacknowledgedDelivery(st: State, data: Bytes, now: int)
    requires data != []
    ensures var packet := NoAckPacketBytes(NewNoAckPacket(data));
            KnownType(packet) && Handled(st, packet, now) == st.(delivered := st.delivered + [data])
  {
    NoAckPacketParseIff(NoAckPacketBytes(NewNoAckPacket(data)), NewNoAckPacket(data));
    hide ParseNoAckPacket, ToLeBytes, CrcFrom;
  }

  /** A packet that no parser accepts changes nothing at all. */
  lemma RejectedPacketIgnored(st: State, packet: Bytes, now: int)
    requires KnownType(packet) && !PacketErrors.Accepted(packet)
    ensures Handled(st, packet, now) == st
  {
    hide ParseAckPacket, ParseAck, ParseNoAckPacket;
  }

  /** So detectable damage to the checksummed bytes of a packet makes it as good as lost. */
  lemma {:induction false} DamagedPacketIgnored(st: State, packet: Bytes, e: Bytes, now: int)
    requires PacketErrors.Accepted(packet) && |e| == |packet| - 2 && PacketErrors.Detectable(e)
    requires KnownType(CrcDetection.XorBytes(Body(packet), e) + packet[|packet| - 2..])
    ensures Handled(st, CrcDetection.XorBytes(Body(packet), e) + packet[|packet| - 2..], now) == st
  {
    hide PacketErrors.Accepted, PacketErrors.Detectable, CrcDetection.XorBytes;
    PacketErrors.DetectableDamageRejected(packet, e);
    RejectedPacketIgnored(st, CrcDetection.XorBytes(Body(packet), e) + packet[|packet| - 2..], now);
  }
}
