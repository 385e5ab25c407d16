/** The reader: decoded packets are dispatched by their first byte. */
module Receiver {
  import opened Basics
  import opened Packets
  import opened DuplicateCache
  import opened Writer
  import Endpoint
  import Hdlc

  /** How long, in milliseconds, an accepted sequence number blocks its repetitions. */
  const COOLDOWN: nat := 10000

  /** What handling packets can change: the cache, the two outgoing queues, and the shared table. */
  datatype State = State(cache: Stamps, delivered: seq<Bytes>, acks: seq<Bytes>, table: Endpoint.Table)

  const INITIAL := State(map[], [], [], map[])

  /** The reader panics on any other first byte. */
  predicate KnownType(packet: Bytes) {
    packet == [] || packet[0] == ACKPACKET || packet[0] == ACK || packet[0] == NOACKPACKET
  }

  function HandledAckPacket(st: State, packet: AckPacket, now: int): State {
    var s := FromByte(packet.seqNum);
    if Admits(st.cache, s, now, COOLDOWN) then
      st.(cache := st.cache[s := now], delivered := st.delivered + [packet.data],
          acks := st.acks + [AckBytes(AckFor(packet))])
    else st
  }

  function Handled(st: State, packet: Bytes, now: int): State
    requires KnownType(packet)
  {
    if packet == [] then st
    else if packet[0] == ACKPACKET then
      match ParseAckPacket(packet)
      case Ok(p) => HandledAckPacket(st, p, now)
      case Err(_) => st
    else if packet[0] == ACK then
      match ParseAck(packet)
      case Ok(p) => st.(table := st.table - {FromByte(p.seqNum)})
      case Err(_) => st
    else
      match ParseNoAckPacket(packet)
      case Ok(p) => st.(delivered := st.delivered + [p.data])
      case Err(_) => st
  }

  datatype Arrival = Arrival(packet: Bytes, time: int)

  function HandledAll(st: State, arrivals: seq<Arrival>): State
    requires forall a :: a in arrivals ==> KnownType(a.packet)
  {
    if arrivals == [] then st
    else
      var last := arrivals[|arrivals| - 1];
      assert last in arrivals;
      Handled(HandledAll(st, arrivals[..|arrivals| - 1]), last.packet, last.time)
  }

  class SerialWorker {
    const seqNumCache: SeqNumCache
    const waiting: AckTable
    const decoder: Hdlc.HdlcCodec
    var tx: seq<Bytes>
    var loopback: seq<Bytes>

    constructor (waiting: AckTable)
      ensures this.waiting == waiting && fresh(seqNumCache) && fresh(decoder)
      ensures seqNumCache.timeout == COOLDOWN && decoder.View() == Hdlc.FRESH
      ensures seqNumCache.seqNums == map[] && tx == [] && loopback == []
    {
      seqNumCache := new SeqNumCache(COOLDOWN);
      this.waiting := waiting;
      decoder := new Hdlc.HdlcCodec();
      tx, loopback := [], [];
    }

    ghost function View(): State
      reads this, seqNumCache, waiting
    {
      State(seqNumCache.seqNums, tx, loopback, waiting.entries)
    }

    method HandleData(data: Bytes, now: int)
      requires seqNumCache.timeout == COOLDOWN && KnownType(data)
      modifies this, seqNumCache, waiting
      ensures View() == Handled(old(View()), data, now)
    {
      hide ParseAckPacket, ParseAck, ParseNoAckPacket, HandledAckPacket;
      if data != [] {
        if data[0] == ACKPACKET {
          HandleAckPacket(data, now);
        } else if data[0] == ACK {
          HandleAck(data);
        } else {
          HandleNoAckPacket(data);
        }
      }
    }

    method HandleAckPacket(data: Bytes, now: int)
      requires seqNumCache.timeout == COOLDOWN
      modifies this, seqNumCache
      ensures View() == match ParseAckPacket(data)
                        case Ok(packet) => HandledAckPacket(old(View()), packet, now)
                        case Err(_) => old(View())
    {
      hide ParseAckPacket;
      var parsed := TryAckPacket(data);
      match parsed {
        case Ok(packet) =>
          var accepted := seqNumCache.Insert(FromByte(packet.seqNum), now);
          if accepted {
            var ack := AckFor(packet);
            loopback := loopback + [AckBytes(ack)];
            tx := tx + [packet.data];
          }
        case Err(_) =>
      }
    }

    method HandleAck(data: Bytes)
      modifies waiting
      ensures waiting.entries == match ParseAck(data)
                                 case Ok(packet) => old(waiting.entries) - {FromByte(packet.seqNum)}
                                 case Err(_) => old(waiting.entries)
    {
      hide ParseAck;
      var parsed := TryAck(data);
      match parsed {
        case Ok(packet) =>
          var s := FromByte(packet.seqNum);
          if s in waiting.entries {
            waiting.entries := waiting.entries - {s};
          } else {
            assert waiting.entries - {s} == waiting.entries;
          }
        case Err(_) =>
      }
    }

    method HandleNoAckPacket(data: Bytes)
      modifies this`tx
      ensures tx == match ParseNoAckPacket(data)
                    case Ok(packet) => old(tx) + [packet.data]
                    case Err(_) => old(tx)
    {
      hide ParseNoAckPacket;
      var parsed := TryNoAckPacket(data);
      match parsed {
        case Ok(packet) => tx := tx + [packet.data];
        case Err(_) =>
      }
    }

    /** The packets decoded from one read, each handled at its time. */
    method HandlePackets(packets: seq<Bytes>, times: seq<int>)
      requires seqNumCache.timeout == COOLDOWN
      requires |packets| == |times| && forall p :: p in packets ==> KnownType(p)
      modifies this, seqNumCache, waiting
      ensures AllKnown(Timed(packets, times))
      ensures View() == HandledAll(old(View()), Timed(packets, times))
    {
      hide Handled;
      ghost var arrivals := Timed(packets, times);
      TimedKnown(packets, times);
      for k := 0 to |packets|
        invariant AllKnown(arrivals[..k])
        invariant View() == HandledAll(old(View()), arrivals[..k])
      {
        HandleData(packets[k], times[k]);
        assert arrivals[..k + 1] == arrivals[..k] + [arrivals[k]];
      }
      assert arrivals[..|packets|] == arrivals;
    }

    /**
     The reader loop over a list of reads, given when each decoded packet is handled: the decoded
     packets of the whole stream are handled in order.
     */
    method Start(chunks: seq<Bytes>, times: seq<int>)
      requires seqNumCache.timeout == COOLDOWN
      requires |times| == |Hdlc.FramesOfReads(decoder.View(), chunks)|
      requires forall p :: p in Hdlc.FramesOfReads(decoder.View(), chunks) ==> KnownType(p)
      modifies this, seqNumCache, waiting, decoder
      ensures AllKnown(Timed(old(Hdlc.FramesOfReads(decoder.View(), chunks)), times))
      ensures View() == HandledAll(old(View()), Timed(old(Hdlc.FramesOfReads(decoder.View(), chunks)), times))
      ensures decoder.View() == Hdlc.FinalOfReads(old(decoder.View()), chunks)
    {
      hide Hdlc.Final, Hdlc.Frames, HandledAll;
      ghost var all := Hdlc.FramesOfReads(decoder.View(), chunks);
      ghost var arrivals := Timed(all, times);
      TimedKnown(all, times);
      HandledNone(View());
      var handled := 0;
      var i := 0;
      while i < |chunks|
        invariant 0 <= i <= |chunks| && 0 <= handled <= |all|
        invariant Hdlc.FinalOfReads(decoder.View(), chunks[i..]) == Hdlc.FinalOfReads(old(decoder.View()), chunks)
        invariant Hdlc.FramesOfReads(decoder.View(), chunks[i..]) == all[handled..]
        invariant AllKnown(arrivals[..handled])
        invariant View() == HandledAll(old(View()), arrivals[..handled])
      {
        var packets := decoder.Decode(chunks[i]);
        assert chunks[i..][0] == chunks[i] && chunks[i..][1..] == chunks[i + 1..];
        assert all[handled..] == packets + Hdlc.FramesOfReads(decoder.View(), chunks[i + 1..]);
        var next := handled + |packets|;
        assert packets == all[handled..next];
        HandlePackets(packets, times[handled..next]);
        assert Timed(packets, times[handled..next]) == arrivals[handled..next];
        HandledAllConcat(old(View()), arrivals[..handled], arrivals[handled..next]);
        assert arrivals[..handled] + arrivals[handled..next] == arrivals[..next];
        handled := next;
        i := i + 1;
      }
      assert arrivals[..handled] == arrivals;
    }
  }

  lemma HandledNone(st: State)
    ensures HandledAll(st, []) == st
  {
  }

  lemma {:induction false} HandledAllConcat(st: State, a: seq<Arrival>, b: seq<Arrival>)
    requires AllKnown(a) && AllKnown(b)
    ensures AllKnown(a + b) && HandledAll(st, a + b) == HandledAll(HandledAll(st, a), b)
  {
    hide Handled;
    if b == [] {
      assert a + b == a;
    } else {
      var init := b[..|b| - 1];
      assert (a + b)[..|a + b| - 1] == a + init;
      HandledAllConcat(st, a, init);
    }
  }

  ghost predicate AllKnown(arrivals: seq<Arrival>) {
    forall a :: a in arrivals ==> KnownType(a.packet)
  }

  function Timed(packets: seq<Bytes>, times: seq<int>): (arrivals: seq<Arrival>)
    requires |packets| == |times|
    ensures |arrivals| == |packets|
  {
    seq(|packets|, i requires 0 <= i < |packets| => Arrival(packets[i], times[i]))
  }

  lemma TimedKnown(packets: seq<Bytes>, times: seq<int>)
    requires |packets| == |times| && forall p :: p in packets ==> KnownType(p)
    ensures AllKnown(Timed(packets, times))
  {
  }
}
