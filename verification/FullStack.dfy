/**
 The layers put together: an ActiveMessage, its dispatch byte, an acknowledged packet, an HDLC
 frame, and the way back to one receiver.
 */
module FullStack {
  import opened Basics
  import opened Am
  import opened Registry
  import Packets
  import Endpoint
  import Runs
  import Receiver
  import Delivery
  import SingleDelivery
  import Hdlc

  // ---------- The connection's workers ----------

  /** Sends what one dispatcher produces to the transport, behind its dispatch byte. */
  class DispatcherWorker {
    const dispatchByte: bv8
    var tx: seq<Bytes>

    constructor (dispatchByte: bv8)
      ensures this.dispatchByte == dispatchByte && tx == []
    {
      this.dispatchByte := dispatchByte;
      tx := [];
    }

    method Send(message: Bytes)
      modifies this
      ensures tx == old(tx) + [Prefixed(dispatchByte, message)]
      ensures tx[|tx| - 1][0] == dispatchByte && tx[|tx| - 1][1..] == message
    {
      tx := tx + [[dispatchByte] + message];
    }
  }

  /** Hands what the transport delivers to the dispatcher that its first byte names, if there is one. */
  class TransportWorker {
    var txs: map<U8, seq<Bytes>>

    constructor (txs: map<U8, seq<Bytes>>)
      ensures this.txs == txs
    {
      this.txs := txs;
    }

    method Send(message: Bytes)
      requires message != []
      modifies this
      ensures txs == Routed(old(txs), message)
      ensures txs.Keys == old(txs).Keys
      ensures forall k :: k in txs ==>
                txs[k] == old(txs)[k] + (if k == FromByte(message[0]) then [message[1..]] else [])
    {
      var key := FromByte(message[0]);
      if key in txs {
        txs := txs[key := txs[key] + [message[1..]]];
      }
    }
  }

  function Prefixed(dispatchByte: bv8, message: Bytes): Bytes {
    [dispatchByte] + message
  }

  function Routed(txs: map<U8, seq<Bytes>>, message: Bytes): map<U8, seq<Bytes>>
    requires message != []
  {
    var key := FromByte(message[0]);
    if key in txs then txs[key := txs[key] + [message[1..]]] else txs
  }

  /** What a dispatcher sends goes, without the byte in front, to the peer of that byte and nowhere else. */
  lemma {:induction false} RoutedExactly(txs: map<U8, seq<Bytes>>, dispatchByte: bv8, message: Bytes)
    ensures var after := Routed(txs, Prefixed(dispatchByte, message));
            && after.Keys == txs.Keys
            && forall k :: k in txs ==>
                 after[k] == txs[k] + (if k == FromByte(dispatchByte) then [message] else [])
  {
    hide FromByte;
    var sent := Prefixed(dispatchByte, message);
    assert sent[1..] == message;
    assert forall k :: k in txs ==> txs[k] + [] == txs[k];
  }

  /** The ActiveMessage worker: which receiver gets which message for some incoming bytes. */
  function Dispatched(group: Option<bv8>, addr: bv16, registered: Registered, data: Bytes): Option<(nat, Message)> {
    match Parse(data)
    case Accepted(m) =>
      if group == None || group == Some(m.group) then
        match SelectReceiver(registered, addr, m.dest, FromByte(m.id))
        case Some(receiver) => Some((receiver, m))
        case None => None
      else None
    case _ => None
  }

  /**
   A message is dispatched exactly when it is well formed, its bytes arrived, its group is accepted,
   and somebody is registered for it: then to the last one registered, as a receiver when it is for
   this address or for everybody, and else as a snooper.
   */
  lemma {:induction false} DispatchedIff(
    group: Option<bv8>, addr: bv16, regs: seq<Registration>, data: Bytes, receiver: nat, m: Message)
    ensures Dispatched(group, addr, RegisterAll(regs), data) == Some((receiver, m)) <==>
              && WellFormed(m) && data == Serialize(m)
              && (group.Some? ==> group.value == m.group)
              && Some(receiver) == (if m.dest == 0xFFFF || m.dest == addr
                 then OrElse(LastFor(regs, ReceiverFor(FromByte(m.id))), LastFor(regs, DefaultReceiver))
                 else OrElse(LastFor(regs, SnooperFor(FromByte(m.id))), LastFor(regs, DefaultSnooper)))
  {
    SelectedByHistory(regs, addr, m.dest, FromByte(m.id));
    RoundTripIff(m);
    if Parse(data).Accepted? {
      ParsedReserializes(data);
    }
    hide Serialize, Parse, SelectReceiver, RegisterAll, LastFor, FromByte, WellFormed;
  }

  // ---------- There and back ----------

  /** The bytes an endpoint submits for a message. */
  function Submission(dispatchByte: bv8, m: Message): Bytes {
    Prefixed(dispatchByte, Serialize(m))
  }

  /**
   A well-formed message, submitted under any sequence number and read in any pieces by a new
   reader, is passed up once with one acknowledgement, stripped of its dispatch byte for its
   dispatcher, and dispatched unchanged to the receiver selected for its destination.
   */
  lemma {:induction false} MessageArrives(
    m: Message, dispatchByte: bv8, s: U8, chunks: seq<Bytes>, now: int,
    txs: map<U8, seq<Bytes>>, group: Option<bv8>, addr: bv16, registered: Registered)
    requires WellFormed(m)
    requires Flatten(chunks) == Hdlc.Encode(Endpoint.PacketFor(s, Submission(dispatchByte, m)))
    requires FromByte(dispatchByte) in txs
    ensures Hdlc.FramesOfReads(Hdlc.FRESH, chunks) == [Endpoint.PacketFor(s, Submission(dispatchByte, m))]
    ensures var packet := Endpoint.PacketFor(s, Submission(dispatchByte, m));
            && Receiver.KnownType(packet)
            && var st := Receiver.Handled(Receiver.INITIAL, packet, now);
               && st.delivered == [Submission(dispatchByte, m)]
               && st.acks == [Packets.AckBytes(Packets.NewAck(ToByte(s)))]
    ensures Routed(txs, Submission(dispatchByte, m))
         == txs[FromByte(dispatchByte) := txs[FromByte(dispatchByte)] + [Serialize(m)]]
    ensures Dispatched(group, addr, registered, Serialize(m))
         == if group == None || group == Some(m.group)
            then (match SelectReceiver(registered, addr, m.dest, FromByte(m.id))
                  case Some(receiver) => Some((receiver, m))
                  case None => None)
            else None
  {
    hide Serialize, Parse, Endpoint.PacketFor, Hdlc.Encode, Hdlc.Frames, Packets.ParseAckPacket, Packets.NewAckPacket;
    var data := Submission(dispatchByte, m);
    Delivery.WrittenPacketParses(s, data);
    OneFrameDecodes(Endpoint.PacketFor(s, data), chunks);
    FirstPacketIsDelivered(s, data, now);
    assert data[1..] == Serialize(m);
    RoundTripIff(m);
  }

  lemma OneFrameDecodes(packet: Bytes, chunks: seq<Bytes>)
    requires packet != [] && Flatten(chunks) == Hdlc.Encode(packet)
    ensures Hdlc.FramesOfReads(Hdlc.FRESH, chunks) == [packet]
  {
    hide Hdlc.Encode, Hdlc.Frames;
    Hdlc.ChunkIndependence(Hdlc.FRESH, chunks);
    Hdlc.EncodedFrame(Hdlc.FRESH, packet);
  }

  /** A new reader accepts the first packet it gets, whatever its sequence number. */
  lemma FirstPacketIsDelivered(s: U8, data: Bytes, now: int)
    requires data != []
    ensures var packet := Endpoint.PacketFor(s, data);
            && Receiver.KnownType(packet)
            && var st := Receiver.Handled(Receiver.INITIAL, packet, now);
               st.delivered == [data] && st.acks == [Packets.AckBytes(Packets.NewAck(ToByte(s)))]
  {
    Delivery.WrittenPacketParses(s, data);
    NewAckPacketFields(s, data);
    hide Endpoint.PacketFor, Packets.ParseAckPacket, Packets.NewAckPacket, ToByte, Packets.NewAck, Packets.AckBytes;
  }

  lemma NewAckPacketFields(s: U8, data: Bytes)
    ensures Packets.NewAckPacket(ToByte(s), data).data == data
    ensures Packets.AckFor(Packets.NewAckPacket(ToByte(s), data)) == Packets.NewAck(ToByte(s))
  {
  }

  /** What becomes of a delivered payload behind its dispatch byte. */
  function DispatchedFrom(
    group: Option<bv8>, addr: bv16, registered: Registered, payload: Bytes): Option<(nat, Message)>
  {
    if payload == [] then None else Dispatched(group, addr, registered, payload[1..])
  }

  /**
   Nothing is invented: over a wire that drops, repeats and reorders the frames of a run, every
   payload delivered has a dispatch byte, and every message dispatched from it is one that the
   sender submitted, and well formed.
   */
  lemma {:induction false} OnlySentMessagesArrive(
    actions: seq<Endpoint.Action>, arrivals: seq<Receiver.Arrival>, k: nat,
    group: Option<bv8>, addr: bv16, registered: Registered)
    requires Endpoint.Allowed(Endpoint.INITIAL, actions)
    requires Delivery.FromPort(Endpoint.Exec(Endpoint.INITIAL, actions).port, arrivals)
    requires Receiver.AllKnown(arrivals)
    requires k < |Receiver.HandledAll(Receiver.INITIAL, arrivals).delivered|
    ensures var payload := Receiver.HandledAll(Receiver.INITIAL, arrivals).delivered[k];
            && payload != []
            && match DispatchedFrom(group, addr, registered, payload)
               case None => true
               case Some((receiver, m)) =>
                 && WellFormed(m)
                 && payload == Submission(payload[0], m) && payload in Runs.Submitted(actions)
                 && SelectReceiver(registered, addr, m.dest, FromByte(m.id)) == Some(receiver)
  {
    hide Serialize, Parse, Receiver.HandledAll, SelectReceiver, ToByte, Runs.Submitted;
    Delivery.OnlySubmissionsAreDelivered(actions, arrivals);
    SingleDelivery.DeliveredNotEmpty(Receiver.INITIAL, arrivals);
    var payload := Receiver.HandledAll(Receiver.INITIAL, arrivals).delivered[k];
    if DispatchedFrom(group, addr, registered, payload).Some? {
      ParsedReserializes(payload[1..]);
      assert payload == [payload[0]] + payload[1..];
    }
  }
}
