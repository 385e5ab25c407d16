/** The cooldown end to end: which copies are passed up, whatever else arrives in between. */
module SingleDelivery {
  import opened Basics
  import opened Crc
  import opened Packets
  import opened DuplicateCache
  import opened Receiver
  import opened Delivery
  import Endpoint
  import Retransmission
  import Runs
  import Hdlc

  ghost predicate InOrder(arrivals: seq<Arrival>) {
    forall i, j :: 0 <= i < j < |arrivals| ==> arrivals[i].time <= arrivals[j].time
  }

  /** A new reader after the first k arrivals. */
  function After(arrivals: seq<Arrival>, k: nat): State
    requires AllKnown(arrivals) && k <= |arrivals|
  {
    assert forall a :: a in arrivals[..k] ==> a in arrivals;
    HandledAll(INITIAL, arrivals[..k])
  }

  /** The arrival is a valid packet under this sequence number. */
  predicate Carries(a: Arrival, s: U8) {
    ParseAckPacket(a.packet).Ok? && FromByte(ParseAckPacket(a.packet).value.seqNum) == s
  }

  /** The cache lets the k-th arrival through, a valid packet under this sequence number. */
  ghost predicate Admitted(arrivals: seq<Arrival>, k: nat, s: U8)
    requires AllKnown(arrivals) && k < |arrivals|
  {
    Carries(arrivals[k], s) && Admits(After(arrivals, k).cache, s, arrivals[k].time, COOLDOWN)
  }

  /** Every admitted arrival under this sequence number before the j-th is more than the cooldown older. */
  ghost predicate CooledDown(arrivals: seq<Arrival>, j: nat, s: U8)
    requires AllKnown(arrivals) && j < |arrivals|
  {
    forall k :: 0 <= k < j && Admitted(arrivals, k, s) ==> arrivals[k].time < arrivals[j].time - COOLDOWN
  }

  /** The k-th arrival adds this payload and this acknowledgement. */
  ghost predicate PassesUp(arrivals: seq<Arrival>, k: nat, payload: Bytes, ack: Bytes)
    requires AllKnown(arrivals) && k < |arrivals|
  {
    && After(arrivals, k + 1).delivered == After(arrivals, k).delivered + [payload]
    && After(arrivals, k + 1).acks == After(arrivals, k).acks + [ack]
  }

  /** The k-th arrival changes nothing at all. */
  ghost predicate Ignored(arrivals: seq<Arrival>, k: nat)
    requires AllKnown(arrivals) && k < |arrivals|
  {
    After(arrivals, k + 1) == After(arrivals, k)
  }

  lemma NextArrival(arrivals: seq<Arrival>, k: nat)
    requires AllKnown(arrivals) && k < |arrivals|
    ensures arrivals[k] in arrivals
    ensures After(arrivals, k + 1) == Handled(After(arrivals, k), arrivals[k].packet, arrivals[k].time)
  {
    hide Handled, KnownType;
    assert arrivals[..k + 1][..k] == arrivals[..k];
  }

  /** What one arrival does to the stamp of one sequence number. */
  lemma HandledStamp(st: State, a: Arrival, s: U8)
    requires KnownType(a.packet)
    ensures var cache := Handled(st, a.packet, a.time).cache;
            if Carries(a, s) && Admits(st.cache, s, a.time, COOLDOWN) then s in cache && cache[s] == a.time
            else (s in cache <==> s in st.cache) && (s in cache ==> cache[s] == st.cache[s])
  {
    TypeOfAckPacket(a.packet);
    hide ParseAckPacket, ParseAck, ParseNoAckPacket, FromByte, AckBytes, AckFor;
  }

  lemma TypeOfAckPacket(packet: Bytes)
    ensures ParseAckPacket(packet).Ok? ==> packet != [] && packet[0] == ACKPACKET
  {
    hide CrcFrom;
  }

  /** A valid packet is passed up or ignored, as the cache decides. */
  lemma HandledPacket(st: State, a: Arrival, s: U8)
    requires KnownType(a.packet) && Carries(a, s)
    ensures var packet, after := ParseAckPacket(a.packet).value, Handled(st, a.packet, a.time);
            if Admits(st.cache, s, a.time, COOLDOWN) then
              after.delivered == st.delivered + [packet.data] && after.acks == st.acks + [AckBytes(AckFor(packet))]
            else after == st
  {
    TypeOfAckPacket(a.packet);
    hide ParseAckPacket, ParseAck, ParseNoAckPacket, FromByte, AckBytes, AckFor;
  }

  /**
   The cooldown, in numbers: of a packet sent again under a sequence number, exactly the copies up
   to 10000 milliseconds after the accepted one change nothing; any other is passed up once more.
   */
  lemma {:induction false} RepetitionIgnoredIff(st: State, s: U8, data: Bytes, now: int)
    requires data != []
    ensures KnownType(Endpoint.PacketFor(s, data))
    ensures var after := Handled(st, Endpoint.PacketFor(s, data), now);
            if s in st.cache && now <= st.cache[s] + 10000 then after == st
            else after == State(st.cache[s := now], st.delivered + [data],
                                st.acks + [AckBytes(NewAck(ToByte(s)))], st.table)
  {
    WrittenPacketParses(s, data);
    NumberOfByte(s);
    AckOfPacket(s, data);
    hide Endpoint.PacketFor, ParseAckPacket, ParseAck, ParseNoAckPacket, NewAckPacket, NewAck, AckFor, AckBytes,
      ToByte, FromByte;
  }

  /** A stamp is never replaced by an older one. */
  lemma {:induction false} StampNotOlder(arrivals: seq<Arrival>, s: U8, t: int, j: nat, k: nat)
    requires AllKnown(arrivals) && j <= k <= |arrivals|
    requires s in After(arrivals, j).cache && t <= After(arrivals, j).cache[s]
    requires forall m :: j <= m < |arrivals| ==> t <= arrivals[m].time
    ensures s in After(arrivals, k).cache && t <= After(arrivals, k).cache[s]
  {
    hide Handled, KnownType, After, Carries;
    if j < k {
      StampNotOlder(arrivals, s, t, j, k - 1);
      NextArrival(arrivals, k - 1);
      HandledStamp(After(arrivals, k - 1), arrivals[k - 1], s);
    }
  }

  /** Every stamp is the time of an admitted arrival under its sequence number. */
  lemma {:induction false} StampHasSource(arrivals: seq<Arrival>, s: U8, k: nat)
    requires AllKnown(arrivals) && k <= |arrivals| && s in After(arrivals, k).cache
    ensures exists m :: 0 <= m < k && Admitted(arrivals, m, s) && After(arrivals, k).cache[s] == arrivals[m].time
  {
    if k == 0 {
      NothingStamped(arrivals, s);
      assert false;
    } else {
      hide Handled, KnownType, After, Carries;
      NextArrival(arrivals, k - 1);
      HandledStamp(After(arrivals, k - 1), arrivals[k - 1], s);
      if !Admitted(arrivals, k - 1, s) {
        StampHasSource(arrivals, s, k - 1);
      }
    }
  }

  lemma NothingStamped(arrivals: seq<Arrival>, s: U8)
    requires AllKnown(arrivals)
    ensures s !in After(arrivals, 0).cache
  {
  }

  /**
   Once an arrival under a sequence number is admitted, it is passed up and acknowledged, and every
   other arrival under that number within the cooldown of it, before or after, is ignored.
   */
  lemma {:induction false} OneDelivery(arrivals: seq<Arrival>, s: U8, j: nat)
    requires AllKnown(arrivals) && InOrder(arrivals) && j < |arrivals| && Admitted(arrivals, j, s)
    ensures var packet := ParseAckPacket(arrivals[j].packet).value;
            PassesUp(arrivals, j, packet.data, AckBytes(AckFor(packet)))
    ensures forall k: nat :: k < |arrivals| && k != j && Carries(arrivals[k], s)
              && arrivals[j].time - COOLDOWN <= arrivals[k].time <= arrivals[j].time + COOLDOWN
              ==> Ignored(arrivals, k)
  {
    hide Handled, KnownType, After, Carries;
    NextArrival(arrivals, j);
    HandledPacket(After(arrivals, j), arrivals[j], s) by { assert arrivals[j] in arrivals; }
    HandledStamp(After(arrivals, j), arrivals[j], s);
    forall k: nat | k < |arrivals| && k != j && Carries(arrivals[k], s)
        && arrivals[j].time - COOLDOWN <= arrivals[k].time <= arrivals[j].time + COOLDOWN
      ensures Ignored(arrivals, k)
    {
      NextArrival(arrivals, k);
      HandledPacket(After(arrivals, k), arrivals[k], s);
      HandledStamp(After(arrivals, k), arrivals[k], s);
      if k < j {
        if Admits(After(arrivals, k).cache, s, arrivals[k].time, COOLDOWN) {
          StampNotOlder(arrivals, s, arrivals[k].time, k + 1, j);
          assert false;
        }
      } else {
        StampNotOlder(arrivals, s, arrivals[j].time, j + 1, k);
      }
    }
  }

  /** A valid packet is admitted if and only if the admitted ones under its number before it have cooled down. */
  lemma {:induction false} AdmittedIff(arrivals: seq<Arrival>, s: U8, j: nat)
    requires AllKnown(arrivals) && InOrder(arrivals) && j < |arrivals| && Carries(arrivals[j], s)
    ensures Admitted(arrivals, j, s) <==> CooledDown(arrivals, j, s)
  {
    hide After, Carries, Handled, KnownType;
    if CooledDown(arrivals, j, s) && s in After(arrivals, j).cache {
      StampHasSource(arrivals, s, j);
    }
    if Admitted(arrivals, j, s) {
      forall k | 0 <= k < j && Admitted(arrivals, k, s)
        ensures arrivals[k].time < arrivals[j].time - COOLDOWN
      {
        NextArrival(arrivals, k);
        HandledStamp(After(arrivals, k), arrivals[k], s);
        StampNotOlder(arrivals, s, arrivals[k].time, k + 1, j);
      }
    }
  }

  /** A copy that finds its number cooled down is passed up, and the next copies are ignored. */
  lemma {:induction false} CopiesDeliveredOnce(arrivals: seq<Arrival>, s: U8, data: Bytes, j: nat)
    requires AllKnown(arrivals) && InOrder(arrivals) && data != []
    requires j < |arrivals| && arrivals[j].packet == Endpoint.PacketFor(s, data)
    requires CooledDown(arrivals, j, s)
    ensures PassesUp(arrivals, j, data, AckBytes(NewAck(ToByte(s))))
    ensures forall k: nat :: j < k < |arrivals| && arrivals[k].packet == Endpoint.PacketFor(s, data)
              && arrivals[k].time <= arrivals[j].time + COOLDOWN
              ==> Ignored(arrivals, k)
  {
    WrittenPacketParses(s, data);
    NumberOfByte(s);
    AckOfPacket(s, data);
    hide After, Ignored, PassesUp, Admitted, CooledDown, Endpoint.PacketFor, ParseAckPacket, NewAckPacket, AckBytes,
      NewAck, ToByte, FromByte, AckFor;
    AdmittedIff(arrivals, s, j);
    OneDelivery(arrivals, s, j);
  }

  /** The k-th arrival is a copy of the i-th submission. */
  ghost predicate IsCopy(arrivals: seq<Arrival>, k: nat, subs: seq<Bytes>, i: nat) {
    && k < |arrivals| && i < |subs|
    && arrivals[k].packet == Endpoint.PacketFor(Retransmission.Key(i), subs[i])
  }

  /** Whatever comes from a run's port is a copy of some submission, under that submission's number. */
  lemma {:induction false} ArrivalIsCopy(actions: seq<Endpoint.Action>, arrivals: seq<Arrival>, k: nat, s: U8)
    requires Endpoint.Allowed(Endpoint.INITIAL, actions)
    requires FromPort(Endpoint.Exec(Endpoint.INITIAL, actions).port, arrivals)
    requires k < |arrivals| && Carries(arrivals[k], s)
    ensures exists i: nat :: IsCopy(arrivals, k, Runs.Submitted(actions), i) && Retransmission.Key(i) == s
  {
    hide Endpoint.PacketFor, ParseAckPacket, Hdlc.Encode, Runs.Submitted, FromByte, ToByte,
      Retransmission.Key, Retransmission.TableFits, Retransmission.LedgerFits, Retransmission.ClockFits;
    var h := Runs.RunOf(actions);
    Runs.RunRecords(actions);
    assert arrivals[k] in arrivals;
    var j :| 0 <= j < |h.st.port| && h.st.port[j] == Hdlc.Encode(arrivals[k].packet);
    var i := h.portIds[j];
    Hdlc.EncodeInjective(arrivals[k].packet, Retransmission.PacketOf(h, i));
    WrittenPacketParses(Retransmission.Key(i), h.subs[i]);
    AckOfPacket(Retransmission.Key(i), h.subs[i]);
    NumberOfByte(Retransmission.Key(i));
    assert IsCopy(arrivals, k, Runs.Submitted(actions), i);
  }

  /**
   Nothing is lost and nothing is doubled, as long as sequence numbers are not reused too fast: if
   the copies of other submissions under the same number came more than the cooldown before the
   first copy of a submission, that copy is passed up and acknowledged under its number, and the
   other copies in the cooldown after it are ignored. With up to 256 submissions there are no others.
   */
  lemma {:induction false} SubmissionDeliveredOnce(
    actions: seq<Endpoint.Action>, arrivals: seq<Arrival>, i: nat, j: nat)
    requires Endpoint.Allowed(Endpoint.INITIAL, actions)
    requires FromPort(Endpoint.Exec(Endpoint.INITIAL, actions).port, arrivals)
    requires AllKnown(arrivals) && InOrder(arrivals)
    requires IsCopy(arrivals, j, Runs.Submitted(actions), i) && Runs.Submitted(actions)[i] != []
    requires forall k: nat :: k < j ==> !IsCopy(arrivals, k, Runs.Submitted(actions), i)
    requires forall k: nat, other: nat :: k < j && IsCopy(arrivals, k, Runs.Submitted(actions), other)
               && other != i && Retransmission.Key(other) == Retransmission.Key(i)
               ==> arrivals[k].time < arrivals[j].time - COOLDOWN
    ensures PassesUp(arrivals, j, Runs.Submitted(actions)[i], AckBytes(NewAck(ToByte(Retransmission.Key(i)))))
    ensures forall k: nat :: j < k && IsCopy(arrivals, k, Runs.Submitted(actions), i)
              && arrivals[k].time <= arrivals[j].time + COOLDOWN
              ==> Ignored(arrivals, k)
  {
    hide After, Ignored, PassesUp, Carries, Endpoint.PacketFor, AckBytes, NewAck, ToByte, KnownType,
      Runs.Submitted, Retransmission.Key, Endpoint.Exec, Endpoint.Allowed, HandledAll;
    var s := Retransmission.Key(i);
    forall k | 0 <= k < j && Admitted(arrivals, k, s)
      ensures arrivals[k].time < arrivals[j].time - COOLDOWN
    {
      ArrivalIsCopy(actions, arrivals, k, s);
    }
    CopiesDeliveredOnce(arrivals, s, Runs.Submitted(actions)[i], j);
  }

  lemma AckOfPacket(s: U8, data: Bytes)
    ensures NewAckPacket(ToByte(s), data).seqNum == ToByte(s)
    ensures NewAckPacket(ToByte(s), data).data == data
    ensures AckFor(NewAckPacket(ToByte(s), data)) == NewAck(ToByte(s))
  {
    hide ToByte;
  }

  /** No payload passed up is empty. */
  lemma {:induction false} DeliveredNotEmpty(st: State, arrivals: seq<Arrival>)
    requires AllKnown(arrivals) && [] !in st.delivered
    ensures [] !in HandledAll(st, arrivals).delivered
  {
    hide Handled, KnownType;
    if arrivals != [] {
      var init, last := arrivals[..|arrivals| - 1], arrivals[|arrivals| - 1];
      assert last in arrivals && AllKnown(init);
      DeliveredNotEmpty(st, init);
      HandledNotEmpty(HandledAll(st, init), last.packet, last.time);
    }
  }

  lemma HandledNotEmpty(st: State, packet: Bytes, now: int)
    requires KnownType(packet) && [] !in st.delivered
    ensures [] !in Handled(st, packet, now).delivered
  {
    ParsedNotEmpty(packet);
    hide ParseAckPacket, ParseAck, ParseNoAckPacket, AckBytes, AckFor;
  }

  lemma ParsedNotEmpty(packet: Bytes)
    ensures ParseAckPacket(packet).Ok? ==> ParseAckPacket(packet).value.data != []
    ensures ParseNoAckPacket(packet).Ok? ==> ParseNoAckPacket(packet).value.data != []
  {
    hide CrcFrom, FromLeBytes;
  }
}
