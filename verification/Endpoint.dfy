/**
 One endpoint of the retransmission protocol as a step system. A step of the writer is one write
 to the port or one critical section of its loop; a step of the reader is one removal from the
 shared table, which may come between any two steps of the writer.
 */
module Endpoint {
  import opened Basics
  import opened Packets
  import Hdlc

  const RETRIES: int := 3

  /** An entry of the shared table: retries left, and the packet to send again. */
  datatype Pending = Pending(retries: int, packet: Bytes)

  type Table = map<U8, Pending>

  /** Where the writer is in its loop. */
  datatype Phase =
    | Head                             // waiting for something to send
    | Written(packet: Bytes)           // first transmission done, not yet in the table
    | Marked                           // in the table, sequence number not yet advanced
    | Ticking                          // about to lock the table for the retransmission round
    | Flushing(staged: seq<Bytes>)     // table unlocked, writing the staged packets

  datatype State = State(seqNum: U8, waiting: Table, phase: Phase, port: seq<Bytes>)

  const INITIAL := State(0, map[], Head, [])

  datatype Action =
    | Submit(data: Bytes)
    | Mark
    | Bump
    | Timeout
    | Tick(order: seq<U8>)
    | Flush
    | Finish
    | AckArrives(seqNum: U8)

  function Bumped(seqNum: U8): U8 {
    if seqNum < 0xFF then seqNum + 1 else 0
  }

  /** The bytes of the packet that carries some data under a sequence number. */
  function PacketFor(seqNum: U8, data: Bytes): Bytes {
    AckPacketBytes(NewAckPacket(ToByte(seqNum), data))
  }

  /** The frames for a list of packets. */
  function Encoded(packets: seq<Bytes>): (frames: seq<Bytes>)
    ensures |frames| == |packets|
  {
    seq(|packets|, i requires 0 <= i < |packets| => Hdlc.Encode(packets[i]))
  }

  /** A hash table is visited in some order: every key exactly once. */
  ghost predicate IsOrder(order: seq<U8>, waiting: Table) {
    && (forall i, j :: 0 <= i < j < |order| ==> order[i] != order[j])
    && (forall s :: s in order <==> s in waiting)
  }

  /** The packets that a retransmission round stages, in the order of the visit. */
  function Staged(waiting: Table, order: seq<U8>): (staged: seq<Bytes>)
    requires forall s :: s in order ==> s in waiting
    ensures |staged| == |order|
  {
    seq(|order|, i requires 0 <= i < |order| => assert order[i] in order; waiting[order[i]].packet)
  }

  /** The table after a retransmission round: one retry less, and none left means gone. */
  function Decremented(waiting: Table): Table {
    map s | s in waiting && waiting[s].retries - 1 != 0 :: Pending(waiting[s].retries - 1, waiting[s].packet)
  }

  ghost predicate Enabled(st: State, a: Action) {
    match a
    case Submit(_) => st.phase.Head?
    case Mark => st.phase.Written?
    case Bump => st.phase.Marked?
    case Timeout => st.phase.Head?
    case Tick(order) => st.phase.Ticking? && IsOrder(order, st.waiting)
    case Flush => st.phase.Flushing? && st.phase.staged != []
    case Finish => st.phase == Flushing([])
    case AckArrives(_) => true
  }

  ghost function Apply(st: State, a: Action): State
    requires Enabled(st, a)
  {
    match a
    case Submit(data) =>
      var packet := PacketFor(st.seqNum, data);
      st.(phase := Written(packet), port := st.port + [Hdlc.Encode(packet)])
    case Mark =>
      st.(phase := Marked, waiting := st.waiting[st.seqNum := Pending(RETRIES, st.phase.packet)])
    case Bump => st.(phase := Ticking, seqNum := Bumped(st.seqNum))
    case Timeout => st.(phase := Ticking)
    case Tick(order) =>
      st.(phase := Flushing(Staged(st.waiting, order)), waiting := Decremented(st.waiting))
    case Flush =>
      st.(phase := Flushing(st.phase.staged[1..]), port := st.port + [Hdlc.Encode(st.phase.staged[0])])
    case Finish => st.(phase := Head)
    case AckArrives(s) => st.(waiting := st.waiting - {s})
  }

  ghost predicate Allowed(st: State, actions: seq<Action>)
    decreases actions
  {
    actions == [] || (Enabled(st, actions[0]) && Allowed(Apply(st, actions[0]), actions[1..]))
  }

  ghost function Exec(st: State, actions: seq<Action>): State
    requires Allowed(st, actions)
    decreases actions
  {
    if actions == [] then st else Exec(Apply(st, actions[0]), actions[1..])
  }

  lemma {:induction false} ExecConcat(st: State, a: seq<Action>, b: seq<Action>)
    requires Allowed(st, a) && Allowed(Exec(st, a), b)
    ensures Allowed(st, a + b) && Exec(st, a + b) == Exec(Exec(st, a), b)
    decreases a
  {
    hide Apply, Enabled;
    if a == [] {
      assert a + b == b;
    } else {
      ExecConcat(Apply(st, a[0]), a[1..], b);
      assert (a + b)[1..] == a[1..] + b;
    }
  }
}
