/** What holds in every run of the retransmission protocol, whatever the reader does in between. */
module Runs {
  import opened Basics
  import opened Packets
  import opened Endpoint
  import opened Retransmission
  import Hdlc

  lemma StepKeeps(h: History, a: Action)
    requires Inv(h) && Enabled(h.st, a)
    ensures Inv(Record(h, a))
  {
    hide Inv;
    match a {
      case Submit(data) => SubmitKeeps(h, data);
      case Mark => MarkKeeps(h);
      case Bump => BumpKeeps(h);
      case Timeout => IdleKeeps(h, a);
      case Tick(order) => TickKeeps(h, order);
      case Flush => FlushKeeps(h);
      case Finish => IdleKeeps(h, a);
      case AckArrives(s) => AckKeeps(h, s);
    }
  }

  lemma StartFits()
    ensures Inv(START)
  {
  }

  lemma RecordState(h: History, a: Action)
    requires Inv(h) && Enabled(h.st, a)
    ensures Record(h, a).st == Apply(h.st, a)
  {
    hide Inv, Apply, EntryFits, IdsOf;
  }

  /** The record of a run from a recorded state. */
  ghost function Play(h: History, actions: seq<Action>): (r: History)
    requires Inv(h) && Allowed(h.st, actions)
    ensures Inv(r) && r.st == Exec(h.st, actions)
    decreases actions
  {
    hide Inv, Apply, Enabled;
    if actions == [] then h
    else
      StepKeeps(h, actions[0]);
      RecordState(h, actions[0]);
      Play(Record(h, actions[0]), actions[1..])
  }

  /** The record of a run of a new endpoint. */
  ghost function RunOf(actions: seq<Action>): (r: History)
    requires Allowed(INITIAL, actions)
    ensures Inv(r) && r.st == Exec(INITIAL, actions)
  {
    StartFits();
    Play(START, actions)
  }

  // ---------- What the record of a run says about its actions ----------

  /** Everything submitted in a run, in order. */
  function Submitted(actions: seq<Action>): seq<Bytes> {
    if actions == [] then []
    else (match actions[0] case Submit(data) => [data] case _ => []) + Submitted(actions[1..])
  }

  function Ticks(actions: seq<Action>): nat {
    if actions == [] then 0 else Ticks(actions[1..]) + (if actions[0].Tick? then 1 else 0)
  }

  lemma StepRecords(h: History, a: Action)
    requires Inv(h) && Enabled(h.st, a)
    ensures Record(h, a).subs == h.subs + (match a case Submit(data) => [data] case _ => [])
    ensures Record(h, a).ticks == h.ticks + (if a.Tick? then 1 else 0)
  {
    hide PacketFor, Balanced, EntryFits;
  }

  lemma {:induction false} PlayRecords(h: History, actions: seq<Action>)
    requires Inv(h) && Allowed(h.st, actions)
    ensures Play(h, actions).subs == h.subs + Submitted(actions)
    ensures Play(h, actions).ticks == h.ticks + Ticks(actions)
    decreases actions
  {
    hide Inv, Record, Enabled, Apply;
    if actions != [] {
      var a := actions[0];
      StepKeeps(h, a);
      RecordState(h, a);
      StepRecords(h, a);
      var h1, rest := Record(h, a), actions[1..];
      PlayRecords(h1, rest);
      assert Play(h, actions) == Play(h1, rest);
      hide Play, Allowed;
      assert Submitted(actions) == (match a case Submit(data) => [data] case _ => []) + Submitted(rest);
    }
  }

  /** The record holds the data submitted and the number of rounds, and numbers the submissions in order. */
  lemma RunRecords(actions: seq<Action>)
    requires Allowed(INITIAL, actions)
    ensures var h := RunOf(actions);
            && h.subs == Submitted(actions) && h.ticks == Ticks(actions)
            && |h.subs| == |h.marked| + (if h.st.phase.Written? then 1 else 0)
  {
    StartFits();
    PlayRecords(START, actions);
    hide StagedFits, TableFits, ClockFits, LedgerFits, WireFits;
  }

  lemma {:induction false} AllowedSplit(st: State, a: seq<Action>, b: seq<Action>)
    requires Allowed(st, a + b)
    ensures Allowed(st, a) && Allowed(Exec(st, a), b)
    decreases a
  {
    hide Apply, Enabled;
    if a == [] {
      assert a + b == b;
    } else {
      assert (a + b)[1..] == a[1..] + b;
      AllowedSplit(Apply(st, a[0]), a[1..], b);
    }
  }

  lemma {:induction false} PlayConcat(h: History, a: seq<Action>, b: seq<Action>)
    requires Inv(h) && Allowed(h.st, a) && Allowed(Exec(h.st, a), b) && Allowed(h.st, a + b)
    ensures Play(h, a + b) == Play(Play(h, a), b)
    decreases a
  {
    hide Inv, Record, Enabled, Apply;
    if a == [] {
      assert a + b == b;
    } else {
      StepKeeps(h, a[0]);
      RecordState(h, a[0]);
      assert (a + b)[1..] == a[1..] + b;
      PlayConcat(Record(h, a[0]), a[1..], b);
    }
  }

  // ---------- Transmissions ----------

  /** The retries that the table itself holds for submission i. */
  function TableRetries(h: History, i: nat): int {
    if Key(i) in h.ids && h.ids[Key(i)] == i && Key(i) in h.st.waiting then h.st.waiting[Key(i)].retries else 0
  }

  lemma TableRetriesAreLeft(h: History, i: nat)
    requires Inv(h) && i < |h.marked|
    ensures TableRetries(h, i) == Left(h, i)
  {
    hide PacketFor, Balanced;
    if Key(i) in h.st.waiting {
      assert EntryFits(h, Key(i));
    }
  }

  /**
   Every submission that has entered the table accounts for four transmissions: those written,
   those staged, those the table still holds and those an acknowledgement made unnecessary.
   */
  lemma FourTransmissions(actions: seq<Action>, i: nat)
    requires Allowed(INITIAL, actions)
    requires i < |Submitted(actions)| - (if Exec(INITIAL, actions).phase.Written? then 1 else 0)
    ensures var h := RunOf(actions);
            && i < |h.forfeited|
            && Copies(h.portIds, i) + Copies(h.stagedIds, i) + TableRetries(h, i) + h.forfeited[i] == 4
            && 1 <= Copies(h.portIds, i) <= 4
  {
    hide Copies, Submitted;
    RunRecords(actions);
    var h := RunOf(actions);
    assert Balanced(h, i);
    TableRetriesAreLeft(h, i);
  }

  /** The retries of the entries under sequence numbers below n. */
  function Retries(waiting: Table, n: nat): int
    requires n <= 256
  {
    if n == 0 then 0
    else Retries(waiting, n - 1) + (if n - 1 in waiting then waiting[n - 1].retries else 0)
  }

  function AllRetries(waiting: Table): int {
    Retries(waiting, 256)
  }

  function KeysBelow(waiting: Table, n: nat): set<U8> {
    set s: U8 | s in waiting && s < n
  }

  lemma {:induction false} RetriesInsert(waiting: Table, s: U8, p: Pending, n: nat)
    requires s !in waiting && n <= 256
    ensures Retries(waiting[s := p], n) == Retries(waiting, n) + (if s < n then p.retries else 0)
  {
    if n > 0 {
      RetriesInsert(waiting, s, p, n - 1);
    }
  }

  lemma {:induction false} RetriesRemove(waiting: Table, s: U8, n: nat)
    requires n <= 256
    ensures Retries(waiting - {s}, n)
         == Retries(waiting, n) - (if s in waiting && s < n then waiting[s].retries else 0)
  {
    if n > 0 {
      RetriesRemove(waiting, s, n - 1);
    }
  }

  lemma {:induction false} RetriesDecremented(waiting: Table, n: nat)
    requires n <= 256
    ensures Retries(Decremented(waiting), n) == Retries(waiting, n) - |KeysBelow(waiting, n)|
  {
    if n == 0 {
      assert KeysBelow(waiting, 0) == {};
    } else {
      RetriesDecremented(waiting, n - 1);
      assert KeysBelow(waiting, n) == KeysBelow(waiting, n - 1) + (if n - 1 in waiting then {n - 1} else {});
    }
  }

  function Elements(order: seq<U8>): set<U8> {
    set s | s in order
  }

  lemma {:induction false} DistinctCount(order: seq<U8>)
    requires forall i, j :: 0 <= i < j < |order| ==> order[i] != order[j]
    ensures |Elements(order)| == |order|
  {
    if order == [] {
      assert Elements(order) == {};
    } else {
      var init, last := order[..|order| - 1], order[|order| - 1];
      DistinctCount(init);
      assert last !in Elements(init);
      assert Elements(order) == Elements(init) + {last};
    }
  }

  /** A round takes as many retries from the table as it stages packets. */
  lemma RoundMovesRetries(waiting: Table, order: seq<U8>)
    requires IsOrder(order, waiting)
    ensures AllRetries(Decremented(waiting)) + |Staged(waiting, order)| == AllRetries(waiting)
  {
    hide Decremented, Retries;
    RetriesDecremented(waiting, 256);
    DistinctCount(order);
    assert KeysBelow(waiting, 256) == Elements(order);
  }

  function StagedNow(st: State): nat {
    if st.phase.Flushing? then |st.phase.staged| else 0
  }

  /** Transmissions made and to come; a submission not yet in the table is owed its three retries. */
  function Transmissions(st: State): int {
    |st.port| + StagedNow(st) + AllRetries(st.waiting) + (if st.phase.Written? then RETRIES else 0)
  }

  /** The retries that an action makes unnecessary. */
  function ForfeitedBy(st: State, a: Action): int {
    if a.AckArrives? && a.seqNum in st.waiting then st.waiting[a.seqNum].retries else 0
  }

  ghost function Forfeited(st: State, actions: seq<Action>): int
    requires Allowed(st, actions)
    decreases actions
  {
    if actions == [] then 0
    else ForfeitedBy(st, actions[0]) + Forfeited(Apply(st, actions[0]), actions[1..])
  }

  lemma StepConserves(h: History, a: Action)
    requires Inv(h) && Enabled(h.st, a)
    ensures Transmissions(Apply(h.st, a)) + ForfeitedBy(h.st, a)
         == Transmissions(h.st) + (if a.Submit? then 1 + RETRIES else 0)
  {
    hide PacketFor, Retries, Staged, Decremented, Balanced;
    match a {
      case Mark =>
        InsertHitsAbsentKey(h);
        RetriesInsert(h.st.waiting, h.st.seqNum, Pending(RETRIES, h.st.phase.packet), 256);
      case Tick(order) => RoundMovesRetries(h.st.waiting, order);
      case AckArrives(s) => RetriesRemove(h.st.waiting, s, 256);
      case _ =>
    }
  }

  lemma {:induction false} RunConserves(h: History, actions: seq<Action>)
    requires Inv(h) && Allowed(h.st, actions)
    ensures Transmissions(Exec(h.st, actions)) + Forfeited(h.st, actions)
         == Transmissions(h.st) + (1 + RETRIES) * |Submitted(actions)|
    decreases actions
  {
    hide Inv, Record, Enabled, Apply, Transmissions, ForfeitedBy;
    if actions != [] {
      var a := actions[0];
      StepKeeps(h, a);
      RecordState(h, a);
      StepConserves(h, a);
      RunConserves(Record(h, a), actions[1..]);
    }
  }

  lemma {:induction false} EmptyTableRetries(n: nat)
    requires n <= 256
    ensures Retries(map[], n) == 0
  {
    if n > 0 {
      EmptyTableRetries(n - 1);
    }
  }

  /**
   At every moment of every run: frames written, packets staged, retries pending and retries
   forfeited make four per submission, three of them still owed between its first transmission
   and its entry into the table.
   */
  lemma {:induction false} TransmissionsConserved(actions: seq<Action>)
    requires Allowed(INITIAL, actions)
    ensures var st := Exec(INITIAL, actions);
            |st.port| + StagedNow(st) + AllRetries(st.waiting) + Forfeited(INITIAL, actions)
              + (if st.phase.Written? then 3 else 0)
            == 4 * |Submitted(actions)|
  {
    hide Inv, Retries;
    StartFits();
    EmptyTableRetries(256);
    RunConserves(START, actions);
  }

  // ---------- Sequence numbers ----------

  /**
   At the head of the writer loop a pending packet was sent under one of the last two sequence
   numbers, the later the more retries it has left; wrap-around never makes two of them collide.
   */
  lemma RecentSequenceNumbers(actions: seq<Action>, s: U8)
    requires Allowed(INITIAL, actions)
    requires Exec(INITIAL, actions).phase.Head? && s in Exec(INITIAL, actions).waiting
    ensures var st := Exec(INITIAL, actions);
            1 <= st.waiting[s].retries <= 2 && 1 <= (st.seqNum - s) % 256 <= 3 - st.waiting[s].retries
  {
    hide PacketFor, Balanced;
    var h := RunOf(actions);
    EntryIsRecent(h, s);
    assert EntryFits(h, s);
    KeyDistance(h.ids[s], |h.marked|);
  }

  lemma KeyDistance(i: nat, n: nat)
    requires 0 <= n - i < 256
    ensures (Key(n) - Key(i)) % 256 == n - i
  {
  }

  function RecentNumbers(seqNum: U8): set<U8> {
    {(seqNum - 1) % 256, (seqNum - 2) % 256}
  }

  lemma RecentIsOneOfTwo(seqNum: U8, s: U8)
    requires 1 <= (seqNum - s) % 256 <= 2
    ensures s in RecentNumbers(seqNum)
  {
  }

  lemma AtMostTwoPending(actions: seq<Action>)
    requires Allowed(INITIAL, actions) && Exec(INITIAL, actions).phase.Head?
    ensures |Exec(INITIAL, actions).waiting| <= 2
  {
    hide Allowed, Exec;
    var st := Exec(INITIAL, actions);
    var recent := RecentNumbers(st.seqNum);
    assert |recent| <= 2;
    hide RecentNumbers;
    forall s | s in st.waiting
      ensures s in recent
    {
      RecentSequenceNumbers(actions, s);
      RecentIsOneOfTwo(st.seqNum, s);
    }
    SubsetSize(st.waiting.Keys, recent);
  }

  lemma {:induction false} SubsetSize<T>(small: set<T>, large: set<T>)
    requires small <= large
    ensures |small| <= |large|
  {
    assert large == small + (large - small);
  }

  /** An insertion never replaces an entry, and a round never decrements an exhausted counter. */
  lemma TableIsUsedSafely(actions: seq<Action>)
    requires Allowed(INITIAL, actions)
    ensures var st := Exec(INITIAL, actions);
            && (st.phase.Written? ==> st.seqNum !in st.waiting)
            && (forall s :: s in st.waiting ==> 1 <= st.waiting[s].retries <= 3)
  {
    hide PacketFor, Balanced;
    var h := RunOf(actions);
    if h.st.phase.Written? {
      InsertHitsAbsentKey(h);
    }
    forall s | s in h.st.waiting
      ensures 1 <= h.st.waiting[s].retries <= 3
    {
      assert EntryFits(h, s);
    }
  }

  // ---------- The wire ----------

  /** The packets written in a run, in order, first transmissions and retransmissions alike. */
  function WrittenPackets(h: History): seq<Bytes>
    requires WireFits(h)
  {
    seq(|h.portIds|, j requires 0 <= j < |h.portIds| => PacketOf(h, h.portIds[j]))
  }

  lemma {:induction false} FlattenedFrames(frames: seq<Bytes>, packets: seq<Bytes>)
    requires |frames| == |packets| && forall j :: 0 <= j < |frames| ==> frames[j] == Hdlc.Encode(packets[j])
    ensures Flatten(frames) == Hdlc.EncodeAll(packets)
  {
    hide Hdlc.Encode;
    if frames != [] {
      FlattenedFrames(frames[..|frames| - 1], packets[..|packets| - 1]);
    }
  }

  /**
   The whole output of a run, read in any way by a new decoder, is exactly the list of packets
   written, each the bytes of its submission under its sequence number.
   */
  lemma {:induction false} OutputDecodes(actions: seq<Action>, chunks: seq<Bytes>)
    requires Allowed(INITIAL, actions)
    requires Flatten(chunks) == Flatten(Exec(INITIAL, actions).port)
    ensures Hdlc.FramesOfReads(Hdlc.FRESH, chunks) == WrittenPackets(RunOf(actions))
  {
    hide Balanced, EntryFits, PacketFor, Hdlc.Encode, Hdlc.Frames;
    var h := RunOf(actions);
    var packets := WrittenPackets(h);
    FlattenedFrames(h.st.port, packets);
    Hdlc.ChunkIndependence(Hdlc.FRESH, chunks);
    Hdlc.FrameListRoundTrip(packets);
    forall j | 0 <= j < |packets|
      ensures packets[j] != []
    {
      PacketNotEmpty(Key(h.portIds[j]), h.subs[h.portIds[j]]);
    }
    Hdlc.DropEmptyKeepsAll(packets);
  }

  lemma PacketNotEmpty(s: U8, data: Bytes)
    ensures PacketFor(s, data) != []
  {
    hide ToLeBytes;
  }

  /** What waits under a sequence number is the packet of a submission under that number, sent before. */
  lemma {:induction false} PendingPackets(actions: seq<Action>, s: U8)
    requires Allowed(INITIAL, actions) && s in Exec(INITIAL, actions).waiting
    ensures var st := Exec(INITIAL, actions);
            exists i: nat :: i < |Submitted(actions)| && Key(i) == s
              && st.waiting[s].packet == AckPacketBytes(NewAckPacket(ToByte(s), Submitted(actions)[i]))
              && Hdlc.Encode(st.waiting[s].packet) in st.port
  {
    hide Copies, AckPacketBytes, Hdlc.Encode, Submitted;
    var h := RunOf(actions);
    RunRecords(actions);
    assert EntryFits(h, s);
    var i := h.ids[s];
    assert Balanced(h, i);
    if i !in h.portIds {
      NoCopies(h.portIds, i);
      assert false;
    }
    var j :| 0 <= j < |h.portIds| && h.portIds[j] == i;
    assert h.st.port[j] in h.st.port;
  }
}
