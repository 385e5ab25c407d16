/**
 The writer's objects. Wherever the lock on the shared table is free, the reader may take entries
 out; each method is shown to be its own sequence of steps with acknowledgements in between.
 */
module Writer {
  import opened Basics
  import opened Packets
  import opened Endpoint
  import opened Runs
  import Hdlc

  /** What receiving from the channel with a timeout can yield. */
  datatype Received = Data(data: Bytes) | TimedOut | Stop

  // ---------- Steps with acknowledgements in between ----------

  ghost predicate OnlyAcks(acks: seq<Action>) {
    forall a :: a in acks ==> a.AckArrives?
  }

  /** The table without the acknowledged entries. */
  function AfterAcks(waiting: Table, acks: seq<Action>): Table {
    map s | s in waiting && AckArrives(s) !in acks :: waiting[s]
  }

  /** The writer's own steps. */
  function WithoutAcks(steps: seq<Action>): seq<Action> {
    if steps == [] then []
    else (if steps[0].AckArrives? then [] else [steps[0]]) + WithoutAcks(steps[1..])
  }

  /** The steps lead from one state to another. */
  ghost predicate Leads(st: State, steps: seq<Action>, now: State) {
    Allowed(st, steps) && Exec(st, steps) == now
  }

  lemma {:induction false} AcksRun(st: State, acks: seq<Action>)
    requires OnlyAcks(acks)
    ensures Leads(st, acks, st.(waiting := AfterAcks(st.waiting, acks)))
    ensures WithoutAcks(acks) == []
    decreases acks
  {
    if acks == [] {
      assert AfterAcks(st.waiting, []) == st.waiting;
    } else {
      var a, rest := acks[0], acks[1..];
      assert a in acks && acks == [a] + rest;
      assert forall b :: b in rest ==> b in acks;
      AcksRun(Apply(st, a), rest);
      assert AfterAcks(st.waiting - {a.seqNum}, rest) == AfterAcks(st.waiting, acks);
    }
  }

  lemma {:induction false} WithoutAcksConcat(a: seq<Action>, b: seq<Action>)
    ensures WithoutAcks(a + b) == WithoutAcks(a) + WithoutAcks(b)
  {
    if a == [] {
      assert a + b == b;
    } else {
      assert (a + b)[1..] == a[1..] + b;
      WithoutAcksConcat(a[1..], b);
    }
  }

  lemma LeadsFurther(st: State, steps: seq<Action>, now: State, more: seq<Action>, end: State)
    requires Leads(st, steps, now) && Leads(now, more, end)
    ensures Leads(st, steps + more, end)
    ensures WithoutAcks(steps + more) == WithoutAcks(steps) + WithoutAcks(more)
  {
    ExecConcat(st, steps, more);
    WithoutAcksConcat(steps, more);
  }

  /** Some acknowledgements, and then one step of the writer. */
  lemma LeadsThrough(st: State, steps: seq<Action>, now: State, acks: seq<Action>, a: Action)
    requires Leads(st, steps, now) && OnlyAcks(acks) && !a.AckArrives?
    requires Enabled(now.(waiting := AfterAcks(now.waiting, acks)), a)
    ensures Leads(st, steps + acks + [a], Apply(now.(waiting := AfterAcks(now.waiting, acks)), a))
    ensures WithoutAcks(steps + acks + [a]) == WithoutAcks(steps) + [a]
  {
    hide Apply, Enabled, AfterAcks, OnlyAcks;
    var cleared := now.(waiting := AfterAcks(now.waiting, acks));
    AcksRun(now, acks);
    SingleStep(cleared, a);
    hide Leads, WithoutAcks;
    LeadsFurther(st, steps, now, acks, cleared);
    LeadsFurther(st, steps + acks, cleared, [a], Apply(cleared, a));
  }

  lemma SingleStep(st: State, a: Action)
    requires Enabled(st, a) && !a.AckArrives?
    ensures Leads(st, [a], Apply(st, a)) && WithoutAcks([a]) == [a]
  {
    hide Apply, Enabled;
    assert [a][1..] == [];
    assert Allowed(Apply(st, a), []) && Exec(Apply(st, a), []) == Apply(st, a);
  }

  /** The steps of handling one datum, and of one retransmission round. */
  function DataSteps(data: Bytes): seq<Action> {
    [Submit(data), Mark, Bump]
  }

  function Flushes(n: nat): seq<Action> {
    seq(n, _ => Flush)
  }

  function RoundSteps(order: seq<U8>): seq<Action> {
    [Tick(order)] + Flushes(|order|) + [Finish]
  }

  /** The steps of one turn of the loop, up to its round. */
  function TurnSteps(received: Received): seq<Action> {
    match received
    case Data(data) => DataSteps(data)
    case _ => [Timeout]
  }

  // ---------- The objects ----------

  /** The table that the writer and the reader share under a lock. */
  class AckTable {
    var entries: Table

    constructor ()
      ensures entries == map[]
    {
      entries := map[];
    }

    /** The lock is free for a while: the reader may take out any entries, and does nothing else. */
    method Unlocked() returns (ghost acks: seq<Action>)
      modifies this
      ensures OnlyAcks(acks)
      ensures entries == AfterAcks(old(entries), acks)
    {
      var removed: seq<U8> := *;
      acks := seq(|removed|, i requires 0 <= i < |removed| => AckArrives(removed[i]));
      assert forall s: U8 :: AckArrives(s) in acks <==> s in removed by {
        forall s: U8 | s in removed
          ensures AckArrives(s) in acks
        {
          var i :| 0 <= i < |removed| && removed[i] == s;
          assert acks[i] == AckArrives(s);
        }
      }
      entries := map s | s in entries && s !in removed :: entries[s];
    }
  }

  /** The port, as the list of the byte strings written to it. Writes are taken to succeed. */
  class SerialPort {
    var writes: seq<Bytes>

    constructor ()
      ensures writes == []
    {
      writes := [];
    }

    method WriteAll(bytes: Bytes)
      modifies this
      ensures writes == old(writes) + [bytes]
    {
      writes := writes + [bytes];
    }
  }

  class ConnectionWorker {
    var seqNum: U8
    const waiting: AckTable
    const port: SerialPort

    constructor (port: SerialPort, waiting: AckTable)
      ensures seqNum == 0 && this.port == port && this.waiting == waiting
    {
      seqNum := 0;
      this.port := port;
      this.waiting := waiting;
    }

    /** The endpoint state at a given point of the loop. */
    ghost function View(phase: Phase): State
      reads this, waiting, port
    {
      State(seqNum, waiting.entries, phase, port.writes)
    }

    /** One datum: written, entered into the table, sequence number advanced, with acknowledgements in between. */
    method HandleData(data: Bytes) returns (ghost steps: seq<Action>)
      modifies this, waiting, port
      ensures Leads(old(View(Head)), steps, View(Ticking))
      ensures WithoutAcks(steps) == DataSteps(data)
    {
      hide NewAckPacket, AckPacketBytes, Hdlc.Encode, Leads, WithoutAcks, AfterAcks, OnlyAcks;
      ghost var start := View(Head);
      NoSteps(start);
      var packet := NewAckPacket(ToByte(seqNum), data);
      var bytes := AckPacketBytes(packet);
      ghost var acks := waiting.Unlocked();
      WriteToStream(bytes);
      LeadsThrough(start, [], start, acks, Submit(data));
      steps := [] + acks + [Submit(data)];
      ghost var written := View(Written(bytes));
      acks := waiting.Unlocked();
      MarkAsWaitingForAck(bytes);
      LeadsThrough(start, steps, written, acks, Mark);
      steps := steps + acks + [Mark];
      ghost var marked := View(Marked);
      acks := waiting.Unlocked();
      BumpSeqNum();
      LeadsThrough(start, steps, marked, acks, Bump);
      steps := steps + acks + [Bump];
      assert [] + [Submit(data)] + [Mark] + [Bump] == DataSteps(data);
    }

    method WriteToStream(packet: Bytes)
      modifies port
      ensures port.writes == old(port.writes) + [Hdlc.Encode(packet)]
    {
      port.WriteAll(Hdlc.Encode(packet));
    }

    method MarkAsWaitingForAck(packet: Bytes)
      modifies waiting
      ensures waiting.entries == old(waiting.entries)[seqNum := Pending(RETRIES, packet)]
    {
      waiting.entries := waiting.entries[seqNum := Pending(RETRIES, packet)];
    }

    method BumpSeqNum()
      modifies this`seqNum
      ensures seqNum == Bumped(old(seqNum))
    {
      if seqNum < 0xFF {
        seqNum := seqNum + 1;
      } else {
        seqNum := 0;
      }
    }

    /** One round: its critical section and the writes of what that staged, with acknowledgements in between. */
    method HandleUnackedData() returns (ghost steps: seq<Action>, ghost order: seq<U8>)
      requires forall s :: s in waiting.entries ==> 1 <= waiting.entries[s].retries
      modifies waiting, port
      ensures Leads(old(View(Ticking)), steps, View(Head))
      ensures WithoutAcks(steps) == RoundSteps(order)
    {
      ghost var start := View(Ticking);
      ghost var acks := waiting.Unlocked();
      hide Hdlc.Encode, Leads, WithoutAcks, AfterAcks, OnlyAcks, Decremented, Staged, IsOrder, Flushes;
      NoSteps(start);
      var writes: seq<Bytes>;
      order, writes := StageRetransmissions();
      LeadsThrough(start, [], start, acks, Tick(order));
      steps := [] + acks + [Tick(order)];
      ghost var staged := View(Flushing(writes));
      ghost var rest := WriteStaged(writes);
      LeadsFurther(start, steps, staged, rest, View(Head));
      assert [] + [Tick(order)] + (Flushes(|order|) + [Finish]) == RoundSteps(order);
      steps := steps + rest;
    }

    /** The writes of a round, outside the lock. */
    method WriteStaged(writes: seq<Bytes>) returns (ghost steps: seq<Action>)
      modifies waiting, port
      ensures Leads(old(View(Flushing(writes))), steps, View(Head))
      ensures WithoutAcks(steps) == Flushes(|writes|) + [Finish]
    {
      hide Hdlc.Encode, Leads, WithoutAcks, AfterAcks, OnlyAcks, Flushes;
      ghost var start := View(Flushing(writes));
      ghost var acks: seq<Action>;
      NoSteps(start);
      FlushesNone();
      steps := [];
      assert writes[0..] == writes;
      for i := 0 to |writes|
        invariant Leads(start, steps, View(Flushing(writes[i..])))
        invariant WithoutAcks(steps) == Flushes(i)
      {
        ghost var now := View(Flushing(writes[i..]));
        acks := waiting.Unlocked();
        WriteToStream(writes[i]);
        LeadsThrough(start, steps, now, acks, Flush);
        steps := steps + acks + [Flush];
        assert writes[i..][1..] == writes[i + 1..];
        FlushesMore(i);
      }
      ghost var flushed := View(Flushing(writes[|writes|..]));
      acks := waiting.Unlocked();
      LeadsThrough(start, steps, flushed, acks, Finish);
      steps := steps + acks + [Finish];
    }

    /**
     The writer loop of a new endpoint: every datum is handled, every turn ends in a round, and the
     loop ends at the first stop. Whatever the reader acknowledges meanwhile, the steps taken are a
     run of the endpoint.
     */
    method Start(inbox: seq<Received>) returns (stopped: bool, ghost actions: seq<Action>)
      requires View(Head) == INITIAL
      modifies this, waiting, port
      ensures stopped <==> Stop in inbox
      ensures Allowed(INITIAL, actions) && View(Head) == Exec(INITIAL, actions)
      ensures Submitted(actions) == DataOf(UntilStop(inbox))
      ensures Ticks(actions) == |UntilStop(inbox)|
    {
      NoSteps(INITIAL);
      actions := [];
      for i := 0 to |inbox|
        invariant Stop !in inbox[..i]
        invariant Leads(INITIAL, actions, View(Head))
        invariant Submitted(actions) == DataOf(inbox[..i])
        invariant Ticks(actions) == i
      {
        if inbox[i] == Stop {
          UntilStopAt(inbox, i);
          return true, actions;
        }
        ghost var more := Turn(actions, inbox[..i], inbox[i]);
        actions := actions + more;
        assert inbox[..i + 1] == inbox[..i] + [inbox[i]];
      }
      UntilStopNone(inbox);
      assert inbox[..|inbox|] == inbox;
      return false, actions;
    }

    /** One turn of the loop after a given run. */
    method Turn(ghost before: seq<Action>, ghost seen: seq<Received>, received: Received)
      returns (ghost more: seq<Action>)
      requires received != Stop
      requires Leads(INITIAL, before, View(Head)) && Submitted(before) == DataOf(seen)
      modifies this, waiting, port
      ensures Leads(INITIAL, before + more, View(Head))
      ensures Submitted(before + more) == DataOf(seen + [received])
      ensures Ticks(before + more) == Ticks(before) + 1
    {
      hide Submitted, DataOf, Ticks, WithoutAcks, DataSteps, RoundSteps;
      ghost var start := View(Head);
      ghost var turn: seq<Action>;
      match received {
        case Data(data) =>
          turn := HandleData(data);
        case TimedOut =>
          turn := [Timeout];
          SingleStep(start, Timeout);
      }
      LeadsFurther(INITIAL, before, start, turn, View(Ticking));
      ghost var ticking := View(Ticking);
      TableIsUsedSafely(before + turn);
      ghost var round, order := HandleUnackedData();
      hide Leads;
      LeadsFurther(INITIAL, before + turn, ticking, round, View(Head));
      TurnSubmits(before, turn, round, seen, received, order);
      more := turn + round;
      assert before + more == (before + turn) + round;
    }

    /** The critical section of a round: visit every entry in some order, then drop the exhausted ones. */
    method StageRetransmissions() returns (ghost order: seq<U8>, writes: seq<Bytes>)
      requires forall s :: s in waiting.entries ==> 1 <= waiting.entries[s].retries
      modifies waiting
      ensures IsOrder(order, old(waiting.entries))
      ensures writes == Staged(old(waiting.entries), order)
      ensures waiting.entries == Decremented(old(waiting.entries))
    {
      hide Staged, IsOrder;
      ghost var before := waiting.entries;
      order, writes := [], [];
      var remove: seq<U8> := [];
      if waiting.entries != map[] {
        order, writes, remove := VisitEntries();
      } else {
        StagedNone(before);
      }
      Drop(remove);
    }

    method Drop(remove: seq<U8>)
      modifies waiting
      ensures waiting.entries == map s | s in old(waiting.entries) && s !in remove :: old(waiting.entries)[s]
    {
      ghost var before := waiting.entries;
      for i := 0 to |remove|
        invariant waiting.entries == map s | s in before && s !in remove[..i] :: before[s]
      {
        waiting.entries := waiting.entries - {remove[i]};
      }
      assert remove[..|remove|] == remove;
    }

    method VisitEntries() returns (ghost order: seq<U8>, writes: seq<Bytes>, remove: seq<U8>)
      modifies waiting
      ensures IsOrder(order, old(waiting.entries))
      ensures writes == Staged(old(waiting.entries), order)
      ensures waiting.entries == OneLess(old(waiting.entries))
      ensures forall s :: s in remove <==> s in old(waiting.entries) && old(waiting.entries[s].retries) - 1 == 0
    {
      hide Staged;
      ghost var before := waiting.entries;
      order, writes, remove := [], [], [];
      StagedNone(before);
      var toVisit := waiting.entries.Keys;
      while toVisit != {}
        invariant toVisit <= before.Keys == waiting.entries.Keys
        invariant forall s :: s in order <==> s in before && s !in toVisit
        invariant forall i, j :: 0 <= i < j < |order| ==> order[i] != order[j]
        invariant writes == Staged(before, order)
        invariant forall s :: s in before ==>
          waiting.entries[s] == if s in toVisit then before[s] else Pending(before[s].retries - 1, before[s].packet)
        invariant forall s :: s in remove <==> s in before && s !in toVisit && before[s].retries - 1 == 0
      {
        var s :| s in toVisit;
        var entry := waiting.entries[s];
        StagedMore(before, order, s);
        waiting.entries := waiting.entries[s := Pending(entry.retries - 1, entry.packet)];
        writes := writes + [entry.packet];
        if entry.retries - 1 == 0 {
          remove := remove + [s];
        }
        toVisit := toVisit - {s};
        order := order + [s];
      }
    }
  }

  lemma NoSteps(st: State)
    ensures Leads(st, [], st) && WithoutAcks([]) == []
  {
  }

  lemma FlushesNone()
    ensures Flushes(0) == []
  {
  }

  lemma FlushesMore(n: nat)
    ensures Flushes(n + 1) == Flushes(n) + [Flush]
  {
  }

  // ---------- What a run has submitted ----------

  function DataOf(inbox: seq<Received>): seq<Bytes> {
    if inbox == [] then []
    else DataOf(inbox[..|inbox| - 1]) + (match inbox[|inbox| - 1] case Data(data) => [data] case _ => [])
  }

  function UntilStop(inbox: seq<Received>): seq<Received> {
    if inbox == [] || inbox[0].Stop? then [] else [inbox[0]] + UntilStop(inbox[1..])
  }

  /** Everything up to the first stop is handled. */
  lemma {:induction false} InboxIsRead(inbox: seq<Received>)
    ensures UntilStop(inbox) <= inbox && Stop !in UntilStop(inbox)
    ensures |UntilStop(inbox)| < |inbox| ==> inbox[|UntilStop(inbox)|] == Stop
  {
    if inbox != [] && inbox[0] != Stop {
      InboxIsRead(inbox[1..]);
    }
  }

  lemma DataOfOne(received: Received)
    ensures DataOf([received]) == match received { case Data(data) => [data] case _ => [] }
  {
    assert [received][..0] == [];
  }

  /** In order, every datum counts, an empty one too, and nothing else does. */
  lemma {:induction false} DataOfConcat(a: seq<Received>, b: seq<Received>)
    ensures DataOf(a + b) == DataOf(a) + DataOf(b)
    ensures DataOf([TimedOut]) == [] && forall data :: DataOf([Data(data)]) == [data]
  {
    DataOfOne(TimedOut);
    forall data: Bytes
      ensures DataOf([Data(data)]) == [data]
    {
      DataOfOne(Data(data));
    }
    if b == [] {
      assert a + b == a;
    } else {
      var init := b[..|b| - 1];
      assert (a + b)[..|a + b| - 1] == a + init;
      DataOfConcat(a, init);
    }
  }

  lemma {:induction false} SubmittedConcat(a: seq<Action>, b: seq<Action>)
    ensures Submitted(a + b) == Submitted(a) + Submitted(b)
  {
    if a == [] {
      assert a + b == b;
      assert [] + Submitted(b) == Submitted(b);
    } else {
      assert (a + b)[0] == a[0];
      assert (a + b)[1..] == a[1..] + b;
      SubmittedConcat(a[1..], b);
    }
  }

  lemma {:induction false} TicksConcat(a: seq<Action>, b: seq<Action>)
    ensures Ticks(a + b) == Ticks(a) + Ticks(b)
  {
    if a == [] {
      assert a + b == b;
    } else {
      assert (a + b)[1..] == a[1..] + b;
      TicksConcat(a[1..], b);
    }
  }

  lemma {:induction false} FlushesAddNothing(n: nat)
    ensures Submitted(Flushes(n)) == [] && Ticks(Flushes(n)) == 0
  {
    if n > 0 {
      assert Flushes(n)[1..] == Flushes(n - 1);
      FlushesAddNothing(n - 1);
    }
  }

  lemma OneStep(a: Action)
    ensures Submitted([a]) == match a { case Submit(data) => [data] case _ => [] }
    ensures Ticks([a]) == if a.Tick? then 1 else 0
  {
    assert [a][..0] == [] && [a][1..] == [];
  }

  /** A turn of the loop: its datum, if any, and then its round. */
  lemma TurnSubmits(before: seq<Action>, turn: seq<Action>, round: seq<Action>,
                    inbox: seq<Received>, received: Received, order: seq<U8>)
    requires Submitted(before) == DataOf(inbox)
    requires WithoutAcks(turn) == TurnSteps(received) && WithoutAcks(round) == RoundSteps(order)
    ensures var after := (before + turn) + round;
            Submitted(after) == DataOf(inbox + [received]) && Ticks(after) == Ticks(before) + 1
  {
    hide Submitted, Ticks, WithoutAcks;
    SubmittedConcat(before, turn);
    SubmittedConcat(before + turn, round);
    TicksConcat(before, turn);
    TicksConcat(before + turn, round);
    AcksSubmitNothing(turn);
    AcksSubmitNothing(round);
    RoundTicks(order);
    TurnData(received);
    assert (inbox + [received])[..|inbox|] == inbox;
  }

  lemma {:induction false} AcksSubmitNothing(steps: seq<Action>)
    ensures Submitted(WithoutAcks(steps)) == Submitted(steps) && Ticks(WithoutAcks(steps)) == Ticks(steps)
  {
    if steps != [] {
      AcksSubmitNothing(steps[1..]);
      var rest := WithoutAcks(steps[1..]);
      if steps[0].AckArrives? {
        assert WithoutAcks(steps) == rest;
      } else {
        assert WithoutAcks(steps)[0] == steps[0] && WithoutAcks(steps)[1..] == rest;
      }
    }
  }

  lemma RoundTicks(order: seq<U8>)
    ensures Submitted(RoundSteps(order)) == [] && Ticks(RoundSteps(order)) == 1
  {
    var n := |order|;
    FlushesAddNothing(n);
    OneStep(Tick(order));
    OneStep(Finish);
    hide Submitted, Ticks, Flushes;
    SubmittedConcat([Tick(order)], Flushes(n));
    SubmittedConcat([Tick(order)] + Flushes(n), [Finish]);
    TicksConcat([Tick(order)], Flushes(n));
    TicksConcat([Tick(order)] + Flushes(n), [Finish]);
  }

  lemma TurnData(received: Received)
    ensures Submitted(TurnSteps(received)) == match received { case Data(data) => [data] case _ => [] }
    ensures Ticks(TurnSteps(received)) == 0
  {
    OneStep(Timeout);
    OneStep(Mark);
    OneStep(Bump);
    if received.Data? {
      OneStep(Submit(received.data));
      hide Submitted, Ticks;
      SubmittedConcat([Submit(received.data)], [Mark]);
      SubmittedConcat([Submit(received.data)] + [Mark], [Bump]);
      TicksConcat([Submit(received.data)], [Mark]);
      TicksConcat([Submit(received.data)] + [Mark], [Bump]);
      assert TurnSteps(received) == ([Submit(received.data)] + [Mark]) + [Bump];
    }
  }

  lemma {:induction false} UntilStopAt(inbox: seq<Received>, i: nat)
    requires i < |inbox| && inbox[i] == Stop && Stop !in inbox[..i]
    ensures UntilStop(inbox) == inbox[..i]
  {
    if i > 0 {
      assert inbox[0] == inbox[..i][0];
      assert inbox[1..][..i - 1] == inbox[..i][1..];
      UntilStopAt(inbox[1..], i - 1);
    }
  }

  lemma {:induction false} UntilStopNone(inbox: seq<Received>)
    requires Stop !in inbox
    ensures UntilStop(inbox) == inbox
  {
    if inbox != [] {
      UntilStopNone(inbox[1..]);
    }
  }

  /** The table in the middle of a round: every entry visited, none dropped yet. */
  function OneLess(waiting: Table): Table {
    map s | s in waiting :: Pending(waiting[s].retries - 1, waiting[s].packet)
  }

  lemma StagedNone(waiting: Table)
    ensures Staged(waiting, []) == []
  {
  }

  lemma StagedMore(waiting: Table, order: seq<U8>, s: U8)
    requires s in waiting && forall t :: t in order ==> t in waiting
    ensures Staged(waiting, order + [s]) == Staged(waiting, order) + [waiting[s].packet]
  {
  }
}
