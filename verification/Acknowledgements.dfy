/** How often each submission is transmitted, and what its acknowledgement changes. */
module Acknowledgements {
  import opened Basics
  import opened Endpoint
  import opened Retransmission
  import opened Runs

  /** The rounds before the first acknowledgement of s. */
  function RoundsUntilAck(actions: seq<Action>, s: U8): nat {
    if actions == [] || actions[0] == AckArrives(s) then 0
    else (if actions[0].Tick? then 1 else 0) + RoundsUntilAck(actions[1..], s)
  }

  /** What follows the next entry into the table. */
  function AfterMark(actions: seq<Action>): seq<Action> {
    if actions == [] then [] else if actions[0].Mark? then actions[1..] else AfterMark(actions[1..])
  }

  /** First transmission and retransmissions of submission i, staged ones included. */
  function Sent(h: History, i: nat): nat {
    Copies(h.portIds, i) + Copies(h.stagedIds, i)
  }

  /** Submission i has been acknowledged, or its three retries are used up. */
  ghost predicate Settled(h: History, i: nat) {
    i < |h.marked| == |h.forfeited| && Left(h, i) == 0
  }

  lemma SentIsBalance(h: History, i: nat)
    requires Inv(h) && i < |h.marked|
    ensures |h.forfeited| == |h.marked| && Sent(h, i) == 4 - Left(h, i) - h.forfeited[i]
  {
    hide Copies, PacketFor, TableFits, ClockFits, WireFits, StagedFits;
    assert Balanced(h, i);
  }

  lemma StepStaysSettled(h: History, a: Action, i: nat)
    requires Inv(h) && Enabled(h.st, a) && Settled(h, i)
    ensures Settled(Record(h, a), i) && Record(h, a).forfeited[i] == h.forfeited[i]
  {
    hide Key, PacketFor, Balanced, Copies;
    if a.AckArrives? && a.seqNum in h.st.waiting {
      assert EntryFits(h, a.seqNum);
    }
  }

  /** What is settled is never transmitted again. */
  lemma {:induction false} RunStaysSettled(h: History, actions: seq<Action>, i: nat)
    requires Inv(h) && Allowed(h.st, actions) && Settled(h, i)
    ensures Sent(Play(h, actions), i) == Sent(h, i)
    decreases actions
  {
    hide Inv, Apply, Enabled, Record, Settled, Sent;
    if actions != [] {
      var a := actions[0];
      StepKeeps(h, a);
      RecordState(h, a);
      StepStaysSettled(h, a, i);
      RunStaysSettled(Record(h, a), actions[1..], i);
      SettledKeepsSent(h, Record(h, a), i);
    }
  }

  lemma SettledKeepsSent(h: History, h': History, i: nat)
    requires Inv(h) && Inv(h') && Settled(h, i) && Settled(h', i) && h'.forfeited[i] == h.forfeited[i]
    ensures Sent(h', i) == Sent(h, i)
  {
    SentIsBalance(h, i);
    SentIsBalance(h', i);
  }

  lemma StepOfUnacked(h: History, a: Action, i: nat)
    requires Inv(h) && Enabled(h.st, a) && i < |h.marked| == |h.forfeited|
    requires h.forfeited[i] == 0 && a != AckArrives(Key(i))
    ensures var h' := Record(h, a);
            && i < |h'.marked| == |h'.forfeited| && h'.forfeited[i] == 0
            && Age(h', i) == Age(h, i) + (if a.Tick? then 1 else 0)
  {
    hide Key, PacketFor, Balanced, Copies;
    if a.AckArrives? && a.seqNum in h.st.waiting {
      assert EntryFits(h, a.seqNum);
    }
  }

  /** An acknowledgement of an entry forfeits all retries left, and so settles its submission. */
  lemma AckSettles(h: History, i: nat)
    requires Inv(h) && i < |h.marked| == |h.forfeited| && h.forfeited[i] == 0
    ensures Settled(Record(h, AckArrives(Key(i))), i)
    ensures Sent(Record(h, AckArrives(Key(i))), i) == Sent(h, i)
  {
    hide Key, PacketFor, Copies, LedgerFits, StagedFits, WireFits, ClockFits;
    var s := Key(i);
    if s in h.st.waiting {
      assert EntryFits(h, s);
      hide EntryFits;
      assert Left(h, i) > 0 ==> h.ids[s] == i;
    } else {
      assert Left(h, i) == 0;
    }
  }

  lemma MarkedAge(h: History, i: nat)
    requires Inv(h) && i < |h.marked|
    ensures Age(h, i) >= 0
  {
    hide Key, PacketFor, Balanced, EntryFits;
  }

  lemma {:induction false} SentSinceMark(h: History, actions: seq<Action>, i: nat)
    requires Inv(h) && Allowed(h.st, actions)
    requires i < |h.marked| == |h.forfeited| && h.forfeited[i] == 0
    ensures var rounds := Age(h, i) + RoundsUntilAck(actions, Key(i));
            Sent(Play(h, actions), i) == if rounds < 3 then 1 + rounds else 4
    decreases actions
  {
    hide Inv, Apply, Enabled, Record, Settled, Sent, Key;
    MarkedAge(h, i);
    SentIsBalance(h, i);
    if actions != [] {
      var a := actions[0];
      StepKeeps(h, a);
      RecordState(h, a);
      if a == AckArrives(Key(i)) {
        AckSettles(h, i);
        RunStaysSettled(Record(h, a), actions[1..], i);
      } else {
        StepOfUnacked(h, a, i);
        SentSinceMark(Record(h, a), actions[1..], i);
      }
    }
  }

  /** Between first transmission and entry into the table, only acknowledgements can come, to no effect. */
  lemma StepInTransit(h: History, a: Action)
    requires Inv(h) && Enabled(h.st, a) && h.st.phase.Written?
    ensures a.Mark? || a.AckArrives?
    ensures var h' := Record(h, a);
            if a.Mark? then
              && |h'.marked| == |h.marked| + 1 == |h'.forfeited|
              && h'.forfeited[|h.marked|] == 0 && Age(h', |h.marked|) == 0
            else h'.st.phase.Written? && |h'.marked| == |h.marked|
  {
    hide Key, PacketFor, Balanced, EntryFits, Copies;
  }

  lemma SentInTransit(h: History)
    requires Inv(h) && h.st.phase.Written?
    ensures Sent(h, |h.marked|) == 1
  {
    NoCopies([], |h.marked|);
    hide PacketFor, Balanced, EntryFits, Copies;
  }

  lemma {:induction false} SentSinceSubmission(h: History, actions: seq<Action>)
    requires Inv(h) && Allowed(h.st, actions) && h.st.phase.Written?
    ensures var i := |h.marked|;
            var rounds := RoundsUntilAck(AfterMark(actions), Key(i));
            Sent(Play(h, actions), i) == if rounds < 3 then 1 + rounds else 4
    decreases actions
  {
    hide Inv, Apply, Enabled, Record, Sent, Key;
    if actions == [] {
      SentInTransit(h);
    } else {
      var a := actions[0];
      StepKeeps(h, a);
      RecordState(h, a);
      StepInTransit(h, a);
      if a.Mark? {
        SentSinceMark(Record(h, a), actions[1..], |h.marked|);
      } else {
        SentSinceSubmission(Record(h, a), actions[1..]);
      }
    }
  }

  lemma SubmitNeedsHead(st: State, data: Bytes)
    ensures Enabled(st, Submit(data)) <==> st.phase.Head?
  {
  }

  lemma SubmissionStarts(h: History, data: Bytes)
    requires Inv(h) && h.st.phase.Head?
    ensures var h' := Record(h, Submit(data));
            h'.st.phase.Written? && |h'.marked| == |h.subs|
  {
    hide Key, PacketFor, Balanced, EntryFits;
  }

  lemma NothingStagedAtHead(h: History, i: nat)
    requires Inv(h) && h.st.phase.Head?
    ensures Copies(h.stagedIds, i) == 0
  {
    NoCopies([], i);
    hide PacketFor, Balanced, EntryFits, Copies;
  }

  /**
   The number of transmissions of every submission, in every run: one, and one for each of the
   first three rounds after its entry into the table and before the next acknowledgement of its
   sequence number. Acknowledgements before that entry, or after the third round, change nothing.
   */
  lemma {:induction false} TransmissionsOfSubmission(before: seq<Action>, data: Bytes, after: seq<Action>)
    requires Allowed(INITIAL, before + ([Submit(data)] + after))
    ensures var h := RunOf(before + ([Submit(data)] + after));
            var i := |Submitted(before)|;
            var rounds := RoundsUntilAck(AfterMark(after), Key(i));
            && Copies(h.portIds, i) + Copies(h.stagedIds, i) == (if rounds < 3 then 1 + rounds else 4)
            && (h.st.phase.Head? ==> Copies(h.stagedIds, i) == 0)
  {
    hide Inv, Record, Enabled, Apply, Copies, Key;
    var steps := [Submit(data)] + after;
    StartFits();
    AllowedSplit(INITIAL, before, steps);
    PlayConcat(START, before, steps);
    var h := RunOf(before);
    RunRecords(before);
    assert steps[0] == Submit(data) && steps[1..] == after;
    SubmitNeedsHead(h.st, data);
    StepKeeps(h, Submit(data));
    RecordState(h, Submit(data));
    SubmissionStarts(h, data);
    SentSinceSubmission(Record(h, Submit(data)), after);
    if RunOf(before + steps).st.phase.Head? {
      NothingStagedAtHead(RunOf(before + steps), |h.subs|);
    }
  }

  /** An acknowledgement that finds its entry ends the transmissions of that entry's submission for good. */
  lemma {:induction false} AckEndsTransmissions(before: seq<Action>, s: U8, after: seq<Action>)
    requires Allowed(INITIAL, before + ([AckArrives(s)] + after))
    requires Allowed(INITIAL, before) && s in Exec(INITIAL, before).waiting
    ensures var h, end := RunOf(before), RunOf(before + ([AckArrives(s)] + after));
            && s in h.ids && h.ids[s] < |Submitted(before)|
            && h.st.waiting[s].packet == PacketFor(s, Submitted(before)[h.ids[s]])
            && Sent(end, h.ids[s]) == Sent(h, h.ids[s])
  {
    var steps := [AckArrives(s)] + after;
    var h := RunOf(before);
    RunRecords(before);
    EntryOf(h, s);
    hide Inv, Record, Enabled, Apply, Sent, Settled, Submitted, PacketFor;
    StartFits();
    AllowedSplit(INITIAL, before, steps);
    PlayConcat(START, before, steps);
    assert steps[0] == AckArrives(s) && steps[1..] == after;
    StepKeeps(h, AckArrives(s));
    RecordState(h, AckArrives(s));
    AckSettles(h, h.ids[s]);
    RunStaysSettled(Record(h, AckArrives(s)), after, h.ids[s]);
  }

  lemma EntryOf(h: History, s: U8)
    requires Inv(h) && s in h.st.waiting
    ensures s in h.ids
    ensures var i := h.ids[s];
            && i < |h.marked| == |h.forfeited| && i < |h.subs| && s == Key(i) && h.forfeited[i] == 0
            && h.st.waiting[s].packet == PacketFor(s, h.subs[i])
  {
    hide Key, PacketFor, Balanced;
    assert EntryFits(h, s);
  }

  /** But one that overtakes the entry into the table is lost. */
  lemma {:induction false} EarlyAckIsLost(actions: seq<Action>)
    requires Allowed(INITIAL, actions) && Exec(INITIAL, actions).phase.Written?
    ensures var s := Exec(INITIAL, actions).seqNum;
            && Allowed(INITIAL, actions + [AckArrives(s)])
            && Exec(INITIAL, actions + [AckArrives(s)]) == Exec(INITIAL, actions)
  {
    var st := Exec(INITIAL, actions);
    TableIsUsedSafely(actions);
    assert st.waiting - {st.seqNum} == st.waiting;
    assert Allowed(st, [AckArrives(st.seqNum)]) && Exec(st, [AckArrives(st.seqNum)]) == st by {
      assert [AckArrives(st.seqNum)][1..] == [];
    }
    ExecConcat(INITIAL, actions, [AckArrives(st.seqNum)]);
  }
}
