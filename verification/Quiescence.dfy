/** The protocol comes to rest: how the table drains, and when nothing more is written. */
module Quiescence {
  import opened Basics
  import opened Endpoint
  import opened Retransmission
  import opened Runs
  import Hdlc

  ghost predicate NothingNew(actions: seq<Action>) {
    forall a :: a in actions ==> !a.Submit?
  }

  // ---------- The table drains ----------

  /** No submission entered the table, or will, after more than t rounds. */
  ghost predicate EnteredBy(h: History, t: nat) {
    && (forall i :: 0 <= i < |h.marked| ==> h.marked[i] <= t)
    && (h.st.phase.Written? ==> h.ticks == t)
  }

  lemma EnteredByNow(h: History)
    requires Inv(h)
    ensures EnteredBy(h, h.ticks)
  {
    hide PacketFor, Balanced, EntryFits;
  }

  lemma NothingNewStep(h: History, a: Action, t: nat)
    requires Inv(h) && Enabled(h.st, a) && !a.Submit? && EnteredBy(h, t)
    ensures EnteredBy(Record(h, a), t)
  {
    hide PacketFor, Balanced, EntryFits;
  }

  lemma {:induction false} NothingNewEnters(h: History, actions: seq<Action>, t: nat)
    requires Inv(h) && Allowed(h.st, actions) && NothingNew(actions) && EnteredBy(h, t)
    ensures EnteredBy(Play(h, actions), t)
    decreases actions
  {
    hide Inv, Record, Enabled, Apply, EnteredBy;
    if actions != [] {
      var a := actions[0];
      assert a in actions;
      StepKeeps(h, a);
      RecordState(h, a);
      NothingNewStep(h, a, t);
      assert NothingNew(actions[1..]);
      NothingNewEnters(Record(h, a), actions[1..], t);
    }
  }

  lemma EntryIsYoung(h: History, s: U8)
    requires Inv(h) && s in h.st.waiting
    ensures h.ids[s] < |h.marked| && Age(h, h.ids[s]) < 3
  {
    hide PacketFor, Balanced;
    assert EntryFits(h, s);
  }

  /** Three rounds after the last submission, wherever the writer then was, the table is empty. */
  lemma ThreeRoundsEmptyTheTable(before: seq<Action>, after: seq<Action>)
    requires Allowed(INITIAL, before) && Allowed(Exec(INITIAL, before), after)
    requires NothingNew(after) && Ticks(after) >= 3
    ensures Exec(Exec(INITIAL, before), after).waiting == map[]
    ensures !Exec(Exec(INITIAL, before), after).phase.Written?
  {
    hide EntryFits, Balanced, Apply, Enabled, PacketFor;
    var h := RunOf(before);
    EnteredByNow(h);
    NothingNewEnters(h, after, h.ticks);
    PlayRecords(h, after);
    var h' := Play(h, after);
    forall s | s in h'.st.waiting
      ensures false
    {
      EntryIsYoung(h', s);
    }
  }

  // ---------- Nothing more is written ----------

  /** Everything written, and what the round in progress will still write. */
  function Output(st: State): seq<Bytes> {
    st.port + (if st.phase.Flushing? then Encoded(st.phase.staged) else [])
  }

  lemma FirstIsPending(order: seq<U8>, waiting: Table)
    requires IsOrder(order, waiting)
    ensures order == [] || order[0] in waiting
  {
  }

  lemma RestingStep(st: State, a: Action)
    requires Enabled(st, a) && !a.Submit? && st.waiting == map[] && !st.phase.Written?
    ensures var st' := Apply(st, a);
            Output(st') == Output(st) && st'.waiting == map[] && !st'.phase.Written?
  {
    hide Hdlc.Encode;
    match a {
      case Tick(order) =>
        FirstIsPending(order, st.waiting);
        assert Decremented(st.waiting) == map[];
      case Flush =>
        var staged := st.phase.staged;
        assert Encoded(staged) == [Hdlc.Encode(staged[0])] + Encoded(staged[1..]);
      case _ =>
    }
  }

  /** With an empty table, only what the round in progress has staged is still written. */
  lemma {:induction false} AtRestNothingIsWritten(st: State, actions: seq<Action>)
    requires Allowed(st, actions) && NothingNew(actions)
    requires st.waiting == map[] && !st.phase.Written?
    ensures Output(Exec(st, actions)) == Output(st) && Exec(st, actions).waiting == map[]
    decreases actions
  {
    hide Apply, Enabled, Output;
    if actions != [] {
      var a := actions[0];
      assert a in actions;
      assert NothingNew(actions[1..]);
      RestingStep(st, a);
      AtRestNothingIsWritten(Apply(st, a), actions[1..]);
    }
  }

  /**
   Quiescence: from the third round after the last submission on, the table stays empty and nothing
   is written but the rest of that round, until something new is submitted, under any interleaving.
   */
  lemma ComesToRest(before: seq<Action>, after: seq<Action>, later: seq<Action>)
    requires Allowed(INITIAL, before) && Allowed(Exec(INITIAL, before), after)
    requires NothingNew(after) && Ticks(after) >= 3
    requires Allowed(Exec(Exec(INITIAL, before), after), later) && NothingNew(later)
    ensures var st := Exec(Exec(INITIAL, before), after);
            var end := Exec(st, later);
            && end.waiting == map[] && st.port <= end.port <= Output(st)
            && (st.phase.Head? ==> end.port == st.port)
  {
    ThreeRoundsEmptyTheTable(before, after);
    var st := Exec(Exec(INITIAL, before), after);
    AtRestNothingIsWritten(st, later);
    PortOnlyGrows(st, later);
  }

  lemma {:induction false} PortOnlyGrows(st: State, actions: seq<Action>)
    requires Allowed(st, actions)
    ensures st.port <= Exec(st, actions).port
    decreases actions
  {
    if actions != [] {
      PortOnlyGrows(Apply(st, actions[0]), actions[1..]);
    }
  }

  // ---------- One round, one acknowledgement ----------

  /**
   A round takes one retry from every entry, and with it every entry at its last retry, so the
   retries pending fall by the number of entries; an acknowledgement only removes its own entry.
   */
  lemma {:induction false} RoundsAndAcksOnlyTakeAway(actions: seq<Action>, a: Action)
    requires Allowed(INITIAL, actions) && Enabled(Exec(INITIAL, actions), a) && (a.Tick? || a.AckArrives?)
    ensures var before, after := Exec(INITIAL, actions).waiting, Apply(Exec(INITIAL, actions), a).waiting;
            && (forall s :: s in after ==> s in before && after[s].packet == before[s].packet)
            && (a.Tick? ==>
                  && AllRetries(after) == AllRetries(before) - |before|
                  && forall s :: s in before ==>
                       if before[s].retries == 1 then s !in after
                       else s in after && after[s].retries == before[s].retries - 1)
            && (a.AckArrives? ==>
                  && after == before - {a.seqNum}
                  && AllRetries(after) <= AllRetries(before))
  {
    hide Retries, PacketFor;
    TableIsUsedSafely(actions);
    var before := Exec(INITIAL, actions).waiting;
    if a.Tick? {
      RetriesDecremented(before, 256);
      assert KeysBelow(before, 256) == before.Keys;
    } else {
      RetriesRemove(before, a.seqNum, 256);
    }
  }
}
