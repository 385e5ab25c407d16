/**
 Whole runs of the retransmission protocol. A run is recorded next to the state: which submission
 every written, staged or pending packet belongs to, when it entered the table, and how many
 retries an acknowledgement made unnecessary.
 */
module Retransmission {
  import opened Basics
  import opened Endpoint
  import Hdlc

  datatype History = History(
    st: State,
    subs: seq<Bytes>,          // everything submitted, in order
    ids: map<U8, nat>,         // the submission behind each table entry
    portIds: seq<nat>,         // the submission behind each frame written
    stagedIds: seq<nat>,       // the submission behind each staged packet
    ticks: nat,                // retransmission rounds so far
    marked: seq<nat>,          // the round count when each submission entered the table
    forfeited: seq<int>)       // the retries each submission had left when it was acknowledged

  const START := History(INITIAL, [], map[], [], [], 0, [], [])

  /** The sequence number of the i-th submission. */
  function Key(i: nat): U8 {
    i % 256
  }

  function PacketOf(h: History, i: nat): Bytes
    requires i < |h.subs|
  {
    PacketFor(Key(i), h.subs[i])
  }

  /** Retransmission rounds that submission i has been in the table for, had it not been acknowledged. */
  function Age(h: History, i: nat): int
    requires i < |h.marked|
  {
    h.ticks - h.marked[i]
  }

  /** The retries still to come for submission i. */
  function Left(h: History, i: nat): int
    requires i < |h.marked| == |h.forfeited|
  {
    if h.forfeited[i] == 0 && Age(h, i) < RETRIES then RETRIES - Age(h, i) else 0
  }

  function Copies(ids: seq<nat>, i: nat): nat {
    multiset(ids)[i]
  }

  // ---------- The invariant ----------

  ghost predicate Shape(h: History) {
    var n := |h.marked|;
    && |h.forfeited| == n
    && (match h.st.phase
        case Written(packet) => |h.subs| == n + 1 && h.st.seqNum == Key(n) && packet == PacketOf(h, n)
        case Marked => |h.subs| == n >= 1 && h.st.seqNum == Key(n - 1)
        case _ => |h.subs| == n && h.st.seqNum == Key(n))
  }

  ghost predicate StagedFits(h: History)
    requires Shape(h)
  {
    if h.st.phase.Flushing? then
      && |h.stagedIds| == |h.st.phase.staged|
      && forall j :: 0 <= j < |h.stagedIds| ==>
           h.stagedIds[j] < |h.marked| && h.st.phase.staged[j] == PacketOf(h, h.stagedIds[j])
    else h.stagedIds == []
  }

  ghost predicate EntryFits(h: History, s: U8)
    requires Shape(h) && s in h.st.waiting && s in h.ids
  {
    var i := h.ids[s];
    && i < |h.marked| && s == Key(i)
    && h.forfeited[i] == 0
    && 1 <= h.st.waiting[s].retries == RETRIES - Age(h, i)
    && h.st.waiting[s].packet == PacketOf(h, i)
  }

  /** The table holds exactly the submissions with retries to come, each with its own packet. */
  ghost predicate TableFits(h: History)
    requires Shape(h)
  {
    && h.ids.Keys == h.st.waiting.Keys
    && (forall s :: s in h.st.waiting ==> EntryFits(h, s))
    && (forall i: nat :: i < |h.marked| && Left(h, i) > 0 ==> Key(i) in h.ids && h.ids[Key(i)] == i)
  }

  /** Between two entries into the table there is a round, and one after the last before the next. */
  ghost predicate ClockFits(h: History) {
    var n := |h.marked|;
    var slack := if h.st.phase.Marked? || h.st.phase.Ticking? then 1 else 0;
    && (forall i, j :: 0 <= i < j < n ==> h.marked[i] + (j - i) <= h.marked[j])
    && (forall i :: 0 <= i < n ==> h.marked[i] + (n - i) <= h.ticks + slack)
  }

  /** Four transmissions per submission: written, staged, still to come, or forfeited. */
  ghost predicate Balanced(h: History, i: nat)
    requires i < |h.marked| == |h.forfeited|
  {
    && Copies(h.portIds, i) >= 1
    && 0 <= h.forfeited[i] <= RETRIES
    && Copies(h.portIds, i) + Copies(h.stagedIds, i) + Left(h, i) + h.forfeited[i] == 1 + RETRIES
  }

  ghost predicate LedgerFits(h: History)
    requires Shape(h)
  {
    && (forall i: nat :: i < |h.marked| ==> Balanced(h, i))
    && (forall i :: i in h.portIds ==> i < |h.subs|)
    && (h.st.phase.Written? ==> Copies(h.portIds, |h.marked|) == 1)
  }

  ghost predicate WireFits(h: History) {
    && |h.st.port| == |h.portIds|
    && forall j :: 0 <= j < |h.portIds| ==>
         h.portIds[j] < |h.subs| && h.st.port[j] == Hdlc.Encode(PacketOf(h, h.portIds[j]))
  }

  ghost predicate Inv(h: History) {
    Shape(h) && StagedFits(h) && TableFits(h) && ClockFits(h) && LedgerFits(h) && WireFits(h)
  }

  /** The recorded state after one more step. */
  ghost function Record(h: History, a: Action): History
    requires Inv(h) && Enabled(h.st, a)
  {
    var after := h.(st := Apply(h.st, a));
    match a
    case Submit(data) => after.(subs := h.subs + [data], portIds := h.portIds + [|h.subs|])
    case Mark =>
      after.(ids := h.ids[h.st.seqNum := |h.marked|], marked := h.marked + [h.ticks], forfeited := h.forfeited + [0])
    case Tick(order) =>
      after.(stagedIds := IdsOf(h.ids, order), ids := map s | s in h.ids && s in after.st.waiting :: h.ids[s],
             ticks := h.ticks + 1)
    case Flush => after.(portIds := h.portIds + [h.stagedIds[0]], stagedIds := h.stagedIds[1..])
    case AckArrives(s) =>
      if s in h.st.waiting then
        assert EntryFits(h, s);
        after.(ids := h.ids - {s}, forfeited := h.forfeited[h.ids[s] := h.st.waiting[s].retries])
      else after
    case _ => after
  }

  function IdsOf(ids: map<U8, nat>, order: seq<U8>): (r: seq<nat>)
    requires forall s :: s in order ==> s in ids
    ensures |r| == |order|
  {
    seq(|order|, i requires 0 <= i < |order| => assert order[i] in order; ids[order[i]])
  }

  // ---------- Every step keeps it ----------

  lemma CopiesSnoc(ids: seq<nat>, x: nat, i: nat)
    ensures Copies(ids + [x], i) == Copies(ids, i) + (if i == x then 1 else 0)
  {
  }

  lemma CopiesCons(ids: seq<nat>, i: nat)
    requires ids != []
    ensures Copies(ids, i) == (if i == ids[0] then 1 else 0) + Copies(ids[1..], i)
  {
    assert ids == [ids[0]] + ids[1..];
  }

  lemma NoCopies(ids: seq<nat>, i: nat)
    requires i !in ids
    ensures Copies(ids, i) == 0
  {
  }

  /** Consecutive submissions that can be pending together have different sequence numbers. */
  lemma KeysDiffer(i: nat, n: nat)
    requires 1 <= n - i <= 2
    ensures Key(i) != Key(n)
  {
  }

  lemma KeyBumped(n: nat)
    ensures Key(n + 1) == Bumped(Key(n))
  {
  }

  /** Nothing recorded about submissions changes. */
  ghost predicate SameBooks(h: History, h': History) {
    && h'.subs == h.subs && h'.ids == h.ids && h'.portIds == h.portIds && h'.stagedIds == h.stagedIds
    && h'.ticks == h.ticks && h'.marked == h.marked && h'.forfeited == h.forfeited
  }

  lemma SameBooksKeep(h: History, h': History)
    requires Inv(h) && SameBooks(h, h') && Shape(h')
    requires h'.st.waiting == h.st.waiting && h'.st.port == h.st.port
    requires !h'.st.phase.Written?
    ensures TableFits(h') && LedgerFits(h') && WireFits(h')
  {
    hide Key, PacketFor, Copies;
    forall s | s in h.st.waiting
      ensures EntryFits(h', s)
    {
      assert EntryFits(h, s);
    }
    forall i: nat | i < |h.marked|
      ensures Balanced(h', i) && Left(h', i) == Left(h, i)
    {
      assert Balanced(h, i);
    }
  }

  lemma IdleKeeps(h: History, a: Action)
    requires Inv(h) && Enabled(h.st, a) && (a.Timeout? || a.Finish?)
    ensures Inv(Record(h, a))
  {
    hide Key, PacketFor, Balanced, EntryFits;
    SameBooksKeep(h, Record(h, a));
  }

  lemma BumpKeeps(h: History)
    requires Inv(h) && Enabled(h.st, Bump)
    ensures Inv(Record(h, Bump))
  {
    hide Key, PacketFor, Balanced, EntryFits;
    KeyBumped(|h.marked| - 1);
    SameBooksKeep(h, Record(h, Bump));
  }

  lemma SubmitKeeps(h: History, data: Bytes)
    requires Inv(h) && Enabled(h.st, Submit(data))
    ensures Inv(Record(h, Submit(data)))
  {
    hide Key, PacketFor, Copies;
    var h' := Record(h, Submit(data));
    var n := |h.marked|;
    forall s | s in h.st.waiting
      ensures EntryFits(h', s)
    {
      assert EntryFits(h, s);
    }
    forall i: nat | i < n
      ensures Balanced(h', i) && Left(h', i) == Left(h, i)
    {
      assert Balanced(h, i);
      CopiesSnoc(h.portIds, n, i);
    }
    NoCopies(h.portIds, n);
    CopiesSnoc(h.portIds, n, n);
    assert TableFits(h') && StagedFits(h') && ClockFits(h');
    assert LedgerFits(h');
    assert WireFits(h');
  }

  lemma {:induction false} EntryIsRecent(h: History, s: U8)
    requires Inv(h) && s in h.st.waiting
    requires !h.st.phase.Marked? && !h.st.phase.Ticking?
    ensures 1 <= |h.marked| - h.ids[s] <= RETRIES - h.st.waiting[s].retries <= 2
  {
    hide PacketFor, Balanced;
    assert EntryFits(h, s);
  }

  /** The sequence number about to enter the table is not in it. */
  lemma {:induction false} InsertHitsAbsentKey(h: History)
    requires Inv(h) && h.st.phase.Written?
    ensures h.st.seqNum !in h.st.waiting
  {
    hide PacketFor, Balanced;
    if h.st.seqNum in h.st.waiting {
      EntryIsRecent(h, h.st.seqNum);
      assert EntryFits(h, h.st.seqNum);
      KeysDiffer(h.ids[h.st.seqNum], |h.marked|);
      assert false;
    }
  }

  lemma NewEntryFits(h: History, h': History)
    requires Shape(h) && h.st.phase.Written? && Shape(h') && h'.subs == h.subs && h'.ticks == h.ticks
    requires var s := h.st.seqNum;
             && s in h'.st.waiting && h'.st.waiting[s] == Pending(RETRIES, h.st.phase.packet)
             && s in h'.ids && h'.ids[s] == |h.marked|
    requires h'.marked == h.marked + [h.ticks] && h'.forfeited == h.forfeited + [0]
    ensures EntryFits(h', h.st.seqNum)
  {
    hide Key, PacketFor;
  }

  lemma OldEntryFits(h: History, h': History, s: U8)
    requires Shape(h) && s in h.st.waiting && s in h.ids && EntryFits(h, s)
    requires Shape(h') && h'.subs == h.subs && h'.ticks == h.ticks
    requires s in h'.st.waiting && h'.st.waiting[s] == h.st.waiting[s] && s in h'.ids && h'.ids[s] == h.ids[s]
    requires |h'.marked| == |h'.forfeited| && h.marked <= h'.marked && h.forfeited <= h'.forfeited
    ensures EntryFits(h', s)
  {
    hide Key, PacketFor;
  }

  lemma {:induction false} MarkKeepsTable(h: History, h': History)
    requires Shape(h) && TableFits(h) && h.st.phase.Written? && h.st.seqNum !in h.st.waiting
    requires Shape(h') && h'.subs == h.subs && h'.ticks == h.ticks
    requires h'.st.waiting == h.st.waiting[h.st.seqNum := Pending(RETRIES, h.st.phase.packet)]
    requires h'.ids == h.ids[h.st.seqNum := |h.marked|]
    requires h'.marked == h.marked + [h.ticks] && h'.forfeited == h.forfeited + [0]
    ensures TableFits(h')
  {
    hide Key, PacketFor, EntryFits;
    var n := |h.marked|;
    forall s | s in h'.st.waiting
      ensures EntryFits(h', s)
    {
      if s == h.st.seqNum {
        NewEntryFits(h, h');
      } else {
        OldEntryFits(h, h', s);
      }
    }
    forall i: nat | i < n + 1 && Left(h', i) > 0
      ensures Key(i) in h'.ids && h'.ids[Key(i)] == i
    {
      assert i < n ==> Left(h', i) == Left(h, i);
    }
  }

  lemma MarkKeepsLedger(h: History, h': History)
    requires Shape(h) && LedgerFits(h) && h.st.phase.Written? && h.stagedIds == []
    requires Shape(h') && h'.st.phase.Marked? && h'.subs == h.subs && h'.ticks == h.ticks
    requires h'.portIds == h.portIds && h'.stagedIds == []
    requires h'.marked == h.marked + [h.ticks] && h'.forfeited == h.forfeited + [0]
    ensures LedgerFits(h')
  {
    hide Key, PacketFor, Copies;
    var n := |h.marked|;
    NoCopies([], n);
    forall i: nat | i < n + 1
      ensures Balanced(h', i)
    {
      if i < n {
        assert Balanced(h, i);
        assert Left(h', i) == Left(h, i);
      }
    }
  }

  lemma {:induction false} MarkKeeps(h: History)
    requires Inv(h) && Enabled(h.st, Mark)
    ensures Inv(Record(h, Mark))
  {
    hide Key, PacketFor, Copies, EntryFits, Balanced;
    var h' := Record(h, Mark);
    InsertHitsAbsentKey(h);
    MarkKeepsTable(h, h');
    MarkKeepsLedger(h, h');
    hide TableFits, LedgerFits;
    assert ClockFits(h') && WireFits(h');
  }

  lemma SameTableKeeps(h: History, h': History)
    requires Shape(h) && TableFits(h) && Shape(h')
    requires h'.subs == h.subs && h'.marked == h.marked && h'.ticks == h.ticks && h'.forfeited == h.forfeited
    requires h'.st.waiting == h.st.waiting && h'.ids == h.ids
    ensures TableFits(h')
  {
    hide PacketFor;
    forall s | s in h.st.waiting
      ensures EntryFits(h', s)
    {
      assert EntryFits(h, s);
    }
    forall i: nat | i < |h.marked|
      ensures Left(h', i) == Left(h, i)
    {
    }
  }

  lemma FlushKeeps(h: History)
    requires Inv(h) && Enabled(h.st, Flush)
    ensures Inv(Record(h, Flush))
  {
    hide Key, PacketFor, Copies, EntryFits;
    var h' := Record(h, Flush);
    SameTableKeeps(h, h');
    hide TableFits;
    forall i: nat | i < |h.marked|
      ensures Balanced(h', i)
    {
      assert Balanced(h, i);
      CopiesSnoc(h.portIds, h.stagedIds[0], i);
      CopiesCons(h.stagedIds, i);
    }
    hide Balanced;
    assert ClockFits(h') && LedgerFits(h') && WireFits(h') && StagedFits(h');
  }

  lemma {:induction false} AckKeepsTable(h: History, h': History, s: U8)
    requires Shape(h) && TableFits(h) && s in h.st.waiting && h.ids[s] < |h.marked|
    requires Shape(h') && h'.subs == h.subs && h'.marked == h.marked && h'.ticks == h.ticks
    requires h'.st.waiting == h.st.waiting - {s} && h'.ids == h.ids - {s}
    requires h'.forfeited == h.forfeited[h.ids[s] := h.st.waiting[s].retries]
    ensures TableFits(h')
  {
    hide Key, PacketFor;
    assert EntryFits(h, s);
    forall t | t in h'.st.waiting
      ensures EntryFits(h', t)
    {
      assert EntryFits(h, t);
    }
    hide EntryFits;
    forall i: nat | i < |h.marked| && Left(h', i) > 0
      ensures Key(i) in h'.ids && h'.ids[Key(i)] == i
    {
      assert Left(h, i) == Left(h', i);
    }
  }

  lemma AckKeepsLedger(h: History, h': History, acked: nat)
    requires Shape(h) && LedgerFits(h) && acked < |h.marked| && Left(h, acked) > 0
    requires Shape(h') && h'.subs == h.subs && h'.marked == h.marked && h'.ticks == h.ticks
    requires h'.portIds == h.portIds && h'.stagedIds == h.stagedIds && h'.st.phase == h.st.phase
    requires h'.forfeited == h.forfeited[acked := Left(h, acked)]
    ensures LedgerFits(h')
  {
    hide Key, PacketFor, Copies;
    forall i: nat | i < |h.marked|
      ensures Balanced(h', i)
    {
      assert Balanced(h, i);
    }
  }

  lemma EntryHasRetries(h: History, s: U8)
    requires Inv(h) && s in h.st.waiting
    ensures h.ids[s] < |h.marked|
    ensures h.st.waiting[s].retries == Left(h, h.ids[s]) > 0
  {
    hide Key, PacketFor, Balanced;
    assert EntryFits(h, s);
  }

  lemma {:induction false} AckKeeps(h: History, s: U8)
    requires Inv(h)
    ensures Inv(Record(h, AckArrives(s)))
  {
    hide Key, PacketFor, EntryFits, Balanced;
    var h' := Record(h, AckArrives(s));
    if s in h.st.waiting {
      EntryHasRetries(h, s);
      AckKeepsTable(h, h', s);
      AckKeepsLedger(h, h', h.ids[s]);
      hide TableFits, LedgerFits;
    } else {
      assert h'.st.waiting == h.st.waiting;
    }
  }

  lemma IdsOfSnoc(ids: map<U8, nat>, order: seq<U8>, s: U8)
    requires s in ids && forall t :: t in order ==> t in ids
    ensures IdsOf(ids, order + [s]) == IdsOf(ids, order) + [ids[s]]
  {
  }

  /** An entry belongs to submission i exactly when i has retries to come and this number. */
  lemma IdOfEntry(h: History, s: U8, i: nat)
    requires Inv(h) && i < |h.marked| && s in h.st.waiting
    ensures h.ids[s] == i <==> Left(h, i) > 0 && Key(i) == s
  {
    hide PacketFor, Copies, Balanced;
    assert EntryFits(h, s);
  }

  /** A round stages a submission once if it has an entry, which is then the only one, and else not at all. */
  lemma {:induction false} CopiesInOrder(ids: map<U8, nat>, order: seq<U8>, i: nat, pending: bool, key: U8)
    requires forall s :: s in order ==> s in ids && (ids[s] == i <==> pending && s == key)
    requires forall j, k :: 0 <= j < k < |order| ==> order[j] != order[k]
    ensures Copies(IdsOf(ids, order), i) == if pending && key in order then 1 else 0
  {
    hide Copies, IdsOf;
    if order == [] {
      NothingInOrder(ids, i);
    } else {
      var init, s := order[..|order| - 1], order[|order| - 1];
      assert order == init + [s] && s !in init;
      CopiesInOrder(ids, init, i, pending, key);
      IdsOfSnoc(ids, init, s);
      CopiesSnoc(IdsOf(ids, init), ids[s], i);
    }
  }

  lemma NothingInOrder(ids: map<U8, nat>, i: nat)
    ensures Copies(IdsOf(ids, []), i) == 0
  {
  }

  lemma EntryCounts(h: History, s: U8)
    requires Shape(h) && TableFits(h) && s in h.st.waiting
    ensures h.ids[s] < |h.marked| && h.st.waiting[s].retries == RETRIES - Age(h, h.ids[s])
  {
    hide Key, PacketFor;
    assert EntryFits(h, s);
  }

  lemma TickKeepsEntry(h: History, h': History, s: U8)
    requires Shape(h) && s in h.st.waiting && s in h.ids && EntryFits(h, s)
    requires Shape(h') && h'.subs == h.subs && h'.ticks == h.ticks + 1
    requires s in h'.st.waiting && s in h'.ids && h'.ids[s] == h.ids[s]
    requires h'.st.waiting[s] == Pending(h.st.waiting[s].retries - 1, h.st.waiting[s].packet)
    requires h'.st.waiting[s].retries != 0
    requires h'.marked == h.marked && h'.forfeited == h.forfeited
    ensures EntryFits(h', s)
  {
    hide Key, PacketFor;
  }

  lemma {:induction false} TickKeepsTable(h: History, h': History)
    requires Shape(h) && TableFits(h)
    requires Shape(h') && h'.subs == h.subs && h'.ticks == h.ticks + 1
    requires h'.st.waiting == Decremented(h.st.waiting)
    requires h'.ids == map s | s in h.ids && s in h'.st.waiting :: h.ids[s]
    requires h'.marked == h.marked && h'.forfeited == h.forfeited
    ensures TableFits(h')
  {
    hide Key, PacketFor, EntryFits;
    forall s | s in h'.st.waiting
      ensures EntryFits(h', s)
    {
      TickKeepsEntry(h, h', s);
    }
    forall i: nat | i < |h.marked| && Left(h', i) > 0
      ensures Key(i) in h'.ids && h'.ids[Key(i)] == i
    {
      assert Left(h, i) > 1;
      EntryCounts(h, Key(i));
    }
  }

  lemma TickKeepsLedger(h: History, h': History, order: seq<U8>)
    requires Inv(h) && h.st.phase.Ticking? && IsOrder(order, h.st.waiting)
    requires Shape(h') && h'.st.phase.Flushing? && h'.subs == h.subs && h'.ticks == h.ticks + 1
    requires h'.portIds == h.portIds && h'.stagedIds == IdsOf(h.ids, order)
    requires h'.marked == h.marked && h'.forfeited == h.forfeited
    ensures LedgerFits(h')
  {
    hide Key, PacketFor, Copies, EntryFits;
    NoCopiesAtAll();
    forall i: nat | i < |h.marked|
      ensures Balanced(h', i)
    {
      assert Balanced(h, i);
      forall s | s in order
        ensures h.ids[s] == i <==> Left(h, i) > 0 && s == Key(i)
      {
        IdOfEntry(h, s, i);
      }
      CopiesInOrder(h.ids, order, i, Left(h, i) > 0, Key(i));
    }
  }

  lemma NoCopiesAtAll()
    ensures forall i :: Copies([], i) == 0
  {
  }

  lemma TickStages(h: History, h': History, order: seq<U8>)
    requires Inv(h) && IsOrder(order, h.st.waiting)
    requires Shape(h') && h'.subs == h.subs && h'.marked == h.marked && h'.stagedIds == IdsOf(h.ids, order)
    requires h'.st.phase == Flushing(Staged(h.st.waiting, order))
    ensures StagedFits(h')
  {
    hide Key, PacketFor, Balanced;
    forall j | 0 <= j < |order|
      ensures h'.stagedIds[j] < |h.marked| && h'.st.phase.staged[j] == PacketOf(h', h'.stagedIds[j])
    {
      assert order[j] in order;
      assert EntryFits(h, order[j]);
    }
  }

  lemma {:induction false} TickKeeps(h: History, order: seq<U8>)
    requires Inv(h) && Enabled(h.st, Tick(order))
    ensures Inv(Record(h, Tick(order)))
  {
    hide Key, PacketFor, Copies, EntryFits, Balanced, Decremented, Staged, IdsOf;
    var h' := Record(h, Tick(order));
    TickKeepsTable(h, h');
    TickKeepsLedger(h, h', order);
    TickStages(h, h', order);
    hide TableFits, LedgerFits, StagedFits;
    assert ClockFits(h') && WireFits(h');
  }
}
