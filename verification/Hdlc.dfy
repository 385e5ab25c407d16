/**
 The HDLC codec: framing with flags (section 3.1 of RFC 1662) and octet stuffing (section 4.2).
 The receiver accepts only the two escapes that the transmitter produces; every other escape
 discards the frame until the next flag.
 */
module Hdlc {
  import opened Basics

  const FRAME: bv8 := 0x7E
  const ESCAPE: bv8 := 0x7D
  const ESCAPED_FRAME: bv8 := 0x5E
  const ESCAPED_ESCAPE: bv8 := 0x5D
  const MASK: bv8 := 0x20

  /** What the decoder remembers: the frame under construction, if any, and a pending escape. */
  datatype State = State(decoded: Option<Bytes>, escaped: bool)

  const FRESH := State(None, false)
  const CLEAN := State(Some([]), false)

  function Push(decoded: Option<Bytes>, b: bv8): Option<Bytes> {
    match decoded
    case None => None
    case Some(buffer) => Some(buffer + [b])
  }

  /** The decoder state after one input byte. */
  function Next(st: State, b: bv8): State {
    if st.escaped then
      if b == ESCAPED_FRAME then State(Push(st.decoded, FRAME), false)
      else if b == ESCAPED_ESCAPE then State(Push(st.decoded, ESCAPE), false)
      else if b == FRAME then CLEAN
      else FRESH
    else
      if b == FRAME then CLEAN
      else if b == ESCAPE then State(st.decoded, true)
      else State(Push(st.decoded, b), false)
  }

  /** The frames, at most one, completed by one input byte. */
  function Emitted(st: State, b: bv8): seq<Bytes> {
    if !st.escaped && b == FRAME && st.decoded.Some? && st.decoded.value != [] then [st.decoded.value] else []
  }

  /** The decoder state after a byte string. */
  function Final(st: State, s: Bytes): State {
    if s == [] then st else Next(Final(st, s[..|s| - 1]), s[|s| - 1])
  }

  /** The frames completed by a byte string, in order. */
  function Frames(st: State, s: Bytes): seq<Bytes> {
    if s == [] then []
    else Frames(st, s[..|s| - 1]) + Emitted(Final(st, s[..|s| - 1]), s[|s| - 1])
  }

  /** How the transmitter writes one byte of the frame body. */
  function StuffByte(b: bv8): Bytes {
    if b == FRAME || b == ESCAPE then [ESCAPE, b ^ MASK] else [b]
  }

  /** Only two bytes have a stuffed form of their own, and the receiver knows both. */
  lemma StuffByteCases(b: bv8)
    ensures StuffByte(b) == if b == FRAME then [ESCAPE, ESCAPED_FRAME]
                            else if b == ESCAPE then [ESCAPE, ESCAPED_ESCAPE] else [b]
  {
    assert (FRAME ^ MASK) == ESCAPED_FRAME && (ESCAPE ^ MASK) == ESCAPED_ESCAPE;
  }

  /** The transmitted frame body. */
  function Stuff(x: Bytes): Bytes {
    if x == [] then [] else Stuff(x[..|x| - 1]) + StuffByte(x[|x| - 1])
  }

  /** The transmitted frame. */
  function Encode(x: Bytes): Bytes {
    [FRAME] + Stuff(x) + [FRAME]
  }

  class HdlcCodec {
    var decoded: Option<Bytes>
    var escaped: bool

    constructor ()
      ensures View() == FRESH
    {
      decoded := None;
      escaped := false;
    }

    function View(): State
      reads this
    {
      State(decoded, escaped)
    }

    method Decode(input: Bytes) returns (result: seq<Bytes>)
      modifies this
      ensures View() == Final(old(View()), input)
      ensures result == Frames(old(View()), input)
    {
      result := [];
      for i := 0 to |input|
        invariant View() == Final(old(View()), input[..i])
        invariant result == Frames(old(View()), input[..i])
      {
        var b := input[i];
        assert input[..i + 1][..i] == input[..i];
        if escaped {
          escaped := false;
          if b == ESCAPED_FRAME {
            decoded := Push(decoded, FRAME);
          } else if b == ESCAPED_ESCAPE {
            decoded := Push(decoded, ESCAPE);
          } else if b == FRAME {
            decoded := Some([]);
          } else {
            decoded := None;
          }
        } else {
          if b == FRAME {
            if decoded.Some? && decoded.value != [] {
              result := result + [decoded.value];
            }
            decoded := Some([]);
          } else if b == ESCAPE {
            escaped := true;
          } else {
            decoded := Push(decoded, b);
          }
        }
      }
      assert input[..|input|] == input;
    }
  }

  // ---------- Streaming ----------

  lemma {:induction false} RunConcat(st: State, a: Bytes, b: Bytes)
    ensures Final(st, a + b) == Final(Final(st, a), b)
    ensures Frames(st, a + b) == Frames(st, a) + Frames(Final(st, a), b)
  {
    if b == [] {
      assert a + b == a;
    } else {
      var init := b[..|b| - 1];
      assert (a + b)[..|a + b| - 1] == a + init;
      RunConcat(st, a, init);
    }
  }

  lemma {:induction false} RunSnoc(st: State, a: Bytes, b: bv8)
    ensures Final(st, a + [b]) == Next(Final(st, a), b)
    ensures Frames(st, a + [b]) == Frames(st, a) + Emitted(Final(st, a), b)
  {
    assert (a + [b])[..|a|] == a;
  }

  /** A flag leaves the decoder clean, whatever came before it. */
  lemma FlagCleans(st: State, s: Bytes)
    ensures Final(st, s + [FRAME]) == CLEAN
    ensures Frames(st, s + [FRAME]) == Frames(st, s) + Emitted(Final(st, s), FRAME)
  {
    RunSnoc(st, s, FRAME);
  }

  /** The state after a list of reads, and everything those reads returned. */
  function FinalOfReads(st: State, chunks: seq<Bytes>): State
    decreases chunks
  {
    if chunks == [] then st else FinalOfReads(Final(st, chunks[0]), chunks[1..])
  }

  function FramesOfReads(st: State, chunks: seq<Bytes>): seq<Bytes>
    decreases chunks
  {
    if chunks == [] then [] else Frames(st, chunks[0]) + FramesOfReads(Final(st, chunks[0]), chunks[1..])
  }

  /** How a stream is cut into reads is invisible in the decoded frames and in the final state. */
  lemma {:induction false} ChunkIndependence(st: State, chunks: seq<Bytes>)
    ensures FinalOfReads(st, chunks) == Final(st, Flatten(chunks))
    ensures FramesOfReads(st, chunks) == Frames(st, Flatten(chunks))
    decreases chunks
  {
    if chunks != [] {
      ChunkIndependence(Final(st, chunks[0]), chunks[1..]);
      RunConcat(st, chunks[0], Flatten(chunks[1..]));
      FlattenConcat([chunks[0]], chunks[1..]);
      assert chunks == [chunks[0]] + chunks[1..];
      assert Flatten([chunks[0]]) == chunks[0];
    }
  }

  // ---------- Stuffed bodies ----------

  ghost predicate FlagFree(s: Bytes) {
    FRAME !in s
  }

  lemma StuffNone()
    ensures Stuff([]) == []
  {
  }

  lemma StuffOne(b: bv8)
    ensures Stuff([b]) == StuffByte(b)
  {
    hide StuffByte;
    assert [b][..0] == [];
  }

  lemma {:induction false} StuffConcat(a: Bytes, b: Bytes)
    ensures Stuff(a + b) == Stuff(a) + Stuff(b)
  {
    hide StuffByte;
    if b == [] {
      assert a + b == a;
    } else {
      var init := b[..|b| - 1];
      assert (a + b)[..|a + b| - 1] == a + init;
      StuffConcat(a, init);
    }
  }

  /** No flag occurs inside a transmitted body, and stuffing at most doubles the length. */
  lemma {:induction false} StuffShape(x: Bytes)
    ensures FlagFree(Stuff(x))
    ensures |x| <= |Stuff(x)| <= 2 * |x|
    ensures |Stuff(x)| == |x| <==> FRAME !in x && ESCAPE !in x
  {
    hide StuffByte;
    if x != [] {
      var init, b := x[..|x| - 1], x[|x| - 1];
      assert x == init + [b];
      StuffShape(init);
      StuffByteCases(b);
    }
  }

  lemma {:induction false} EncodeShape(x: Bytes)
    ensures |x| + 2 <= |Encode(x)| <= 2 * |x| + 2
    ensures forall k :: 0 <= k < |Encode(x)| ==> (Encode(x)[k] == FRAME <==> k == 0 || k == |Encode(x)| - 1)
  {
    StuffShape(x);
  }

  /** A stuffed byte extends the open frame by exactly that byte. */
  lemma ScanStuffedByte(buffer: Bytes, b: bv8)
    ensures Final(State(Some(buffer), false), StuffByte(b)) == State(Some(buffer + [b]), false)
    ensures Frames(State(Some(buffer), false), StuffByte(b)) == []
  {
    hide StuffByte;
    StuffByteCases(b);
    var st := State(Some(buffer), false);
    if b == FRAME || b == ESCAPE {
      var second := if b == FRAME then ESCAPED_FRAME else ESCAPED_ESCAPE;
      assert StuffByte(b) == [] + [ESCAPE] + [second];
      RunSnoc(st, [], ESCAPE);
      RunSnoc(st, [] + [ESCAPE], second);
    } else {
      assert StuffByte(b) == [] + [b];
      RunSnoc(st, [], b);
    }
  }

  lemma {:induction false} ScanStuffed(buffer: Bytes, x: Bytes)
    ensures Final(State(Some(buffer), false), Stuff(x)) == State(Some(buffer + x), false)
    ensures Frames(State(Some(buffer), false), Stuff(x)) == []
  {
    hide Next, Emitted, StuffByte;
    if x == [] {
      assert buffer + x == buffer;
    } else {
      var init, b := x[..|x| - 1], x[|x| - 1];
      ScanStuffed(buffer, init);
      RunConcat(State(Some(buffer), false), Stuff(init), StuffByte(b));
      ScanStuffedByte(buffer + init, b);
      assert buffer + x == (buffer + init) + [b];
    }
  }

  /** What the decoder can have collected from the flag-free bytes t since the last flag. */
  ghost predicate Collected(st: State, t: Bytes) {
    st.decoded.Some? ==> t == Stuff(st.decoded.value) + (if st.escaped then [ESCAPE] else [])
  }

  lemma CollectedNext(st: State, t: Bytes, b: bv8)
    requires Collected(st, t) && b != FRAME
    ensures Collected(Next(st, b), t + [b])
  {
    hide StuffByte, Stuff;
    if st.decoded.Some? {
      var x := st.decoded.value;
      StuffByteCases(b);
      StuffByteCases(FRAME);
      StuffByteCases(ESCAPE);
      StuffSnoc(x, b);
      StuffSnoc(x, FRAME);
      StuffSnoc(x, ESCAPE);
    }
  }

  lemma StuffSnoc(x: Bytes, b: bv8)
    ensures Stuff(x + [b]) == Stuff(x) + StuffByte(b)
  {
    assert (x + [b])[..|x|] == x;
  }

  /** Conversely, an open frame can only have come from the stuffed form of its contents. */
  lemma {:induction false} ScanIsStuffed(t: Bytes)
    requires FlagFree(t)
    ensures Frames(CLEAN, t) == []
    ensures Collected(Final(CLEAN, t), t)
  {
    hide Next, Stuff, Collected;
    if t == [] {
      assert Collected(CLEAN, []) by { CollectedAtStart(); }
    } else {
      var init, b := t[..|t| - 1], t[|t| - 1];
      assert t == init + [b];
      ScanIsStuffed(init);
      RunSnoc(CLEAN, init, b);
      CollectedNext(Final(CLEAN, init), init, b);
    }
  }

  lemma CollectedAtStart()
    ensures Collected(CLEAN, [])
  {
  }

  /** Without an opening flag nothing is ever collected. */
  lemma {:induction false} ScanUnopened(st: State, t: Bytes)
    requires st.decoded == None && FlagFree(t)
    ensures Frames(st, t) == []
    ensures Final(st, t).decoded == None
  {
    if t != [] {
      ScanUnopened(st, t[..|t| - 1]);
    }
  }

  // ---------- The declarative reading of a stream ----------

  /** The meaning of one flag-to-flag segment: the bytes it carries, or None for an invalid escape. */
  function Unstuff(t: Bytes): Option<Bytes> {
    if t == [] then Some([])
    else if t[0] != ESCAPE then Prepend(t[0], Unstuff(t[1..]))
    else if |t| >= 2 && t[1] == ESCAPED_FRAME then Prepend(FRAME, Unstuff(t[2..]))
    else if |t| >= 2 && t[1] == ESCAPED_ESCAPE then Prepend(ESCAPE, Unstuff(t[2..]))
    else None
  }

  function Prepend(b: bv8, rest: Option<Bytes>): Option<Bytes> {
    match rest
    case None => None
    case Some(x) => Some([b] + x)
  }

  /** A segment un-stuffs to x exactly when it is the stuffed form that Encode gives x. */
  lemma {:induction false} UnstuffIffStuffed(t: Bytes, x: Bytes)
    requires FlagFree(t)
    ensures Unstuff(t) == Some(x) <==> t == Stuff(x)
  {
    if t == Stuff(x) {
      UnstuffStuffed(x);
    }
    if Unstuff(t) == Some(x) {
      UnstuffSound(t);
    }
  }

  lemma {:induction false} UnstuffStuffed(x: Bytes)
    ensures Unstuff(Stuff(x)) == Some(x)
  {
    hide StuffByte;
    if x != [] {
      assert x == [x[0]] + x[1..];
      StuffOne(x[0]);
      StuffByteCases(x[0]);
      StuffConcat([x[0]], x[1..]);
      UnstuffStuffed(x[1..]);
      var rest := Stuff(x[1..]);
      if x[0] == FRAME || x[0] == ESCAPE {
        assert Stuff(x)[2..] == rest;
      } else {
        assert Stuff(x)[1..] == rest;
      }
    }
  }

  lemma {:induction false} UnstuffSound(t: Bytes)
    requires FlagFree(t)
    ensures Unstuff(t).Some? ==> t == Stuff(Unstuff(t).value)
  {
    hide StuffByte, Stuff;
    if t == [] {
      assert t == Stuff([]) by { StuffNone(); }
    } else if Unstuff(t).Some? {
      var n := if t[0] == ESCAPE then 2 else 1;
      var rest := t[n..];
      UnstuffSound(rest);
      var x := Unstuff(t).value;
      assert x == [x[0]] + x[1..];
      StuffOne(x[0]);
      StuffByteCases(x[0]);
      StuffConcat([x[0]], x[1..]);
      assert t == t[..n] + rest;
      assert t[..n] == StuffByte(x[0]);
    }
  }

  /** A stream cut at its flags; there is one more segment than there are flags. */
  function Split(s: Bytes): (segments: seq<Bytes>)
    ensures |segments| >= 1
  {
    if s == [] then [[]]
    else
      var segments := Split(s[..|s| - 1]);
      var b := s[|s| - 1];
      if b == FRAME then segments + [[]]
      else segments[..|segments| - 1] + [segments[|segments| - 1] + [b]]
  }

  function Join(segments: seq<Bytes>): Bytes
    requires |segments| >= 1
  {
    if |segments| == 1 then segments[0]
    else Join(segments[..|segments| - 1]) + [FRAME] + segments[|segments| - 1]
  }

  /** Split is the one way to write a stream as flag-free segments separated by single flags. */
  lemma {:induction false} SplitIffJoin(s: Bytes, segments: seq<Bytes>)
    requires |segments| >= 1
    ensures segments == Split(s) <==> Join(segments) == s && forall k :: 0 <= k < |segments| ==> FlagFree(segments[k])
  {
    JoinSplit(s);
    if Join(segments) == s && forall k :: 0 <= k < |segments| ==> FlagFree(segments[k]) {
      SplitJoin(segments);
    }
  }

  lemma {:induction false} JoinSplit(s: Bytes)
    ensures Join(Split(s)) == s
    ensures forall k :: 0 <= k < |Split(s)| ==> FlagFree(Split(s)[k])
  {
    if s != [] {
      var init, b := s[..|s| - 1], s[|s| - 1];
      assert s == init + [b];
      JoinSplit(init);
      var segments := Split(init);
      if b == FRAME {
        assert Split(s)[..|segments|] == segments;
      } else {
        assert Split(s)[..|segments| - 1] == segments[..|segments| - 1];
      }
    }
  }

  lemma {:induction false} SplitTail(s: Bytes, t: Bytes)
    requires FlagFree(t)
    ensures Split(s + [FRAME] + t) == Split(s) + [t]
  {
    var all := s + [FRAME] + t;
    if t == [] {
      assert all[..|all| - 1] == s;
    } else {
      var init := t[..|t| - 1];
      SplitTail(s, init);
      assert all[..|all| - 1] == s + [FRAME] + init;
      assert t == init + [t[|t| - 1]];
    }
  }

  lemma {:induction false} SplitFlagFree(t: Bytes)
    requires FlagFree(t)
    ensures Split(t) == [t]
  {
    if t != [] {
      SplitFlagFree(t[..|t| - 1]);
      assert t == t[..|t| - 1] + [t[|t| - 1]];
    }
  }

  lemma {:induction false} SplitJoin(segments: seq<Bytes>)
    requires |segments| >= 1
    requires forall k :: 0 <= k < |segments| ==> FlagFree(segments[k])
    ensures Split(Join(segments)) == segments
  {
    var k := |segments| - 1;
    if k == 0 {
      SplitFlagFree(segments[0]);
    } else {
      SplitJoin(segments[..k]);
      SplitTail(Join(segments[..k]), segments[k]);
      assert segments == segments[..k] + [segments[k]];
    }
  }

  /** What a list of complete segments delivers: the valid, non-empty ones. */
  function Deliver(segments: seq<Bytes>): seq<Bytes> {
    if segments == [] then []
    else Deliver(segments[..|segments| - 1]) + DeliverOne(segments[|segments| - 1])
  }

  function DeliverOne(t: Bytes): seq<Bytes> {
    match Unstuff(t)
    case None => []
    case Some(x) => if x == [] then [] else [x]
  }

  lemma DeliverSnoc(segments: seq<Bytes>, t: Bytes)
    ensures Deliver(segments + [t]) == Deliver(segments) + DeliverOne(t)
  {
    assert (segments + [t])[..|segments|] == segments;
  }

  /** A closing flag delivers what its segment means. */
  lemma {:induction false} ClosingFlag(t: Bytes)
    requires FlagFree(t)
    ensures Emitted(Final(CLEAN, t), FRAME) == DeliverOne(t)
  {
    ScanIsStuffed(t);
    var st := Final(CLEAN, t);
    if st.decoded.Some? && !st.escaped {
      UnstuffIffStuffed(t, st.decoded.value);
      assert Stuff(st.decoded.value) + [] == Stuff(st.decoded.value);
    } else if Unstuff(t).Some? {
      var x := Unstuff(t).value;
      UnstuffIffStuffed(t, x);
      ScanStuffed([], x);
      assert false;
    }
  }

  /**
   A fresh decoder delivers exactly the complete segments of its stream: everything before the
   first flag and after the last flag is withheld, invalid and empty segments are dropped.
   */
  ghost predicate RefinesSplit(s: Bytes) {
    && Frames(FRESH, s) == Deliver(Complete(Split(s)))
    && Final(FRESH, s) == Final(AtLastSegment(Split(s)), Split(s)[|Split(s)| - 1])
  }

  /** The segments that have a flag on either side. */
  function Complete(segments: seq<Bytes>): seq<Bytes>
    requires |segments| >= 1
  {
    if |segments| == 1 then [] else segments[1..|segments| - 1]
  }

  function AtLastSegment(segments: seq<Bytes>): State {
    if |segments| == 1 then FRESH else CLEAN
  }

  lemma {:induction false} DecodeRefinesSplit(s: Bytes)
    ensures RefinesSplit(s)
  {
    if s != [] {
      var init, b := s[..|s| - 1], s[|s| - 1];
      assert s == init + [b];
      DecodeRefinesSplit(init);
      JoinSplit(init);
      if b == FRAME {
        RefinesAtFlag(init);
      } else {
        RefinesAtByte(init, b);
      }
    }
  }

  lemma RefinesAtFlag(s: Bytes)
    requires RefinesSplit(s) && FlagFree(Split(s)[|Split(s)| - 1])
    ensures RefinesSplit(s + [FRAME])
  {
    hide Next, DeliverOne, Split, Frames, Deliver;
    var segments := Split(s);
    var t := segments[|segments| - 1];
    FlagCleans(FRESH, s);
    SplitTail(s, []);
    assert s + [FRAME] + [] == s + [FRAME];
    assert Final(CLEAN, []) == CLEAN;
    FlagDelivers(segments);
  }

  lemma FlagDelivers(segments: seq<Bytes>)
    requires |segments| >= 1 && FlagFree(segments[|segments| - 1])
    ensures Deliver(Complete(segments + [[]]))
         == Deliver(Complete(segments)) + Emitted(Final(AtLastSegment(segments), segments[|segments| - 1]), FRAME)
  {
    hide Next, DeliverOne;
    var k := |segments| - 1;
    if k == 0 {
      ScanUnopened(FRESH, segments[0]);
      assert Complete(segments + [[]]) == [];
    } else {
      ClosingFlag(segments[k]);
      DeliverSnoc(segments[1..k], segments[k]);
      assert Complete(segments + [[]]) == segments[1..k] + [segments[k]];
    }
  }

  lemma {:induction false} RefinesAtByte(s: Bytes, b: bv8)
    requires RefinesSplit(s) && b != FRAME
    ensures RefinesSplit(s + [b])
  {
    hide Next, Unstuff, Deliver, Frames;
    var segments := Split(s);
    var k := |segments| - 1;
    assert (s + [b])[..|s|] == s;
    assert Split(s + [b]) == segments[..k] + [segments[k] + [b]];
    RunSnoc(FRESH, s, b);
    RunSnoc(AtLastSegment(segments), segments[k], b);
    assert Complete(Split(s + [b])) == Complete(segments);
  }

  /** A stream that leads a fresh decoder into the given state without delivering anything. */
  function History(st: State): Bytes {
    (if st.decoded.Some? then [FRAME] + Stuff(st.decoded.value) else []) + (if st.escaped then [ESCAPE] else [])
  }

  /** So the same reading holds from every codec state: it only adds an unfinished beginning. */
  lemma {:induction false} DecodeRefinesSplitFromAnyState(st: State, s: Bytes)
    ensures RefinesSplit(History(st) + s)
    ensures Frames(st, s) == Frames(FRESH, History(st) + s)
    ensures Final(st, s) == Final(FRESH, History(st) + s)
  {
    HistoryLeadsTo(st);
    RunConcat(FRESH, History(st), s);
    DecodeRefinesSplit(History(st) + s);
  }

  lemma {:induction false} HistoryLeadsTo(st: State)
    ensures Final(FRESH, History(st)) == st && Frames(FRESH, History(st)) == []
  {
    var body := if st.decoded.Some? then [FRAME] + Stuff(st.decoded.value) else [];
    if st.decoded.Some? {
      RunSnoc(FRESH, [], FRAME);
      RunConcat(FRESH, [FRAME], Stuff(st.decoded.value));
      assert [] + [FRAME] == [FRAME];
      ScanStuffed([], st.decoded.value);
      assert [] + st.decoded.value == st.decoded.value;
    }
    assert Final(FRESH, body) == State(st.decoded, false) && Frames(FRESH, body) == [];
    if st.escaped {
      RunSnoc(FRESH, body, ESCAPE);
    } else {
      assert History(st) == body;
    }
  }

  /**
   Frame by frame: the byte at position j completes the frame x exactly when it is the flag that
   closes the stuffed form of x and another flag opens it.
   */
  lemma {:induction false} EmittedExactly(s: Bytes, j: nat, x: Bytes)
    requires j < |s|
    ensures Emitted(Final(FRESH, s[..j]), s[j]) == [x] <==>
            x != [] && s[j] == FRAME && exists i :: 0 <= i < j && s[i] == FRAME && s[i + 1..j] == Stuff(x)
  {
    hide Next, Stuff, Final;
    if Emitted(Final(FRESH, s[..j]), s[j]) == [x] {
      OpenFrameBegan(s[..j]);
      var i :| 0 <= i < |s[..j]| && s[..j][i] == FRAME && s[..j][i + 1..] == Stuff(x);
      assert s[..j][i + 1..] == s[i + 1..j];
    }
    if i :| 0 <= i < j && s[i] == FRAME && s[i + 1..j] == Stuff(x) {
      BodyAfterFlag(s[..i], x);
      assert s[..j] == s[..i] + [FRAME] + Stuff(x);
    }
  }

  lemma BodyAfterFlag(before: Bytes, x: Bytes)
    ensures Final(FRESH, before + [FRAME] + Stuff(x)) == State(Some(x), false)
  {
    hide Next, Stuff, Final;
    FlagCleans(FRESH, before);
    RunConcat(FRESH, before + [FRAME], Stuff(x));
    ScanStuffed([], x);
    assert [] + x == x;
  }

  /** An open frame began at a flag, and only its stuffed bytes followed. */
  lemma {:induction false} OpenFrameBegan(s: Bytes)
    requires Final(FRESH, s).decoded.Some? && !Final(FRESH, s).escaped
    ensures exists i :: 0 <= i < |s| && s[i] == FRAME && s[i + 1..] == Stuff(Final(FRESH, s).decoded.value)
  {
    DecodeRefinesSplit(s);
    JoinSplit(s);
    var segments := Split(s);
    var k := |segments| - 1;
    if k == 0 {
      ScanUnopened(FRESH, segments[0]);
      assert false;
    } else {
      ScanIsStuffed(segments[k]);
      var i := |Join(segments[..k])|;
      assert s == Join(segments[..k]) + [FRAME] + segments[k];
      assert s[i] == FRAME && s[i + 1..] == segments[k];
    }
  }

  // ---------- Encoded frames ----------

  /** The frame that a flag arriving now would complete. */
  function Unfinished(st: State): seq<Bytes> {
    Emitted(st, FRAME)
  }

  function NonEmpty(x: Bytes): seq<Bytes> {
    if x == [] then [] else [x]
  }

  /**
   Resynchronisation: whatever the decoder has seen before, one encoded frame completes at most the
   unfinished buffer, then itself, and leaves the decoder clean.
   */
  lemma {:induction false} Resynchronise(before: Bytes, x: Bytes)
    ensures var st := Final(FRESH, before);
            && Frames(st, Encode(x)) == Unfinished(st) + NonEmpty(x)
            && |Unfinished(st)| <= 1
            && Final(st, Encode(x)) == CLEAN
  {
    EncodedFrame(Final(FRESH, before), x);
  }

  lemma {:induction false} EncodedFrame(st: State, x: Bytes)
    ensures Frames(st, Encode(x)) == Unfinished(st) + NonEmpty(x)
    ensures Final(st, Encode(x)) == CLEAN
  {
    hide Next, Emitted, Stuff;
    FlagCleans(st, []);
    assert [] + [FRAME] == [FRAME];
    BodyAndFlag(x);
    RunConcat(st, [FRAME], Stuff(x) + [FRAME]);
    assert Encode(x) == [FRAME] + (Stuff(x) + [FRAME]);
  }

  /** A body and its closing flag, after an opening flag that may be shared with the frame before. */
  lemma {:induction false} BodyAndFlag(x: Bytes)
    ensures Frames(CLEAN, Stuff(x) + [FRAME]) == NonEmpty(x)
    ensures Final(CLEAN, Stuff(x) + [FRAME]) == CLEAN
  {
    hide Next;
    ScanStuffed([], x);
    assert [] + x == x;
    FlagCleans(CLEAN, Stuff(x));
  }

  /** A list of frames on the wire, each with both its flags. */
  function EncodeAll(xs: seq<Bytes>): Bytes {
    if xs == [] then [] else EncodeAll(xs[..|xs| - 1]) + Encode(xs[|xs| - 1])
  }

  /** The same list with one flag between adjacent frames (section 3.1 of RFC 1662). */
  function EncodeShared(xs: seq<Bytes>): Bytes {
    if xs == [] then [FRAME] else EncodeShared(xs[..|xs| - 1]) + (Stuff(xs[|xs| - 1]) + [FRAME])
  }

  function DropEmpty(xs: seq<Bytes>): seq<Bytes> {
    if xs == [] then [] else DropEmpty(xs[..|xs| - 1]) + NonEmpty(xs[|xs| - 1])
  }

  lemma {:induction false} FrameListRoundTrip(xs: seq<Bytes>)
    ensures Frames(FRESH, EncodeAll(xs)) == DropEmpty(xs)
    ensures Final(FRESH, EncodeAll(xs)) == if xs == [] then FRESH else CLEAN
  {
    hide Next, Encode;
    if xs != [] {
      var init := xs[..|xs| - 1];
      FrameListRoundTrip(init);
      EncodedFrame(Final(FRESH, EncodeAll(init)), xs[|xs| - 1]);
      RunConcat(FRESH, EncodeAll(init), Encode(xs[|xs| - 1]));
    }
  }

  lemma {:induction false} SharedFlagRoundTrip(xs: seq<Bytes>)
    ensures Frames(FRESH, EncodeShared(xs)) == DropEmpty(xs)
    ensures Final(FRESH, EncodeShared(xs)) == CLEAN
  {
    hide Next, Stuff;
    if xs == [] {
      FlagCleans(FRESH, []);
      assert [] + [FRAME] == [FRAME];
    } else {
      var init, x := xs[..|xs| - 1], xs[|xs| - 1];
      SharedFlagRoundTrip(init);
      BodyAndFlag(x);
      RunConcat(FRESH, EncodeShared(init), Stuff(x) + [FRAME]);
    }
  }

  lemma {:induction false} DropEmptyKeepsAll(xs: seq<Bytes>)
    requires forall k :: 0 <= k < |xs| ==> xs[k] != []
    ensures DropEmpty(xs) == xs
  {
    if xs != [] {
      DropEmptyKeepsAll(xs[..|xs| - 1]);
    }
  }

  /** Different byte strings have different frames. */
  lemma {:induction false} EncodeInjective(x: Bytes, y: Bytes)
    requires Encode(x) == Encode(y)
    ensures x == y
  {
    EncodedFrame(FRESH, x);
    EncodedFrame(FRESH, y);
    hide Encode, Frames;
    assert Unfinished(FRESH) + NonEmpty(x) == NonEmpty(x);
    assert Unfinished(FRESH) + NonEmpty(y) == NonEmpty(y);
    assert x != [] ==> NonEmpty(x)[0] == x;
    assert y != [] ==> NonEmpty(y)[0] == y;
  }
}
