/** What every sequence of WriteChunk and CloseBlock calls publishes, whichever publishes fail. */
module StreamRuns {
  import opened Options
  import opened Seqs
  import opened Streams

  datatype Op = WriteOp(chunk: string) | CloseOp

  ghost function Step(s: Streamer, op: Op): (Streamer, bool) {
    match op
    case WriteOp(chunk) => Write(s, chunk)
    case CloseOp => Close(s)
  }

  /** The streamer after the calls, and whether each call returned nil. */
  ghost function Run(s: Streamer, ops: seq<Op>): (r: (Streamer, seq<bool>))
    ensures |r.1| == |ops|
  {
    if ops == [] then (s, [])
    else
      var (s1, oks) := Run(s, ops[..|ops| - 1]);
      var (s2, ok) := Step(s1, ops[|ops| - 1]);
      (s2, oks + [ok])
  }

  function New(publisher: Option<Wire>, startIndex: int): Streamer {
    Streamer(publisher, "", startIndex, false)
  }

  /** Any calls on a new streamer leave it as the run says and return what the run says. */
  method Replay(publisher: Publisher?, startIndex: int, ops: seq<Op>) returns (t: TextStreamer, oks: seq<bool>)
    modifies publisher
    ensures fresh(t) && t.publisher == publisher
    ensures (t.View(), oks) ==
            Run(New(if publisher == null then None else Some(old(publisher.View())), startIndex), ops)
  {
    ghost var start := New(if publisher == null then None else Some(publisher.View()), startIndex);
    t := new TextStreamer(publisher, startIndex);
    oks := [];
    for i := 0 to |ops|
      invariant fresh(t) && t.publisher == publisher
      invariant (t.View(), oks) == Run(start, ops[..i])
    {
      assert ops[..i + 1][..i] == ops[..i] && ops[..i + 1][i] == ops[i];
      var ok;
      match ops[i] {
        case WriteOp(chunk) => ok := t.WriteChunk(chunk);
        case CloseOp => ok := t.CloseBlock();
      }
      oks := oks + [ok];
    }
    assert ops[..|ops|] == ops;
  }

  // ----- blocks

  function Deltas(index: int, chunks: seq<string>): seq<Event> {
    if chunks == [] then []
    else Deltas(index, chunks[..|chunks| - 1]) + [BlockDelta(index, TextDelta(chunks[|chunks| - 1]))]
  }

  /** Start(i) Delta(i)* Stop(i) for i = start, start + 1, ...; the last block lacks its Stop if it is
      still open. */
  function Render(start: int, blocks: seq<seq<string>>, isOpen: bool): seq<Event> {
    if blocks == [] then []
    else
      var n := |blocks| - 1;
      Render(start, blocks[..n], false) + [BlockStart(start + n, TextBlock)] + Deltas(start + n, blocks[n])
      + if isOpen then [] else [BlockStop(start + n)]
  }

  /** Concatenation of strings. */
  function Join(chunks: seq<string>): string {
    if chunks == [] then "" else Join(chunks[..|chunks| - 1]) + chunks[|chunks| - 1]
  }

  function JoinBlocks(blocks: seq<seq<string>>): string {
    if blocks == [] then "" else JoinBlocks(blocks[..|blocks| - 1]) + Join(blocks[|blocks| - 1])
  }

  /** The chunks of the blocks in order. */
  function Flatten(blocks: seq<seq<string>>): seq<string> {
    if blocks == [] then [] else Flatten(blocks[..|blocks| - 1]) + blocks[|blocks| - 1]
  }

  /** All text written, and the text of the calls that returned nil. */
  function Written(ops: seq<Op>): string {
    if ops == [] then ""
    else Written(ops[..|ops| - 1]) + if ops[|ops| - 1].WriteOp? then ops[|ops| - 1].chunk else ""
  }

  function Accepted(ops: seq<Op>, oks: seq<bool>): string
    requires |ops| == |oks|
  {
    if ops == [] then ""
    else
      var n := |ops| - 1;
      Accepted(ops[..n], oks[..n]) + if ops[n].WriteOp? && oks[n] then ops[n].chunk else ""
  }

  /** The chunks, empty ones aside, of the calls that returned nil. */
  function AcceptedChunks(ops: seq<Op>, oks: seq<bool>): seq<string>
    requires |ops| == |oks|
  {
    if ops == [] then []
    else
      var n := |ops| - 1;
      AcceptedChunks(ops[..n], oks[..n])
      + if ops[n].WriteOp? && oks[n] && ops[n].chunk != "" then [ops[n].chunk] else []
  }

  // ----- one event more

  lemma NothingBehind<T>(a: seq<T>)
    ensures a + [] == a
  {
  }

  /** Render of an open last block. */
  lemma RenderOpen(start: int, blocks: seq<seq<string>>, last: seq<string>)
    ensures Render(start, blocks + [last], true)
            == Render(start, blocks, false) + [BlockStart(start + |blocks|, TextBlock)] + Deltas(start + |blocks|, last)
    ensures JoinBlocks(blocks + [last]) == JoinBlocks(blocks) + Join(last)
  {
    var index := start + |blocks|;
    assert (blocks + [last])[..|blocks|] == blocks;
    NothingBehind(Render(start, blocks, false) + [BlockStart(index, TextBlock)] + Deltas(index, last));
  }

  lemma RenderStart(start: int, blocks: seq<seq<string>>)
    ensures Render(start, blocks + [[]], true)
            == Render(start, blocks, false) + [BlockStart(start + |blocks|, TextBlock)]
    ensures JoinBlocks(blocks + [[]]) == JoinBlocks(blocks)
  {
    RenderOpen(start, blocks, []);
    NothingBehind(Render(start, blocks, false) + [BlockStart(start + |blocks|, TextBlock)]);
    NothingBehind(JoinBlocks(blocks));
  }

  lemma DeltasPush(index: int, chunks: seq<string>, chunk: string)
    ensures Deltas(index, chunks + [chunk]) == Deltas(index, chunks) + [BlockDelta(index, TextDelta(chunk))]
    ensures Join(chunks + [chunk]) == Join(chunks) + chunk
  {
    assert (chunks + [chunk])[..|chunks|] == chunks;
  }

  lemma RenderDelta(start: int, blocks: seq<seq<string>>, last: seq<string>, chunk: string)
    ensures Render(start, blocks + [last + [chunk]], true)
            == Render(start, blocks + [last], true) + [BlockDelta(start + |blocks|, TextDelta(chunk))]
    ensures JoinBlocks(blocks + [last + [chunk]]) == JoinBlocks(blocks + [last]) + chunk
  {
    var index := start + |blocks|;
    RenderOpen(start, blocks, last);
    RenderOpen(start, blocks, last + [chunk]);
    DeltasPush(index, last, chunk);
    var delta := BlockDelta(index, TextDelta(chunk));
    Assoc(Render(start, blocks, false) + [BlockStart(index, TextBlock)], Deltas(index, last), [delta]);
    Assoc(JoinBlocks(blocks), Join(last), chunk);
  }

  lemma RenderStop(start: int, blocks: seq<seq<string>>)
    requires blocks != []
    ensures Render(start, blocks, false) == Render(start, blocks, true) + [BlockStop(start + |blocks| - 1)]
  {
    var n := |blocks| - 1;
    var index := start + n;
    NothingBehind(Render(start, blocks[..n], false) + [BlockStart(index, TextBlock)] + Deltas(index, blocks[n]));
  }

  // ----- every run

  /** `blocks` is what the streamer has published behind `before`. */
  ghost predicate Publishes(s: Streamer, before: seq<Event>, start: int, blocks: seq<seq<string>>) {
    && s.publisher.Some?
    && s.publisher.value.topic == before + Render(start, blocks, s.started)
    && s.index == start + |blocks| - (if s.started then 1 else 0)
    && (s.started ==> blocks != [])
  }

  lemma FlattenPush(front: seq<seq<string>>, last: seq<string>)
    ensures Flatten(front + [last]) == Flatten(front) + last
  {
    assert (front + [last])[..|front|] == front;
  }

  lemma OpenBlock(s: Streamer, before: seq<Event>, start: int, blocks: seq<seq<string>>, w: Wire)
    requires Publishes(s, before, start, blocks) && !s.started
    requires Send(s.publisher.value, BlockStart(s.index, TextBlock)) == (w, true)
    ensures Publishes(s.(publisher := Some(w), started := true), before, start, blocks + [[]])
    ensures JoinBlocks(blocks + [[]]) == JoinBlocks(blocks) && Flatten(blocks + [[]]) == Flatten(blocks)
  {
    RenderStart(start, blocks);
    FlattenPush(blocks, []);
    NothingBehind(Flatten(blocks));
    Assoc(before, Render(start, blocks, false), [BlockStart(s.index, TextBlock)]);
  }

  lemma AddDelta(s: Streamer, before: seq<Event>, start: int, front: seq<seq<string>>, last: seq<string>,
                 chunk: string, w: Wire)
    requires Publishes(s, before, start, front + [last]) && s.started
    requires Send(s.publisher.value, BlockDelta(s.index, TextDelta(chunk))) == (w, true)
    ensures Publishes(s.(publisher := Some(w)), before, start, front + [last + [chunk]])
    ensures JoinBlocks(front + [last + [chunk]]) == JoinBlocks(front + [last]) + chunk
    ensures Flatten(front + [last + [chunk]]) == Flatten(front + [last]) + [chunk]
  {
    RenderDelta(start, front, last, chunk);
    FlattenPush(front, last);
    FlattenPush(front, last + [chunk]);
    Assoc(Flatten(front), last, [chunk]);
    Assoc(before, Render(start, front + [last], true), [BlockDelta(s.index, TextDelta(chunk))]);
  }

  lemma SplitLast<T>(xs: seq<T>)
    requires xs != []
    ensures xs == xs[..|xs| - 1] + [xs[|xs| - 1]]
  {
  }

  lemma WriteTrace(s: Streamer, before: seq<Event>, start: int, blocks: seq<seq<string>>, chunk: string)
    returns (more: seq<seq<string>>)
    requires Publishes(s, before, start, blocks)
    ensures Publishes(Write(s, chunk).0, before, start, more)
    ensures JoinBlocks(more) == JoinBlocks(blocks) + if Write(s, chunk).1 then chunk else ""
    ensures Flatten(more) == Flatten(blocks) + if Write(s, chunk).1 && chunk != "" then [chunk] else []
  {
    more := blocks;
    NothingBehind(Flatten(blocks));
    if chunk != "" {
      var s1 := s;
      var ok := true;
      if !s.started {
        var (w, ok1) := Send(s.publisher.value, BlockStart(s.index, TextBlock));
        ok := ok1;
        if ok {
          OpenBlock(s, before, start, blocks, w);
          more := blocks + [[]];
          s1 := s.(publisher := Some(w), started := true);
        }
      }
      if ok {
        var (w, ok2) := Send(s1.publisher.value, BlockDelta(s1.index, TextDelta(chunk)));
        if ok2 {
          SplitLast(more);
          var front, last := more[..|more| - 1], more[|more| - 1];
          AddDelta(s1, before, start, front, last, chunk, w);
          more := front + [last + [chunk]];
        }
      }
    }
  }

  lemma CloseTrace(s: Streamer, before: seq<Event>, start: int, blocks: seq<seq<string>>)
    requires Publishes(s, before, start, blocks)
    ensures Publishes(Close(s).0, before, start, blocks)
  {
    if s.started {
      RenderStop(start, blocks);
      Assoc(before, Render(start, blocks, true), [BlockStop(s.index)]);
    }
  }

  /** Whatever fails, the events published are whole text blocks numbered from the start index, the
      last one perhaps open; blockStarted says whether it is; BlockIndex counts the closed ones; the
      deltas are the non-empty chunks of the successful calls, one each and in order; and Text is all
      text written. */
  lemma {:induction false} TraceIsBlocks(w: Wire, start: int, ops: seq<Op>) returns (blocks: seq<seq<string>>)
    ensures var (s, oks) := Run(New(Some(w), start), ops);
            && Publishes(s, w.topic, start, blocks)
            && JoinBlocks(blocks) == Accepted(ops, oks)
            && Flatten(blocks) == AcceptedChunks(ops, oks)
            && s.text == Written(ops)
  {
    blocks := [];
    if ops != [] {
      var n := |ops| - 1;
      blocks := TraceIsBlocks(w, start, ops[..n]);
      var (s, oks) := Run(New(Some(w), start), ops[..n]);
      var all := Run(New(Some(w), start), ops).1;
      assert all[..n] == oks;
      if ops[n].WriteOp? {
        blocks := WriteTrace(s, w.topic, start, blocks, ops[n].chunk);
      } else {
        CloseTrace(s, w.topic, start, blocks);
        NothingBehind(Flatten(blocks));
      }
    }
  }

  /** A call that returns nil has done its work: a written chunk leaves the block open, a close leaves none
      open, and the empty chunk changes nothing. A close that fails leaves everything but the count of
      publish calls as it was. */
  lemma CallsTakeEffect(w: Wire, start: int, ops: seq<Op>, op: Op)
    ensures var (s, oks) := Run(New(Some(w), start), ops);
            var (s', ok) := Step(s, op);
            && (op.CloseOp? && ok ==> !s'.started && s'.index == s.index + if s.started then 1 else 0)
            && (op.CloseOp? && !ok ==> s'.(publisher := s.publisher) == s && s.started
                                       && s'.publisher.value.topic == s.publisher.value.topic)
            && (op.WriteOp? && op.chunk != "" && ok ==> s'.started)
            && (op.WriteOp? && op.chunk == "" ==> s' == s && ok)
            && (op.WriteOp? ==> s'.index == s.index)
  {
    var blocks := TraceIsBlocks(w, start, ops);
  }

  // ----- a wire without failures

  /** The chunks between closes, empty ones aside, and whether the last block is still open. */
  function Sessions(ops: seq<Op>): (r: (seq<seq<string>>, bool))
    ensures r.1 ==> r.0 != []
  {
    if ops == [] then ([], false)
    else
      var (blocks, isOpen) := Sessions(ops[..|ops| - 1]);
      match ops[|ops| - 1]
      case CloseOp => (blocks, false)
      case WriteOp(chunk) =>
        if chunk == "" then (blocks, isOpen)
        else if isOpen then (blocks[..|blocks| - 1] + [blocks[|blocks| - 1] + [chunk]], true)
        else (blocks + [[chunk]], true)
  }

  lemma HealthyWrite(s: Streamer, before: seq<Event>, start: int, blocks: seq<seq<string>>, chunk: string)
    requires Publishes(s, before, start, blocks) && chunk != "" && forall k :: !s.publisher.value.fails(k)
    ensures var more := if s.started then blocks[..|blocks| - 1] + [blocks[|blocks| - 1] + [chunk]]
                        else blocks + [[chunk]];
            Write(s, chunk).0.started && Publishes(Write(s, chunk).0, before, start, more)
  {
    if s.started {
      var front, last := blocks[..|blocks| - 1], blocks[|blocks| - 1];
      SplitLast(blocks);
      AddDelta(s, before, start, front, last, chunk, Send(s.publisher.value, BlockDelta(s.index, TextDelta(chunk))).0);
    } else {
      var w := Send(s.publisher.value, BlockStart(s.index, TextBlock)).0;
      OpenBlock(s, before, start, blocks, w);
      var s1 := s.(publisher := Some(w), started := true);
      AddDelta(s1, before, start, blocks, [], chunk, Send(w, BlockDelta(s.index, TextDelta(chunk))).0);
      assert [] + [chunk] == [chunk];
    }
  }

  /** If no publish fails, the topic gains exactly the blocks that the closes mark off. */
  lemma {:induction false} HealthyTrace(w: Wire, start: int, ops: seq<Op>)
    requires forall k :: !w.fails(k)
    ensures var s := Run(New(Some(w), start), ops).0;
            && s.started == Sessions(ops).1 && s.publisher.Some? && s.publisher.value.fails == w.fails
            && Publishes(s, w.topic, start, Sessions(ops).0)
  {
    if ops != [] {
      var n := |ops| - 1;
      HealthyTrace(w, start, ops[..n]);
      var s := Run(New(Some(w), start), ops[..n]).0;
      if ops[n].CloseOp? {
        CloseTrace(s, w.topic, start, Sessions(ops[..n]).0);
      } else if ops[n].chunk != "" {
        HealthyWrite(s, w.topic, start, Sessions(ops[..n]).0, ops[n].chunk);
      }
    }
  }

  // ----- counting

  function Starts(es: seq<Event>): nat {
    if es == [] then 0 else Starts(es[..|es| - 1]) + if es[|es| - 1].BlockStart? then 1 else 0
  }

  function Stops(es: seq<Event>): nat {
    if es == [] then 0 else Stops(es[..|es| - 1]) + if es[|es| - 1].BlockStop? then 1 else 0
  }

  lemma CountPush(es: seq<Event>, e: Event)
    ensures Starts(es + [e]) == Starts(es) + if e.BlockStart? then 1 else 0
    ensures Stops(es + [e]) == Stops(es) + if e.BlockStop? then 1 else 0
  {
    assert (es + [e])[..|es|] == es;
  }

  lemma {:induction false} CountDeltas(es: seq<Event>, index: int, chunks: seq<string>)
    ensures Starts(es + Deltas(index, chunks)) == Starts(es) && Stops(es + Deltas(index, chunks)) == Stops(es)
  {
    if chunks == [] {
      assert es + [] == es;
    } else {
      var n := |chunks| - 1;
      CountDeltas(es, index, chunks[..n]);
      var e := BlockDelta(index, TextDelta(chunks[n]));
      CountPush(es + Deltas(index, chunks[..n]), e);
      assert es + Deltas(index, chunks) == es + Deltas(index, chunks[..n]) + [e];
    }
  }

  lemma CountBlock(es: seq<Event>, index: int, chunks: seq<string>, isOpen: bool)
    ensures var es' := es + [BlockStart(index, TextBlock)] + Deltas(index, chunks)
                       + if isOpen then [] else [BlockStop(index)];
            Starts(es') == Starts(es) + 1 && Stops(es') == Stops(es) + if isOpen then 0 else 1
  {
    var es1 := es + [BlockStart(index, TextBlock)];
    var es2 := es1 + Deltas(index, chunks);
    CountPush(es, BlockStart(index, TextBlock));
    CountDeltas(es1, index, chunks);
    if isOpen {
      assert es2 + [] == es2;
    } else {
      CountPush(es2, BlockStop(index));
    }
  }

  /** One Start per block, and one Stop per closed block. */
  lemma {:induction false} CountBlocks(start: int, blocks: seq<seq<string>>, isOpen: bool)
    requires isOpen ==> blocks != []
    ensures Starts(Render(start, blocks, isOpen)) == |blocks|
    ensures Stops(Render(start, blocks, isOpen)) == |blocks| - if isOpen then 1 else 0
  {
    if blocks != [] {
      var n := |blocks| - 1;
      CountBlocks(start, blocks[..n], false);
      CountBlock(Render(start, blocks[..n], false), start + n, blocks[n], isOpen);
    }
  }

  /** Starts minus Stops tells whether a block is open, and Stops is how far BlockIndex has moved. */
  lemma TraceCounts(w: Wire, start: int, ops: seq<Op>)
    ensures var s := Run(New(Some(w), start), ops).0;
            && s.publisher.Some? && w.topic <= s.publisher.value.topic
            && var es := s.publisher.value.topic[|w.topic|..];
               && Starts(es) - Stops(es) == (if s.started then 1 else 0)
               && Stops(es) == s.index - start
  {
    var blocks := TraceIsBlocks(w, start, ops);
    var s := Run(New(Some(w), start), ops).0;
    assert s.publisher.value.topic[|w.topic|..] == Render(start, blocks, s.started);
    CountBlocks(start, blocks, s.started);
  }

  // ----- what failures cost

  lemma WriteFailsOnlyWithText(s: Streamer, chunk: string)
    requires !Write(s, chunk).1
    ensures chunk != ""
  {
  }

  lemma {:induction false} AcceptedLength(w: Wire, start: int, ops: seq<Op>)
    ensures var oks := Run(New(Some(w), start), ops).1;
            && |Accepted(ops, oks)| <= |Written(ops)|
            && ((exists i :: 0 <= i < |ops| && ops[i].WriteOp? && !oks[i]) ==> |Accepted(ops, oks)| < |Written(ops)|)
            && ((forall i :: 0 <= i < |ops| && ops[i].WriteOp? ==> oks[i]) ==> Accepted(ops, oks) == Written(ops))
  {
    if ops != [] {
      var n := |ops| - 1;
      AcceptedLength(w, start, ops[..n]);
      var (s, oks) := Run(New(Some(w), start), ops[..n]);
      var all := Run(New(Some(w), start), ops).1;
      assert all[..n] == oks;
      assert forall i :: 0 <= i < n ==> all[i] == oks[i] && ops[..n][i] == ops[i];
      if ops[n].WriteOp? && !all[n] {
        WriteFailsOnlyWithText(s, ops[n].chunk);
      }
    }
  }

  /** The text carried by the delta events. */
  function DeltaText(es: seq<Event>): string {
    if es == [] then ""
    else
      var e := es[|es| - 1];
      DeltaText(es[..|es| - 1]) + if e.BlockDelta? && e.delta.TextDelta? then e.delta.text else ""
  }

  lemma DeltaTextPush(es: seq<Event>, e: Event)
    ensures DeltaText(es + [e]) == DeltaText(es) + if e.BlockDelta? && e.delta.TextDelta? then e.delta.text else ""
  {
    assert (es + [e])[..|es|] == es;
  }

  lemma {:induction false} DeltaTextOfDeltas(es: seq<Event>, index: int, chunks: seq<string>)
    ensures DeltaText(es + Deltas(index, chunks)) == DeltaText(es) + Join(chunks)
  {
    if chunks == [] {
      NothingBehind(es);
      NothingBehind(DeltaText(es));
    } else {
      var n := |chunks| - 1;
      var e := BlockDelta(index, TextDelta(chunks[n]));
      DeltaTextOfDeltas(es, index, chunks[..n]);
      Assoc(es, Deltas(index, chunks[..n]), [e]);
      DeltaTextPush(es + Deltas(index, chunks[..n]), e);
      Assoc(DeltaText(es), Join(chunks[..n]), chunks[n]);
    }
  }

  /** The delta events of whole blocks carry the chunks of the blocks. */
  lemma {:induction false} DeltaTextOfBlocks(start: int, blocks: seq<seq<string>>, isOpen: bool)
    ensures DeltaText(Render(start, blocks, isOpen)) == JoinBlocks(blocks)
  {
    if blocks != [] {
      var n := |blocks| - 1;
      var front, last := blocks[..n], blocks[n];
      DeltaTextOfBlocks(start, front, false);
      DeltaTextOfBlock(Render(start, front, false), start + n, last, isOpen);
      assert JoinBlocks(blocks) == JoinBlocks(front) + Join(last);
    }
  }

  lemma DeltaTextOfBlock(es: seq<Event>, index: int, chunks: seq<string>, isOpen: bool)
    ensures DeltaText(es + [BlockStart(index, TextBlock)] + Deltas(index, chunks)
                      + if isOpen then [] else [BlockStop(index)])
            == DeltaText(es) + Join(chunks)
  {
    var es1 := es + [BlockStart(index, TextBlock)];
    var es2 := es1 + Deltas(index, chunks);
    DeltaTextPush(es, BlockStart(index, TextBlock));
    NothingBehind(DeltaText(es));
    DeltaTextOfDeltas(es1, index, chunks);
    if isOpen {
      NothingBehind(es2);
    } else {
      DeltaTextPush(es2, BlockStop(index));
      NothingBehind(DeltaText(es2));
    }
  }

  /** What the topic has gained since `before`. */
  function Gained(s: Streamer, before: seq<Event>): seq<Event>
    requires s.publisher.Some? && before <= s.publisher.value.topic
  {
    s.publisher.value.topic[|before|..]
  }

  /** The delta text on the topic is that of the calls that returned nil. */
  lemma PublishedTextIsAccepted(w: Wire, start: int, ops: seq<Op>)
    ensures var (s, oks) := Run(New(Some(w), start), ops);
            && s.publisher.Some? && w.topic <= s.publisher.value.topic
            && DeltaText(Gained(s, w.topic)) == Accepted(ops, oks)
  {
    var blocks := TraceIsBlocks(w, start, ops);
    var s := Run(New(Some(w), start), ops).0;
    assert Gained(s, w.topic) == Render(start, blocks, s.started);
    DeltaTextOfBlocks(start, blocks, s.started);
  }

  /** The delta text on the topic is all of Text exactly when no WriteChunk failed. */
  lemma PublishedTextIsTextExactly(w: Wire, start: int, ops: seq<Op>)
    ensures var (s, oks) := Run(New(Some(w), start), ops);
            && s.publisher.Some? && w.topic <= s.publisher.value.topic
            && (DeltaText(Gained(s, w.topic)) == s.text <==> forall i :: 0 <= i < |ops| && ops[i].WriteOp? ==> oks[i])
  {
    var blocks := TraceIsBlocks(w, start, ops);
    PublishedTextIsAccepted(w, start, ops);
    AcceptedLength(w, start, ops);
  }

  lemma {:induction false} HealthyWire(w: Wire, start: int, ops: seq<Op>)
    requires forall k :: !w.fails(k)
    ensures var (s, oks) := Run(New(Some(w), start), ops);
            s.publisher.Some? && s.publisher.value.fails == w.fails && forall i :: 0 <= i < |oks| ==> oks[i]
  {
    if ops != [] {
      HealthyWire(w, start, ops[..|ops| - 1]);
    }
  }

  /** Without a publisher no block ever opens, every call succeeds and Text is all text written. */
  lemma {:induction false} SilentStreamer(start: int, ops: seq<Op>)
    ensures var (s, oks) := Run(New(None, start), ops);
            s == Streamer(None, Written(ops), start, false) && forall i :: 0 <= i < |oks| ==> oks[i]
  {
    if ops != [] {
      SilentStreamer(start, ops[..|ops| - 1]);
    }
  }
}
