/** The event streams of llm/mqsse: Publisher appends events to a topic, any publish may fail, and
    TextStreamer wraps text chunks into numbered content blocks. */
module Streams {
  import opened Options

  datatype Block = TextBlock | ToolUse(id: string, name: string) | ToolResult(toolUseID: string)

  datatype Delta = TextDelta(text: string) | InputJSON(partial: string) | ResultText(text: string)

  datatype Event =
    | MessageStart(id: string, conversationID: string, model: string)
    | Ping
    | BlockStart(index: int, block: Block)
    | BlockDelta(index: int, delta: Delta)
    | BlockStop(index: int)
    | MessageDelta(stopReason: string, outputTokens: int)
    | MessageStop

  const END_TURN := "end_turn"

  // ----- the topic

  /** The topic, and which of the publish calls fail. A failed call appends nothing. */
  datatype Wire = Wire(fails: nat -> bool, calls: nat, topic: seq<Event>)

  ghost function Send(w: Wire, e: Event): (r: (Wire, bool)) {
    if w.fails(w.calls) then (w.(calls := w.calls + 1), false)
    else (w.(calls := w.calls + 1, topic := w.topic + [e]), true)
  }

  /** Sends until one fails. */
  ghost function SendAll(w: Wire, es: seq<Event>): (r: (Wire, bool))
    decreases es
  {
    if es == [] then (w, true)
    else
      var (w', ok) := Send(w, es[0]);
      if ok then SendAll(w', es[1..]) else (w', false)
  }

  lemma SendAllTwo(w: Wire, a: Event, b: Event)
    ensures SendAll(w, [a, b]) == if Send(w, a).1 then Send(Send(w, a).0, b) else Send(w, a)
  {
    assert [a, b][1..] == [b];
    SendAllOne(Send(w, a).0, b);
  }

  lemma SendAllOne(w: Wire, a: Event)
    ensures SendAll(w, [a]) == Send(w, a)
  {
    assert SendAll(Send(w, a).0, []) == (Send(w, a).0, true);
  }

  lemma SendAllThree(w: Wire, a: Event, b: Event, c: Event)
    ensures SendAll(w, [a, b, c]) == if Send(w, a).1 then SendAll(Send(w, a).0, [b, c]) else Send(w, a)
  {
    assert [a, b, c][1..] == [b, c];
  }

  /** Success appends all of `es`; an error appends a strict prefix, up to the first call that fails. */
  lemma {:induction false} SendAllAppends(w: Wire, es: seq<Event>) returns (k: nat)
    ensures var (w', ok) := SendAll(w, es);
            && k <= |es| && w'.topic == w.topic + es[..k] && w'.fails == w.fails
            && (ok <==> k == |es|)
            && (forall j :: w.calls <= j < w.calls + k ==> !w.fails(j))
            && (!ok ==> w.fails(w.calls + k))
    decreases es
  {
    if es == [] {
      return 0;
    }
    var (w1, ok1) := Send(w, es[0]);
    if !ok1 {
      return 0;
    }
    var j := SendAllAppends(w1, es[1..]);
    assert es[..j + 1] == [es[0]] + es[1..][..j];
    return j + 1;
  }

  class Publisher {
    const fails: nat -> bool
    var calls: nat
    var topic: seq<Event>

    constructor (fails: nat -> bool)
      ensures View() == Wire(fails, 0, [])
    {
      this.fails := fails;
      calls, topic := 0, [];
    }

    ghost function View(): Wire
      reads this
    {
      Wire(fails, calls, topic)
    }

    method Publish(e: Event) returns (ok: bool)
      modifies this
      ensures (View(), ok) == Send(old(View()), e)
    {
      ok := !fails(calls);
      calls := calls + 1;
      if ok {
        topic := topic + [e];
      }
    }

    method SendMessageStart(msgID: string, conversationID: string, model: string) returns (ok: bool)
      modifies this
      ensures (View(), ok) == Send(old(View()), MessageStart(msgID, conversationID, model))
    {
      ok := Publish(MessageStart(msgID, conversationID, model));
    }

    method SendPing() returns (ok: bool)
      modifies this
      ensures (View(), ok) == Send(old(View()), Ping)
    {
      ok := Publish(Ping);
    }

    method SendContentBlockStartText(index: int) returns (ok: bool)
      modifies this
      ensures (View(), ok) == Send(old(View()), BlockStart(index, TextBlock))
    {
      ok := Publish(BlockStart(index, TextBlock));
    }

    method SendContentBlockDeltaText(index: int, text: string) returns (ok: bool)
      modifies this
      ensures (View(), ok) == Send(old(View()), BlockDelta(index, TextDelta(text)))
    {
      ok := Publish(BlockDelta(index, TextDelta(text)));
    }

    method SendContentBlockStop(index: int) returns (ok: bool)
      modifies this
      ensures (View(), ok) == Send(old(View()), BlockStop(index))
    {
      ok := Publish(BlockStop(index));
    }

    method SendMessageDelta(stopReason: string, outputTokens: int) returns (ok: bool)
      modifies this
      ensures (View(), ok) == Send(old(View()), MessageDelta(stopReason, outputTokens))
    {
      ok := Publish(MessageDelta(stopReason, outputTokens));
    }

    method SendMessageStop() returns (ok: bool)
      modifies this
      ensures (View(), ok) == Send(old(View()), MessageStop)
    {
      ok := Publish(MessageStop);
    }

    method SendToolUseStart(index: int, toolUseID: string, name: string) returns (ok: bool)
      modifies this
      ensures (View(), ok) == Send(old(View()), BlockStart(index, ToolUse(toolUseID, name)))
    {
      ok := Publish(BlockStart(index, ToolUse(toolUseID, name)));
    }

    method SendToolInputDelta(index: int, inputJSON: string) returns (ok: bool)
      modifies this
      ensures (View(), ok) == Send(old(View()), BlockDelta(index, InputJSON(inputJSON)))
    {
      ok := Publish(BlockDelta(index, InputJSON(inputJSON)));
    }

    method SendToolResultStart(index: int, toolUseID: string) returns (ok: bool)
      modifies this
      ensures (View(), ok) == Send(old(View()), BlockStart(index, ToolResult(toolUseID)))
    {
      ok := Publish(BlockStart(index, ToolResult(toolUseID)));
    }

    method SendToolResultDelta(index: int, text: string) returns (ok: bool)
      modifies this
      ensures (View(), ok) == Send(old(View()), BlockDelta(index, ResultText(text)))
    {
      ok := Publish(BlockDelta(index, ResultText(text)));
    }

    method SendStreamPreamble(msgID: string, conversationID: string, model: string) returns (ok: bool)
      modifies this
      ensures (View(), ok) == SendAll(old(View()), [MessageStart(msgID, conversationID, model), Ping])
    {
      SendAllTwo(View(), MessageStart(msgID, conversationID, model), Ping);
      ok := SendMessageStart(msgID, conversationID, model);
      if !ok {
        return;
      }
      ok := SendPing();
    }

    method SendStreamEpilogue(outputTokens: int) returns (ok: bool)
      modifies this
      ensures (View(), ok) == SendAll(old(View()), [MessageDelta("end_turn", outputTokens), MessageStop])
    {
      SendAllTwo(View(), MessageDelta(END_TURN, outputTokens), MessageStop);
      ok := SendMessageDelta(END_TURN, outputTokens);
      if !ok {
        return;
      }
      ok := SendMessageStop();
    }

    method SendToolUseBlock(index: int, toolUseID: string, name: string, inputJSON: string) returns (ok: bool)
      modifies this
      ensures (View(), ok) == SendAll(old(View()), [BlockStart(index, ToolUse(id := toolUseID, name := name)),
                                                    BlockDelta(index, InputJSON(inputJSON)), BlockStop(index)])
    {
      ghost var es := [BlockStart(index, ToolUse(toolUseID, name)), BlockDelta(index, InputJSON(inputJSON)),
                       BlockStop(index)];
      SendAllThree(View(), es[0], es[1], es[2]);
      SendAllTwo(Send(View(), es[0]).0, es[1], es[2]);
      ok := SendToolUseStart(index, toolUseID, name);
      if !ok {
        return;
      }
      ok := SendToolInputDelta(index, inputJSON);
      if !ok {
        return;
      }
      ok := SendContentBlockStop(index);
    }

    method SendToolResultBlock(index: int, toolUseID: string, resultText: string) returns (ok: bool)
      modifies this
      ensures (View(), ok) == SendAll(old(View()), [BlockStart(index, ToolResult(toolUseID)),
                                                    BlockDelta(index, ResultText(resultText)), BlockStop(index)])
    {
      ghost var es := [BlockStart(index, ToolResult(toolUseID)), BlockDelta(index, ResultText(resultText)),
                       BlockStop(index)];
      SendAllThree(View(), es[0], es[1], es[2]);
      SendAllTwo(Send(View(), es[0]).0, es[1], es[2]);
      ok := SendToolResultStart(index, toolUseID);
      if !ok {
        return;
      }
      ok := SendToolResultDelta(index, resultText);
      if !ok {
        return;
      }
      ok := SendContentBlockStop(index);
    }
  }

  // ----- the streamer

  datatype Streamer = Streamer(publisher: Option<Wire>, text: string, index: int, started: bool)

  ghost function Write(s: Streamer, chunk: string): (r: (Streamer, bool)) {
    if chunk == "" then (s, true)
    else
      var s1 := s.(text := s.text + chunk);
      if s.publisher.None? then (s1, true)
      else
        var (w, isOpen) := if s.started then (s.publisher.value, true)
                           else Send(s.publisher.value, BlockStart(s.index, TextBlock));
        if !isOpen then (s1.(publisher := Some(w)), false)
        else
          var (w', ok) := Send(w, BlockDelta(s.index, TextDelta(chunk)));
          (s1.(publisher := Some(w'), started := true), ok)
  }

  ghost function Close(s: Streamer): (r: (Streamer, bool)) {
    if !s.started then (s, true)
    else if s.publisher.None? then (s.(started := false, index := s.index + 1), true)
    else
      var (w, ok) := Send(s.publisher.value, BlockStop(s.index));
      if ok then (s.(publisher := Some(w), started := false, index := s.index + 1), true)
      else (s.(publisher := Some(w)), false)
  }

  class TextStreamer {
    const publisher: Publisher?
    var messageBuilder: string
    var blockIndex: int
    var blockStarted: bool

    constructor (publisher: Publisher?, startIndex: int)
      ensures this.publisher == publisher
      ensures View() == Streamer(if publisher == null then None else Some(publisher.View()), "", startIndex, false)
    {
      this.publisher := publisher;
      messageBuilder, blockIndex, blockStarted := "", startIndex, false;
    }

    ghost function View(): Streamer
      reads this, publisher
    {
      Streamer(if publisher == null then None else Some(publisher.View()), messageBuilder, blockIndex, blockStarted)
    }

    method WriteChunk(text: string) returns (ok: bool)
      modifies this, publisher
      ensures (View(), ok) == Write(old(View()), text)
    {
      if text == "" {
        return true;
      }
      messageBuilder := messageBuilder + text;
      if publisher == null {
        return true;
      }
      if !blockStarted {
        ok := publisher.SendContentBlockStartText(blockIndex);
        if !ok {
          return false;
        }
        blockStarted := true;
      }
      ok := publisher.SendContentBlockDeltaText(blockIndex, text);
    }

    method CloseBlock() returns (ok: bool)
      modifies this, publisher
      ensures (View(), ok) == Close(old(View()))
    {
      if !blockStarted {
        return true;
      }
      if publisher == null {
        blockStarted := false;
        blockIndex := blockIndex + 1;
        return true;
      }
      ok := publisher.SendContentBlockStop(blockIndex);
      if !ok {
        return false;
      }
      blockStarted := false;
      blockIndex := blockIndex + 1;
    }

    method Text() returns (text: string)
      ensures text == View().text
    {
      return messageBuilder;
    }
  }
}
