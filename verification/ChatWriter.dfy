/**
 * The chat delta writer (src/ws_chat_writer.go): an event stream is cut into lines as it arrives,
 * and the text deltas they carry are forwarded in order.
 */
module ChatWriter {
  import opened Common
  import opened Splitting

  const NEWLINE := "\n"
  const DATA := "data: "

  /** JSON is not interpreted: the delta texts of a stream chunk, and the text of a whole response. */
  datatype Json = Json(deltas: Bytes -> seq<Bytes>, text: Bytes -> Bytes)

  function TrimReturns(line: Bytes): Bytes
  {
    if line != "" && line[|line| - 1] == '\r' then TrimReturns(line[..|line| - 1]) else line
  }

  function NonEmpty(texts: seq<Bytes>): seq<Bytes>
  {
    if texts == [] then []
    else NonEmpty(texts[..|texts| - 1]) + if texts[|texts| - 1] == "" then [] else [texts[|texts| - 1]]
  }

  /** handleSSELine. */
  function LineDeltas(json: Json, line: Bytes): seq<Bytes>
  {
    if !(DATA <= line) || line == DATA || line == DATA + "[DONE]" then [] else NonEmpty(json.deltas(line[|DATA|..]))
  }

  /** The batch specification: the deltas of complete lines, in order. */
  function Deltas(json: Json, lines: seq<Bytes>): seq<Bytes>
  {
    if lines == [] then []
    else Deltas(json, lines[..|lines| - 1]) + LineDeltas(json, TrimReturns(lines[|lines| - 1]))
  }

  datatype Chat = Chat(status: int, sawStream: bool, pending: Bytes, whole: Bytes)

  const FRESH_CHAT := Chat(0, false, "", "")

  /** A write, and whether the Content-Type header names an event stream at that moment. */
  datatype Chunk = Chunk(eventStream: bool, data: Bytes)

  function AfterWrite(json: Json, chat: Chat, chunk: Chunk): (Chat, seq<Bytes>)
  {
    var status := if chat.status == 0 then 200 else chat.status;
    if chunk.eventStream then
      var split := SplitAt(chat.pending + chunk.data, NEWLINE);
      (Chat(status, true, split.rest, chat.whole), Deltas(json, split.pieces))
    else (Chat(status, chat.sawStream, chat.pending, chat.whole + chunk.data), [])
  }

  function Ran(json: Json, chunks: seq<Chunk>): (Chat, seq<Bytes>)
  {
    if chunks == [] then (FRESH_CHAT, [])
    else
      var (chat, deltas) := Ran(json, chunks[..|chunks| - 1]);
      var (next, more) := AfterWrite(json, chat, chunks[|chunks| - 1]);
      (next, deltas + more)
  }

  /** The bytes written while the header named an event stream, or while it did not. */
  function Bytestream(chunks: seq<Chunk>, eventStream: bool): Bytes
  {
    if chunks == [] then ""
    else
      var last := chunks[|chunks| - 1];
      Bytestream(chunks[..|chunks| - 1], eventStream) + if last.eventStream == eventStream then last.data else ""
  }

  lemma {:induction false} DeltasAppend(json: Json, a: seq<Bytes>, b: seq<Bytes>)
    ensures Deltas(json, a + b) == Deltas(json, a) + Deltas(json, b)
  {
    hide LineDeltas, TrimReturns;
    if b == [] {
      assert a + b == a;
    } else {
      var init, last := b[..|b| - 1], b[|b| - 1];
      DeltasAppend(json, a, init);
      assert (a + b)[..|a + b| - 1] == a + init;
      assert Deltas(json, a + b) == Deltas(json, a + init) + LineDeltas(json, TrimReturns(last));
    }
  }

  /** However the stream is cut into writes, the deltas are those of its complete lines; bytes
      written under another content type are kept apart for Finish. */
  lemma {:induction false} DeltasAreBatch(json: Json, chunks: seq<Chunk>)
    ensures var (chat, deltas) := Ran(json, chunks);
            var split := SplitAt(Bytestream(chunks, true), NEWLINE);
            && deltas == Deltas(json, split.pieces) && chat.pending == split.rest
            && chat.whole == Bytestream(chunks, false)
            && (chat.sawStream <==> exists i :: 0 <= i < |chunks| && chunks[i].eventStream)
  {
    hide SplitAt, LineDeltas;
    if chunks == [] {
      SplitOnce("", NEWLINE);
    } else {
      var init, last := chunks[..|chunks| - 1], chunks[|chunks| - 1];
      DeltasAreBatch(json, init);
      var input := Bytestream(init, true);
      var split := SplitAt(input, NEWLINE);
      if last.eventStream {
        SplitAppend(input, last.data, NEWLINE);
        DeltasAppend(json, split.pieces, SplitAt(split.rest + last.data, NEWLINE).pieces);
      } else {
        assert Bytestream(chunks, true) == input;
        if i :| 0 <= i < |chunks| && chunks[i].eventStream {
          assert init[i].eventStream;
        }
      }
      assert forall i :: 0 <= i < |init| ==> init[i] == chunks[i];
    }
  }

  /** Line endings do not matter: a line terminated by CR LF carries the deltas of the same line
      terminated by LF. */
  lemma {:induction false} LineEndingsAgree(json: Json, lines: seq<Bytes>, line: Bytes)
    ensures Deltas(json, lines + [line + "\r"]) == Deltas(json, lines + [line])
  {
    assert (line + "\r")[..|line|] == line;
    assert (lines + [line + "\r"])[..|lines|] == lines == (lines + [line])[..|lines|];
  }

  class Writer {
    const json: Json
    var eventStream: bool
    var status: int
    var sawStream: bool
    var pending: Bytes
    var whole: Bytes
    var deltas: seq<Bytes>

    ghost function Value(): Chat
      reads this
    {
      Chat(status, sawStream, pending, whole)
    }

    constructor (json: Json)
      ensures this.json == json && Value() == FRESH_CHAT && deltas == []
    {
      this.json := json;
      eventStream, status, sawStream, pending, whole, deltas := false, 0, false, "", "", [];
    }

    method WriteHeader(code: int)
      modifies this`status
      ensures status == if old(status) == 0 then code else old(status)
    {
      if status == 0 {
        status := code;
      }
    }

    method Write(data: Bytes)
      modifies this
      ensures eventStream == old(eventStream) && status == if old(status) == 0 then 200 else old(status)
      ensures Value() == AfterWrite(json, old(Value()), Chunk(eventStream, data)).0
      ensures deltas == old(deltas) + AfterWrite(json, old(Value()), Chunk(eventStream, data)).1
    {
      hide SplitAt, Deltas;
      if status == 0 {
        status := 200;
      }
      if eventStream {
        sawStream := true;
        pending := pending + data;
        Drain();
        return;
      }
      whole := whole + data;
      assert deltas + [] == deltas;
    }

    /** drainSSELines. */
    method Drain()
      modifies this`pending, this`deltas
      ensures pending == SplitAt(old(pending), NEWLINE).rest
      ensures deltas == old(deltas) + Deltas(json, SplitAt(old(pending), NEWLINE).pieces)
    {
      hide SplitAt, Find, LineDeltas;
      ghost var lines: seq<Bytes> := [];
      assert lines + SplitAt(pending, NEWLINE).pieces == SplitAt(pending, NEWLINE).pieces;
      while true
        invariant SplitAt(old(pending), NEWLINE).pieces == lines + SplitAt(pending, NEWLINE).pieces
        invariant SplitAt(old(pending), NEWLINE).rest == SplitAt(pending, NEWLINE).rest
        invariant deltas == old(deltas) + Deltas(json, lines)
        decreases |pending|
      {
        SplitOnce(pending, NEWLINE);
        var newline := Find(pending, NEWLINE);
        if newline.None? {
          assert lines + [] == lines;
          return;
        }
        var line := pending[..newline.value];
        assert (lines + [line])[..|lines|] == lines;
        assert lines + ([line] + SplitAt(pending[newline.value + 1..], NEWLINE).pieces)
            == lines + [line] + SplitAt(pending[newline.value + 1..], NEWLINE).pieces;
        lines := lines + [line];
        pending := pending[newline.value + 1..];
        Handle(TrimReturns(line));
      }
    }

    /** handleSSELine. */
    method Handle(line: Bytes)
      modifies this`deltas
      ensures deltas == old(deltas) + LineDeltas(json, line)
    {
      assert DATA <= line ==> line == DATA + line[|DATA|..] && DATA + "" == DATA;
      if !(DATA <= line) || line[|DATA|..] == "" || line[|DATA|..] == "[DONE]" {
        assert deltas + [] == deltas;
        return;
      }
      var texts := json.deltas(line[|DATA|..]);
      for n := 0 to |texts|
        invariant deltas == old(deltas) + NonEmpty(texts[..n])
      {
        assert texts[..n + 1][..n] == texts[..n];
        if texts[n] != "" {
          deltas := deltas + [texts[n]];
        }
      }
      assert texts[..|texts|] == texts;
    }

    /** A response that was not a stream is delivered as one delta at the end. */
    method Finish() returns (text: Bytes)
      modifies this`deltas
      ensures text == if sawStream || whole == "" then "" else json.text(whole)
      ensures deltas == old(deltas) + if text == "" then [] else [text]
    {
      if sawStream || |whole| == 0 {
        return "";
      }
      text := json.text(whole);
      if text != "" {
        deltas := deltas + [text];
      }
    }
  }

  // ---------------------------------------------------------------- line by line

  /** `kept` stand in `texts` at the increasing positions `at`, which are all those of non-empty texts. */
  ghost predicate KeptAt(at: seq<nat>, kept: seq<Bytes>, texts: seq<Bytes>)
  {
    && |at| == |kept|
    && (forall i, j :: 0 <= i < j < |at| ==> at[i] < at[j])
    && (forall i :: 0 <= i < |at| ==> at[i] < |texts| && kept[i] == texts[at[i]])
    && (forall n: nat :: n < |texts| ==> (n in at <==> texts[n] != ""))
  }

  /** `kept` are the non-empty ones of `texts`, in order. */
  ghost predicate Keeps(kept: seq<Bytes>, texts: seq<Bytes>)
  {
    exists at :: KeptAt(at, kept, texts)
  }

  lemma KeptNext(at: seq<nat>, kept: seq<Bytes>, init: seq<Bytes>, last: Bytes)
    requires KeptAt(at, kept, init)
    ensures last == "" ==> KeptAt(at, kept, init + [last])
    ensures last != "" ==> KeptAt(at + [|init|], kept + [last], init + [last])
  {
    assert |init| !in at;
    var all := init + [last];
    assert all[|init|] == last && forall n :: 0 <= n < |init| ==> all[n] == init[n];
  }

  lemma NonEmptySnoc(init: seq<Bytes>, last: Bytes)
    ensures NonEmpty(init + [last]) == if last == "" then NonEmpty(init) else NonEmpty(init) + [last]
  {
    assert (init + [last])[..|init|] == init;
  }

  lemma {:induction false} NonEmptyKept(texts: seq<Bytes>) returns (at: seq<nat>)
    ensures KeptAt(at, NonEmpty(texts), texts)
  {
    if texts == [] {
      at := [];
    } else {
      hide KeptAt, NonEmpty;
      var init, last := texts[..|texts| - 1], texts[|texts| - 1];
      at := NonEmptyKept(init);
      assert texts == init + [last];
      NonEmptySnoc(init, last);
      KeptNext(at, NonEmpty(init), init, last);
      at := if last == "" then at else at + [|init|];
    }
  }

  /** What a line without its line ending contributes: a data line the non-empty texts of its payload, unless
      that is empty or marks the end; any other line nothing. */
  ghost predicate Contributes(json: Json, line: Bytes, texts: seq<Bytes>)
  {
    && (forall p :: line == "data: " + p && p != "" && p != "[DONE]" ==> Keeps(texts, json.deltas(p)))
    && ((forall p :: line == "data: " + p ==> p == "" || p == "[DONE]") ==> texts == [])
  }

  lemma LineContributes(json: Json, line: Bytes)
    ensures Contributes(json, line, LineDeltas(json, line))
  {
    forall p | line == "data: " + p ensures DATA <= line && p == line[|DATA|..] {
    }
    if DATA <= line {
      var p := line[|DATA|..];
      assert line == "data: " + p;
      assert line == DATA <==> p == "";
      assert line == DATA + "[DONE]" <==> p == "[DONE]";
      var at := NonEmptyKept(json.deltas(p));
      assert Keeps(NonEmpty(json.deltas(p)), json.deltas(p));
    }
  }

  lemma {:induction false} TrimsReturns(line: Bytes) returns (ending: Bytes)
    ensures line == TrimReturns(line) + ending && forall i :: 0 <= i < |ending| ==> ending[i] == '\r'
    ensures TrimReturns(line) != "" ==> TrimReturns(line)[|TrimReturns(line)| - 1] != '\r'
  {
    ending := "";
    if line != "" && line[|line| - 1] == '\r' {
      var rest := TrimsReturns(line[..|line| - 1]);
      ending := rest + [line[|line| - 1]];
      assert line == line[..|line| - 1] + [line[|line| - 1]];
    }
  }

  function Flat(parts: seq<seq<Bytes>>): seq<Bytes>
  {
    if parts == [] then [] else Flat(parts[..|parts| - 1]) + parts[|parts| - 1]
  }

  /** `parts` says, line by line, what each complete line contributes. */
  ghost predicate PartsOf(json: Json, lines: seq<Bytes>, parts: seq<seq<Bytes>>)
  {
    |parts| == |lines| && forall n :: 0 <= n < |lines| ==> Contributes(json, TrimReturns(lines[n]), parts[n])
  }

  lemma {:induction false} DeltasInParts(json: Json, lines: seq<Bytes>) returns (parts: seq<seq<Bytes>>)
    ensures PartsOf(json, lines, parts) && Deltas(json, lines) == Flat(parts)
  {
    hide Contributes, LineDeltas, TrimReturns;
    parts := [];
    if lines != [] {
      var init, last := lines[..|lines| - 1], lines[|lines| - 1];
      var before := DeltasInParts(json, init);
      LineContributes(json, TrimReturns(last));
      parts := before + [LineDeltas(json, TrimReturns(last))];
      assert parts[..|parts| - 1] == before;
      assert forall n :: 0 <= n < |init| ==> init[n] == lines[n] && parts[n] == before[n];
    }
  }

  /** For every way of cutting the stream, the deltas are what its complete lines contribute, one after the
      other. */
  lemma {:induction false} EveryLineContributes(json: Json, chunks: seq<Chunk>) returns (parts: seq<seq<Bytes>>)
    ensures PartsOf(json, SplitAt(Bytestream(chunks, true), NEWLINE).pieces, parts) && Ran(json, chunks).1 == Flat(parts)
  {
    DeltasAreBatch(json, chunks);
    hide Ran, Deltas, SplitAt, Bytestream;
    parts := DeltasInParts(json, SplitAt(Bytestream(chunks, true), NEWLINE).pieces);
  }
}
