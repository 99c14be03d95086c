/**
 * The virtual-model response rewriter (src/virtual_model_response.go): a value for its buffers, a
 * function for each call, and the batch rewrite that every chunking must agree with.
 */
module VirtualResponse {
  import opened Common
  import opened Splitting

  const NEWLINE := "\n"
  const DATA := "data: "

  /** A status or a piece of body handed to the wrapped writer. */
  datatype Call = Header(status: int) | Body(data: Bytes)

  /** What a provider does with the writer it is given. */
  datatype Op = SetStatus(status: int) | Chunk(data: Bytes) | Flush

  datatype Virtual = Virtual(status: int, headersSent: bool, streaming: bool, body: Bytes, pending: Bytes)

  const FRESH_VIRTUAL := Virtual(0, false, false, "", "")

  function StatusOf(status: int): int
  {
    if status == 0 then 200 else status
  }

  /** rewriteSSEModelLine over an uninterpreted rewriteModelJSON. */
  function RewriteLine(json: Bytes -> Bytes, line: Bytes): Bytes
  {
    var trimmed := if line != "" && line[|line| - 1] == '\n' then line[..|line| - 1] else line;
    if DATA <= trimmed then DATA + json(trimmed[|DATA|..]) + NEWLINE else line
  }

  function LineCall(json: Bytes -> Bytes, line: Bytes): Call
  {
    Body(RewriteLine(json, line + NEWLINE))
  }

  function LineCalls(json: Bytes -> Bytes, lines: seq<Bytes>): seq<Call>
  {
    if lines == [] then []
    else LineCalls(json, lines[..|lines| - 1]) + [LineCall(json, lines[|lines| - 1])]
  }

  function AfterHeader(v: Virtual, code: int): Virtual
  {
    if v.headersSent then v else v.(headersSent := true, status := code)
  }

  /** writeStream: emit the complete lines, keep the rest. */
  function Streamed(json: Bytes -> Bytes, v: Virtual, data: Bytes): (Virtual, seq<Call>)
  {
    var split := SplitAt(v.pending + data, NEWLINE);
    (v.(pending := split.rest), LineCalls(json, split.pieces))
  }

  function AfterWrite(json: Bytes -> Bytes, v: Virtual, data: Bytes): (Virtual, seq<Call>)
  {
    if v.streaming then Streamed(json, v, data) else (v.(body := v.body + data), [])
  }

  function AfterFlush(json: Bytes -> Bytes, v: Virtual): (Virtual, seq<Call>)
  {
    if v.streaming then (v, [])
    else
      var (w, calls) := Streamed(json, v.(streaming := true, body := ""), v.body);
      (w, [Header(StatusOf(v.status))] + calls)
  }

  function AfterCommit(json: Bytes -> Bytes, v: Virtual): (Virtual, seq<Call>)
  {
    if !v.streaming then (v, [Header(StatusOf(v.status)), Body(json(v.body))])
    else if v.pending == "" then (v, [])
    else (v.(pending := ""), [Body(RewriteLine(json, v.pending))])
  }

  function AfterOp(json: Bytes -> Bytes, v: Virtual, op: Op): (Virtual, seq<Call>)
  {
    match op
    case SetStatus(code) => (AfterHeader(v, code), [])
    case Chunk(data) => AfterWrite(json, v, data)
    case Flush => AfterFlush(json, v)
  }

  /** The buffers and all calls so far, after a provider has done `ops`. */
  function Ran(json: Bytes -> Bytes, ops: seq<Op>): (Virtual, seq<Call>)
  {
    if ops == [] then (FRESH_VIRTUAL, [])
    else
      var (v, calls) := Ran(json, ops[..|ops| - 1]);
      var (w, more) := AfterOp(json, v, ops[|ops| - 1]);
      (w, calls + more)
  }

  /** Everything the wrapped writer receives, Commit included. */
  function Output(json: Bytes -> Bytes, ops: seq<Op>): seq<Call>
  {
    var (v, calls) := Ran(json, ops);
    calls + AfterCommit(json, v).1
  }

  // ---------------------------------------------------------------- the batch specification

  function Input(ops: seq<Op>): Bytes
  {
    if ops == [] then ""
    else Input(ops[..|ops| - 1]) + if ops[|ops| - 1].Chunk? then ops[|ops| - 1].data else ""
  }

  /** The status in force when headers go out: the first one set, if it came before any Flush. */
  function StatusFrom(ops: seq<Op>): int
  {
    if ops == [] || ops[0].Flush? then 200
    else if ops[0].SetStatus? then StatusOf(ops[0].status)
    else StatusFrom(ops[1..])
  }

  function Batch(json: Bytes -> Bytes, status: int, streaming: bool, input: Bytes): seq<Call>
  {
    if !streaming then [Header(status), Body(json(input))]
    else
      var split := SplitAt(input, NEWLINE);
      [Header(status)] + LineCalls(json, split.pieces)
      + if split.rest == "" then [] else [Body(RewriteLine(json, split.rest))]
  }

  lemma {:induction false} LineCallsAppend(json: Bytes -> Bytes, a: seq<Bytes>, b: seq<Bytes>)
    ensures LineCalls(json, a + b) == LineCalls(json, a) + LineCalls(json, b)
  {
    hide LineCall;
    if b == [] {
      assert a + b == a;
    } else {
      LineCallsAppend(json, a, b[..|b| - 1]);
      assert (a + b)[..|a + b| - 1] == a + b[..|b| - 1];
    }
  }

  lemma EmptyStream(json: Bytes -> Bytes, v: Virtual)
    requires Find(v.pending, NEWLINE).None?
    ensures Streamed(json, v, "") == (v, [])
  {
    assert v.pending + "" == v.pending;
  }

  /** The first status set, or 200 once headers are out; what StatusFrom computes from the front. */
  predicate StatusFits(v: Virtual, ops: seq<Op>)
  {
    && (v.headersSent <==> exists i :: 0 <= i < |ops| && ops[i].SetStatus?)
    && (Flush !in ops ==> StatusFrom(ops) == StatusOf(v.status) && (!v.headersSent ==> v.status == 0))
  }

  lemma {:induction false} StatusGrows(ops: seq<Op>, op: Op)
    ensures StatusFrom(ops + [op]) ==
              if Flush in ops || exists i :: 0 <= i < |ops| && ops[i].SetStatus? then StatusFrom(ops)
              else if op.SetStatus? then StatusOf(op.status) else 200
  {
    if ops != [] {
      assert (ops + [op])[1..] == ops[1..] + [op];
      if ops[0].Chunk? {
        StatusGrows(ops[1..], op);
        assert Flush in ops <==> Flush in ops[1..];
        assert (exists i :: 0 <= i < |ops| && ops[i].SetStatus?) <==> exists i :: 0 <= i < |ops[1..]| && ops[1..][i].SetStatus? by {
          if i :| 0 <= i < |ops| && ops[i].SetStatus? {
            assert ops[1..][i - 1] == ops[i];
          }
        }
      } else if ops[0].SetStatus? {
        assert exists i :: 0 <= i < |ops| && ops[i].SetStatus?;
      }
    }
  }

  /** The buffers and calls, in terms of the whole input. */
  ghost predicate Fits(json: Bytes -> Bytes, v: Virtual, calls: seq<Call>, input: Bytes, status: int)
  {
    var split := SplitAt(input, NEWLINE);
    if v.streaming then
      v.body == "" && v.pending == split.rest && calls == [Header(status)] + LineCalls(json, split.pieces)
    else
      v.body == input && v.pending == "" && calls == []
  }

  lemma ChunkFits(json: Bytes -> Bytes, v: Virtual, calls: seq<Call>, input: Bytes, status: int, data: Bytes)
    requires Fits(json, v, calls, input, status)
    ensures var (w, more) := AfterWrite(json, v, data); Fits(json, w, calls + more, input + data, status)
  {
    hide SplitAt, LineCalls;
    var split := SplitAt(input, NEWLINE);
    SplitAppend(input, data, NEWLINE);
    LineCallsAppend(json, split.pieces, SplitAt(split.rest + data, NEWLINE).pieces);
  }

  lemma FlushFits(json: Bytes -> Bytes, v: Virtual, calls: seq<Call>, input: Bytes, status: int)
    requires Fits(json, v, calls, input, status)
    requires !v.streaming ==> status == StatusOf(v.status)
    ensures var (w, more) := AfterFlush(json, v); Fits(json, w, calls + more, input, status)
  {
    hide SplitAt, LineCalls;
    assert "" + v.body == v.body;
    assert calls + [] == calls;
  }

  lemma StatusStep(v: Virtual, ops: seq<Op>, op: Op)
    requires StatusFits(v, ops)
    ensures StatusFits(if op.SetStatus? then AfterHeader(v, op.status) else v, ops + [op])
  {
    StatusGrows(ops, op);
    var more := ops + [op];
    assert more[|ops|] == op && more[..|ops|] == ops;
    assert (exists i :: 0 <= i < |more| && more[i].SetStatus?) <==>
           op.SetStatus? || exists i :: 0 <= i < |ops| && ops[i].SetStatus? by {
      if i :| 0 <= i < |ops| && ops[i].SetStatus? {
        assert more[i].SetStatus?;
      }
    }
  }

  lemma {:induction false} RanFollows(json: Bytes -> Bytes, ops: seq<Op>)
    ensures var (v, calls) := Ran(json, ops);
            StatusFits(v, ops) && (v.streaming <==> Flush in ops) && Fits(json, v, calls, Input(ops), StatusFrom(ops))
  {
    hide SplitAt, LineCalls, StatusFrom;
    if ops == [] {
      assert StatusFits(FRESH_VIRTUAL, []) by { NoOps(); }
    } else {
      var init, op := ops[..|ops| - 1], ops[|ops| - 1];
      assert ops == init + [op];
      RanFollows(json, init);
      var (v, calls) := Ran(json, init);
      StatusStep(v, init, op);
      StatusGrows(init, op);
      assert Input(ops) == if op.Chunk? then Input(init) + op.data else Input(init);
      match op
      case Chunk(data) => ChunkFits(json, v, calls, Input(init), StatusFrom(init), data);
      case Flush => FlushFits(json, v, calls, Input(init), StatusFrom(ops));
      case SetStatus(_) => assert calls + [] == calls && Input(init) + "" == Input(ops);
    }
  }

  lemma NoOps()
    ensures StatusFrom([]) == 200
  {
  }

  /** However a provider cuts its response into writes, the wrapped writer receives the batch
      rewrite of the whole: only the bytes, the status and whether anything was flushed matter. */
  lemma {:induction false} OutputIsBatch(json: Bytes -> Bytes, ops: seq<Op>)
    ensures Output(json, ops) == Batch(json, StatusFrom(ops), Flush in ops, Input(ops))
  {
    hide SplitAt, LineCalls, StatusFrom;
    RanFollows(json, ops);
  }

  // ---------------------------------------------------------------- line by line

  /** What goes out for a line without its newline: the payload of a data line is rewritten and the line
      terminated, anything else goes out as it came, with the newline it had. */
  ghost predicate SentFor(json: Bytes -> Bytes, line: Bytes, terminated: bool, sent: Call)
  {
    && (forall p :: line == "data: " + p ==> sent == Body("data: " + json(p) + "\n"))
    && ((forall p :: line != "data: " + p) ==> sent == Body(line + if terminated then "\n" else ""))
  }

  lemma SplitsData(line: Bytes)
    ensures DATA <= line ==> line == DATA + line[|DATA|..]
    ensures forall p :: line == DATA + p ==> DATA <= line && p == line[|DATA|..]
  {
  }

  lemma LineIsSent(json: Bytes -> Bytes, line: Bytes)
    ensures SentFor(json, line, true, LineCall(json, line))
    ensures (line != "" ==> line[|line| - 1] != '\n') ==> SentFor(json, line, false, Body(RewriteLine(json, line)))
  {
    assert (line + NEWLINE)[..|line|] == line;
    SplitsData(line);
    assert line + "" == line;
    if DATA <= line {
      assert line == "data: " + line[|DATA|..];
    }
  }

  lemma {:induction false} LineCallsAt(json: Bytes -> Bytes, lines: seq<Bytes>)
    ensures |LineCalls(json, lines)| == |lines|
    ensures forall n :: 0 <= n < |lines| ==> LineCalls(json, lines)[n] == LineCall(json, lines[n])
  {
    hide LineCall;
    if lines != [] {
      LineCallsAt(json, lines[..|lines| - 1]);
    }
  }

  /** For every rewriter and every flushed run: after the header, the n-th body is the n-th line of the input,
      with its payload rewritten if it is a data line and byte for byte otherwise; an unterminated last line
      follows in the same way, and nothing else does. */
  lemma {:induction false} EveryLineIsRewritten(json: Bytes -> Bytes, ops: seq<Op>)
    requires Flush in ops
    ensures var out, split := Output(json, ops), SplitAt(Input(ops), NEWLINE);
      && |out| == 1 + |split.pieces| + (if split.rest == "" then 0 else 1)
      && out[0] == Header(StatusFrom(ops))
      && (forall n :: 0 <= n < |split.pieces| ==> SentFor(json, split.pieces[n], true, out[n + 1]))
      && (split.rest != "" ==> SentFor(json, split.rest, false, out[|out| - 1]))
  {
    OutputIsBatch(json, ops);
    var split := SplitAt(Input(ops), NEWLINE);
    LineCallsAt(json, split.pieces);
    LinesAreLines(Input(ops));
    hide Output, SplitAt, LineCalls, RewriteLine, LineCall, SentFor, StatusFrom, Input;
    forall n | 0 <= n < |split.pieces| ensures SentFor(json, split.pieces[n], true, LineCall(json, split.pieces[n])) {
      LineIsSent(json, split.pieces[n]);
    }
    if split.rest != "" {
      LineIsSent(json, split.rest);
      assert split.rest[|split.rest| - 1] in split.rest;
    }
  }

  /** The lines, each with its newline. */
  function Lines(pieces: seq<Bytes>): Bytes
  {
    if pieces == [] then "" else pieces[0] + "\n" + Lines(pieces[1..])
  }

  lemma NoNewline(s: Bytes)
    ensures Find(s, NEWLINE).None? <==> '\n' !in s
    ensures Find(s, NEWLINE).Some? ==> '\n' !in s[..Find(s, NEWLINE).value]
  {
    FindIsFirst(s, NEWLINE, Find(s, NEWLINE));
    forall i: nat | i < |s| ensures MatchAt(s, NEWLINE, i) <==> s[i] == '\n' {
      assert s[i..i + 1] == [s[i]];
    }
    if Find(s, NEWLINE).Some? {
      var k := Find(s, NEWLINE).value;
      forall i: nat | i < k ensures s[..k][i] != '\n' {
        assert !MatchAt(s, NEWLINE, i);
      }
    }
  }

  lemma LinesCons(head: Bytes, pieces: seq<Bytes>, rest: Bytes)
    ensures Lines([head] + pieces) + rest == head + NEWLINE + (Lines(pieces) + rest)
  {
    assert ([head] + pieces)[1..] == pieces;
  }

  /** Joined again, the lines and what follows the last one are the input. */
  lemma {:induction false} LinesJoin(input: Bytes)
    ensures Lines(SplitAt(input, NEWLINE).pieces) + SplitAt(input, NEWLINE).rest == input
    decreases |input|
  {
    hide SplitAt, Find, Lines;
    SplitOnce(input, NEWLINE);
    if Find(input, NEWLINE).Some? {
      CutAtNewline(input);
      var i := Find(input, NEWLINE).value;
      var tail := SplitAt(input[i + 1..], NEWLINE);
      LinesJoin(input[i + 1..]);
      LinesCons(input[..i], tail.pieces, tail.rest);
    } else {
      NoLines();
      assert "" + input == input;
    }
  }

  lemma NoLines()
    ensures Lines([]) == ""
  {
  }

  /** No line, nor what follows the last one, contains a newline. */
  lemma {:induction false} LinesAreLines(input: Bytes)
    ensures '\n' !in SplitAt(input, NEWLINE).rest
    ensures forall piece :: piece in SplitAt(input, NEWLINE).pieces ==> '\n' !in piece
    decreases |input|
  {
    hide SplitAt, Find;
    SplitOnce(input, NEWLINE);
    NoNewline(input);
    if Find(input, NEWLINE).Some? {
      LinesAreLines(input[Find(input, NEWLINE).value + 1..]);
    }
  }

  // ---------------------------------------------------------------- nothing is lost

  function Written(calls: seq<Call>): Bytes
  {
    if calls == [] then ""
    else Written(calls[..|calls| - 1]) + if calls[|calls| - 1].Body? then calls[|calls| - 1].data else ""
  }

  lemma {:induction false} WrittenAppend(a: seq<Call>, b: seq<Call>)
    ensures Written(a + b) == Written(a) + Written(b)
  {
    if b == [] {
      assert a + b == a;
    } else {
      WrittenAppend(a, b[..|b| - 1]);
      assert (a + b)[..|a + b| - 1] == a + b[..|b| - 1];
    }
  }

  lemma KeptLine(json: Bytes -> Bytes, line: Bytes)
    requires forall s :: json(s) == s
    ensures RewriteLine(json, line + NEWLINE) == line + NEWLINE
    ensures RewriteLine(json, line) == line || RewriteLine(json, line) == line + NEWLINE
  {
    assert (line + NEWLINE)[..|line|] == line;
    if DATA <= line {
      assert DATA + line[|DATA|..] == line;
    }
    if line != "" && DATA <= line[..|line| - 1] {
      assert DATA + line[..|line| - 1][|DATA|..] == line[..|line| - 1];
      assert line[..|line| - 1] + [line[|line| - 1]] == line;
    }
  }

  lemma {:induction false} KeptLines(json: Bytes -> Bytes, input: Bytes)
    requires forall s :: json(s) == s
    ensures Written(LineCalls(json, SplitAt(input, NEWLINE).pieces)) + SplitAt(input, NEWLINE).rest == input
    decreases |input|
  {
    hide SplitAt, Find, Written, LineCalls;
    SplitOnce(input, NEWLINE);
    if Find(input, NEWLINE).Some? {
      var i := Find(input, NEWLINE).value;
      var head, tail := input[..i], input[i + 1..];
      CutAtNewline(input);
      KeptLines(json, tail);
      LineCallsAppend(json, [head], SplitAt(tail, NEWLINE).pieces);
      WrittenAppend(LineCalls(json, [head]), LineCalls(json, SplitAt(tail, NEWLINE).pieces));
      KeptFirst(json, head);
    } else {
      NothingWritten(json);
    }
  }

  lemma CutAtNewline(input: Bytes)
    requires Find(input, NEWLINE).Some?
    ensures var i := Find(input, NEWLINE).value; input == input[..i] + NEWLINE + input[i + 1..]
  {
    FindIsFirst(input, NEWLINE, Find(input, NEWLINE));
  }

  lemma NothingWritten(json: Bytes -> Bytes)
    ensures Written(LineCalls(json, [])) == ""
  {
  }

  lemma KeptFirst(json: Bytes -> Bytes, head: Bytes)
    requires forall s :: json(s) == s
    ensures Written(LineCalls(json, [head])) == head + NEWLINE
  {
    KeptLine(json, head);
    hide RewriteLine;
    assert LineCalls(json, [head][..0]) == [];
    assert LineCalls(json, [head]) == [Body(head + NEWLINE)];
    OneWritten(head + NEWLINE);
  }

  lemma HeaderWritesNothing(status: int)
    ensures Written([Header(status)]) == ""
  {
    assert Written([Header(status)][..0]) == "";
  }

  lemma OneWritten(data: Bytes)
    ensures Written([Body(data)]) == data
  {
    assert Written([Body(data)][..0]) == "";
  }

  /** Where no payload needs rewriting, the client receives the provider's bytes, in order and
      complete, with at most one newline added to an unterminated last line. */
  lemma {:induction false} NothingIsLost(json: Bytes -> Bytes, ops: seq<Op>)
    requires forall s :: json(s) == s
    ensures Written(Output(json, ops)) == Input(ops) || Written(Output(json, ops)) == Input(ops) + NEWLINE
    ensures Flush !in ops ==> Written(Output(json, ops)) == Input(ops)
  {
    OutputIsBatch(json, ops);
    hide RewriteLine, SplitAt, Output, StatusFrom, LineCalls, Input, Written;
    var header, split := [Header(StatusFrom(ops))], SplitAt(Input(ops), NEWLINE);
    HeaderWritesNothing(StatusFrom(ops));
    if Flush in ops {
      var lines := LineCalls(json, split.pieces);
      KeptLines(json, Input(ops));
      KeptLine(json, split.rest);
      WrittenAppend(header, lines);
      if split.rest != "" {
        WrittenAppend(header + lines, [Body(RewriteLine(json, split.rest))]);
        OneWritten(RewriteLine(json, split.rest));
      } else {
        assert header + lines + [] == header + lines;
      }
    } else {
      assert Output(json, ops) == header + [Body(Input(ops))];
      WrittenAppend(header, [Body(Input(ops))]);
      OneWritten(Input(ops));
    }
  }
}
