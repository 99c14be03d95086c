/**
 * The writer in front of the translator (src/anthropic_sse.go): line endings are normalised chunk
 * by chunk, events are cut at blank lines as they complete, and the first error is kept.
 */
module AnthropicWriter {
  import opened Common
  import opened Splitting
  import opened AnthropicEvents
  import Proofs = AnthropicProofs

  const BLANK_LINE := "\n\n"
  const LIMIT: nat := 4 * 1024 * 1024

  predicate StartsCRLF(s: Bytes)
  {
    |s| >= 2 && s[0] == '\r' && s[1] == '\n'
  }

  /** How many bytes the first byte of the normalised form takes, and that byte. */
  function Width(s: Bytes): nat
  {
    if StartsCRLF(s) then 2 else 1
  }

  function First(s: Bytes): char
    requires s != ""
  {
    if StartsCRLF(s) then '\n' else s[0]
  }

  /** ReplaceAll of CR LF by LF. */
  function Normalized(s: Bytes): Bytes
  {
    if s == "" then "" else [First(s)] + Normalized(s[Width(s)..])
  }

  function Decoded(decode: Bytes -> Upstream, pieces: seq<Bytes>): seq<Upstream>
  {
    seq(|pieces|, i requires 0 <= i < |pieces| => decode(pieces[i]))
  }

  datatype State = State(stream: Stream, pending: Bytes, out: seq<Event>)

  const FRESH_STATE := State(FRESH_STREAM, "", [])

  /** The loop of Write: events are handled while complete ones are pending and none has failed. */
  function Drained(decode: Bytes -> Upstream, st: State): State
    decreases |st.pending|
  {
    match Find(st.pending, BLANK_LINE)
    case None => st
    case Some(i) =>
      var (s, more) := Handled(st.stream, decode(st.pending[..i]));
      var next := State(s, st.pending[i + 2..], st.out + more);
      if s.failed then next else Drained(decode, next)
  }

  function AfterWrite(decode: Bytes -> Upstream, st: State, data: Bytes): State
  {
    if st.stream.failed then st
    else
      var pending := st.pending + Normalized(data);
      if |pending| > LIMIT then State(st.stream.(failed := true), pending, st.out)
      else Drained(decode, State(st.stream, pending, st.out))
  }

  function Fed(decode: Bytes -> Upstream, chunks: seq<Bytes>): State
  {
    if chunks == [] then FRESH_STATE
    else AfterWrite(decode, Fed(decode, chunks[..|chunks| - 1]), chunks[|chunks| - 1])
  }

  // ---------------------------------------------------------------- the batch specification

  /** Everything that has arrived, each chunk normalised by itself. */
  function Arrived(chunks: seq<Bytes>): Bytes
  {
    if chunks == [] then "" else Arrived(chunks[..|chunks| - 1]) + Normalized(chunks[|chunks| - 1])
  }

  predicate Overflows(chunks: seq<Bytes>, data: Bytes)
  {
    |SplitAt(Arrived(chunks), BLANK_LINE).rest + Normalized(data)| > 4_194_304
  }

  /** The chunks before the first one that makes the unfinished event too long. */
  function Taken(chunks: seq<Bytes>): (n: nat)
    ensures n <= |chunks|
  {
    if chunks == [] then 0
    else
      var init := chunks[..|chunks| - 1];
      if Taken(init) == |init| && !Overflows(init, chunks[|chunks| - 1]) then |chunks| else Taken(init)
  }

  function Batch(decode: Bytes -> Upstream, input: Bytes): (Stream, seq<Event>)
  {
    Ran(Decoded(decode, SplitAt(input, BLANK_LINE).pieces))
  }

  lemma {:induction false} DrainedIsBatch(decode: Bytes -> Upstream, before: seq<Upstream>, pending: Bytes)
    requires !Ran(before).0.failed
    ensures var end := Drained(decode, State(Ran(before).0, pending, Ran(before).1));
            var split := SplitAt(pending, BLANK_LINE);
            && (end.stream, end.out) == Ran(before + Decoded(decode, split.pieces))
            && (!end.stream.failed ==> end.pending == split.rest)
    decreases |pending|
  {
    var st := State(Ran(before).0, pending, Ran(before).1);
    SplitOnce(pending, BLANK_LINE);
    DrainedOnce(decode, st);
    if Find(pending, BLANK_LINE).None? {
      assert Decoded(decode, []) == [] && before + [] == before;
    } else {
      hide SplitAt, Handled, Ran, Find, Drained;
      var i := Find(pending, BLANK_LINE).value;
      var ev, tail := decode(pending[..i]), SplitAt(pending[i + 2..], BLANK_LINE).pieces;
      RanSnoc(before, ev);
      DecodedAppend(decode, [pending[..i]], tail);
      assert Decoded(decode, [pending[..i]]) == [ev];
      hide Decoded;
      Regroup(before, ev, Decoded(decode, tail));
      if Ran(before + [ev]).0.failed {
        Proofs.SilentAfterError(before + [ev], Decoded(decode, tail));
      } else {
        DrainedIsBatch(decode, before + [ev], pending[i + 2..]);
      }
    }
  }

  lemma Regroup(before: seq<Upstream>, ev: Upstream, tail: seq<Upstream>)
    ensures before + ([ev] + tail) == before + [ev] + tail
  {
  }

  lemma DrainedOnce(decode: Bytes -> Upstream, st: State)
    ensures Find(st.pending, BLANK_LINE).None? ==> Drained(decode, st) == st
    ensures Find(st.pending, BLANK_LINE).Some? ==>
              var i := Find(st.pending, BLANK_LINE).value;
              var handled := Handled(st.stream, decode(st.pending[..i]));
              var next := State(handled.0, st.pending[i + 2..], st.out + handled.1);
              Drained(decode, st) == if next.stream.failed then next else Drained(decode, next)
  {
    hide Handled;
  }

  lemma DecodedAppend(decode: Bytes -> Upstream, a: seq<Bytes>, b: seq<Bytes>)
    ensures Decoded(decode, a + b) == Decoded(decode, a) + Decoded(decode, b)
  {
  }

  /** One chunk more, if it fits. */
  lemma ChunkIsBatch(decode: Bytes -> Upstream, st: State, arrived: Bytes, data: Bytes)
    requires (st.stream, st.out) == Batch(decode, arrived)
    requires !st.stream.failed ==> st.pending == SplitAt(arrived, BLANK_LINE).rest
    requires |SplitAt(arrived, BLANK_LINE).rest + Normalized(data)| <= LIMIT
    ensures var next := AfterWrite(decode, st, data);
            && (next.stream, next.out) == Batch(decode, arrived + Normalized(data))
            && (!next.stream.failed ==> next.pending == SplitAt(arrived + Normalized(data), BLANK_LINE).rest)
  {
    hide SplitAt, Ran, Drained, Normalized, Find;
    var split := SplitAt(arrived, BLANK_LINE);
    var more := SplitAt(split.rest + Normalized(data), BLANK_LINE);
    var before := Decoded(decode, split.pieces);
    SplitAppend(arrived, Normalized(data), BLANK_LINE);
    DecodedAppend(decode, split.pieces, more.pieces);
    if st.stream.failed {
      Proofs.SilentAfterError(before, Decoded(decode, more.pieces));
    } else {
      DrainedIsBatch(decode, before, split.rest + Normalized(data));
      assert st == State(Ran(before).0, split.rest, Ran(before).1);
    }
  }

  /** However the upstream response is cut into writes, the client receives the translation of the
      events of the whole stream up to the first chunk that makes an unfinished event too long; at
      such a chunk the stream fails. */
  lemma {:induction false} EventsAreBatch(decode: Bytes -> Upstream, chunks: seq<Bytes>)
    ensures var st := Fed(decode, chunks);
            var arrived := Arrived(chunks[..Taken(chunks)]);
            && st.out == Batch(decode, arrived).1
            && (st.stream.failed <==> Taken(chunks) < |chunks| || Batch(decode, arrived).0.failed)
            && (!st.stream.failed ==> st.stream == Batch(decode, arrived).0 && st.pending == SplitAt(arrived, BLANK_LINE).rest)
            && (Taken(chunks) == |chunks| ==> st.stream == Batch(decode, arrived).0)
  {
    if chunks == [] {
      SplitOnce("", BLANK_LINE);
      assert Decoded(decode, []) == [];
    } else {
      hide Batch, SplitAt, Drained, Normalized, Find;
      var init, last := chunks[..|chunks| - 1], chunks[|chunks| - 1];
      EventsAreBatch(decode, init);
      var st := Fed(decode, init);
      if Taken(init) < |init| {
        assert chunks[..Taken(init)] == init[..Taken(init)];
      } else {
        assert chunks[..|init|] == init[..|init|] == init;
        assert chunks[..|chunks|] == chunks;
        if Overflows(init, last) {
          assert !st.stream.failed ==> |st.pending + Normalized(last)| > LIMIT;
        } else {
          ChunkIsBatch(decode, st, Arrived(init), last);
        }
      }
    }
  }

  // ---------------------------------------------------------------- line endings

  function Count(chunks: seq<Bytes>): nat
  {
    if chunks == [] then 0
    else Count(chunks[..|chunks| - 1]) + if CutsCRLF(Concat(chunks[..|chunks| - 1]), chunks[|chunks| - 1]) then 1 else 0
  }

  /** The boundary between `a` and `b` falls inside a CR LF. */
  predicate CutsCRLF(a: Bytes, b: Bytes)
  {
    a != "" && b != "" && a[|a| - 1] == '\r' && b[0] == '\n'
  }

  predicate NoCuts(chunks: seq<Bytes>)
  {
    forall i :: 0 <= i < |chunks| ==> !CutsCRLF(Concat(chunks[..i]), chunks[i])
  }

  lemma {:induction false} NormalizedAppend(a: Bytes, b: Bytes)
    ensures !CutsCRLF(a, b) ==> Normalized(a + b) == Normalized(a) + Normalized(b)
    ensures CutsCRLF(a, b) ==> |Normalized(a + b)| == |Normalized(a)| + |Normalized(b)| - 1
  {
    if a == "" {
      assert a + b == b;
    } else if |a| == 1 && CutsCRLF(a, b) {
      NormalizedPair(a, b);
    } else {
      NormalizedStep(a, b);
      NormalizedAppend(a[Width(a)..], b);
      hide CutsCRLF, First, Width;
    }
  }

  lemma NormalizedStep(a: Bytes, b: Bytes)
    requires a != "" && !(|a| == 1 && CutsCRLF(a, b))
    ensures CutsCRLF(a[Width(a)..], b) <==> CutsCRLF(a, b)
    ensures Normalized(a) == [First(a)] + Normalized(a[Width(a)..])
    ensures Normalized(a + b) == [First(a)] + Normalized(a[Width(a)..] + b)
  {
    assert StartsCRLF(a + b) <==> StartsCRLF(a);
    assert (a + b)[Width(a)..] == a[Width(a)..] + b;
  }

  lemma NormalizedPair(a: Bytes, b: Bytes)
    requires |a| == 1 && CutsCRLF(a, b)
    ensures |Normalized(a + b)| == |Normalized(a)| + |Normalized(b)| - 1
  {
    assert (a + b)[2..] == b[1..];
    OneByte(a[0]);
    assert a == [a[0]];
  }

  lemma {:induction false} CutsAreCounted(chunks: seq<Bytes>)
    ensures |Arrived(chunks)| == |Normalized(Concat(chunks))| + Count(chunks)
    ensures Count(chunks) == 0 ==> Arrived(chunks) == Normalized(Concat(chunks))
    ensures Count(chunks) == 0 <==> NoCuts(chunks)
  {
    if chunks != [] {
      hide Normalized;
      var init, last := chunks[..|chunks| - 1], chunks[|chunks| - 1];
      CutsAreCounted(init);
      NormalizedAppend(Concat(init), last);
      NoCutsSnoc(chunks);
      hide CutsCRLF, NoCuts;
    }
  }

  lemma NoCutsSnoc(chunks: seq<Bytes>)
    requires chunks != []
    ensures NoCuts(chunks) <==>
              NoCuts(chunks[..|chunks| - 1]) && !CutsCRLF(Concat(chunks[..|chunks| - 1]), chunks[|chunks| - 1])
  {
    hide CutsCRLF, Concat;
    var init := chunks[..|chunks| - 1];
    forall i | 0 <= i < |init| ensures init[..i] == chunks[..i] {
    }
    if NoCuts(chunks) {
      forall i | 0 <= i < |init| ensures !CutsCRLF(Concat(init[..i]), init[i]) {
        assert !CutsCRLF(Concat(chunks[..i]), chunks[i]);
      }
    }
  }

  /** Normalising chunk by chunk is normalising the whole exactly when no boundary cuts a CR LF. */
  lemma {:induction false} NormalisesExactly(chunks: seq<Bytes>)
    ensures Arrived(chunks) == Normalized(Concat(chunks)) <==> NoCuts(chunks)
  {
    CutsAreCounted(chunks);
  }

  /** Two ways of cutting the same bytes, neither inside a CR LF nor over the limit, give the client
      the same events. */
  lemma {:induction false} ChunkingDoesNotMatter(decode: Bytes -> Upstream, a: seq<Bytes>, b: seq<Bytes>)
    requires Concat(a) == Concat(b) && NoCuts(a) && NoCuts(b) && Taken(a) == |a| && Taken(b) == |b|
    ensures Fed(decode, a).out == Fed(decode, b).out && Fed(decode, a).stream == Fed(decode, b).stream
    ensures Fed(decode, a).out == Batch(decode, Normalized(Concat(a))).1
  {
    hide Batch, Fed, Normalized;
    EventsAreBatch(decode, a);
    EventsAreBatch(decode, b);
    assert a[..|a|] == a && b[..|b|] == b;
    NormalisesExactly(a);
    NormalisesExactly(b);
  }

  /** A cut inside a CR LF can hide the end of an event: the bytes "x", LF, CR | LF hold one event
      when they arrive together and none when they arrive in these two chunks. */
  lemma {:induction false} CutHidesEvent()
    ensures SplitAt(Arrived(["x\n\r", "\n"]), BLANK_LINE).pieces == []
    ensures SplitAt(Normalized(Concat(["x\n\r", "\n"])), BLANK_LINE).pieces == ["x"]
  {
    CutParts();
    CutWhole();
    NoBlankLine();
    OneBlankLine();
  }

  lemma OneByte(c: char)
    ensures Normalized([c]) == [c]
  {
    assert [c][1..] == "";
  }

  lemma CutParts()
    ensures Arrived(["x\n\r", "\n"]) == Concat(["x\n\r", "\n"]) == "x\n\r\n"
  {
    assert Normalized("x\n\r") == "x\n\r" && Normalized("\n") == "\n" by {
      OneByte('x');
      OneByte('\n');
      OneByte('\r');
      NormalizedAppend("x", "\n");
      NormalizedAppend("x" + "\n", "\r");
      assert "x" + "\n" + "\r" == "x\n\r";
    }
    hide Normalized;
    assert ["x\n\r", "\n"][..1] == ["x\n\r"] && ["x\n\r"][..0] == [];
    assert Arrived(["x\n\r"]) == "x\n\r" == Concat(["x\n\r"]);
    assert "x\n\r" + "\n" == "x\n\r\n";
  }

  lemma CutWhole()
    ensures Normalized("x\n\r\n") == "x\n\n"
  {
    NormalizedAppend("x" + "\n", "\r\n");
    NormalizedAppend("x", "\n");
    OneByte('x');
    OneByte('\n');
    assert "\r\n"[2..] == "" && "x" + "\n" + "\r\n" == "x\n\r\n";
  }

  lemma BlankLineAt(s: Bytes, i: nat)
    ensures MatchAt(s, BLANK_LINE, i) <==> i + 2 <= |s| && s[i] == '\n' && s[i + 1] == '\n'
  {
    if i + 2 <= |s| {
      assert s[i..i + 2] == [s[i], s[i + 1]];
      assert BLANK_LINE == ['\n', '\n'];
    }
  }

  lemma NoBlankLine()
    ensures SplitAt("x\n\r\n", BLANK_LINE).pieces == []
  {
    var s := "x\n\r\n";
    forall j | 0 <= j ensures !MatchAt(s, BLANK_LINE, j) {
      BlankLineAt(s, j);
    }
    FindIsFirst(s, BLANK_LINE, None);
    SplitOnce(s, BLANK_LINE);
  }

  lemma OneBlankLine()
    ensures SplitAt("x\n\n", BLANK_LINE).pieces == ["x"]
  {
    var s := "x\n\n";
    BlankLineAt(s, 0);
    BlankLineAt(s, 1);
    FindIsFirst(s, BLANK_LINE, Some(1));
    SplitOnce(s, BLANK_LINE);
    assert s[3..] == "" && s[..1] == "x";
    SplitOnce("", BLANK_LINE);
    FindIsFirst("", BLANK_LINE, None);
  }
}
