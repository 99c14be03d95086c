/** The stack of response writers of one attempt (src/proxy.go, src/virtual_model_response.go). */
module ResponseWriters {
  import opened Common
  import opened Splitting
  import opened VirtualResponse
  import opened Attempts

  /** A call that reached the client's connection, and the attempt it came from. */
  datatype Sent = Sent(attempt: nat, call: Call)

  function Tag(attempt: nat, calls: seq<Call>): (r: seq<Sent>)
    ensures |r| == |calls| && forall i :: 0 <= i < |r| ==> r[i] == Sent(attempt, calls[i])
  {
    seq(|calls|, i requires 0 <= i < |calls| => Sent(attempt, calls[i]))
  }

  lemma TagAppend(attempt: nat, a: seq<Call>, b: seq<Call>)
    ensures Tag(attempt, a + b) == Tag(attempt, a) + Tag(attempt, b)
  {
  }

  class Client {
    var sent: seq<Sent>

    constructor ()
      ensures sent == []
    {
      sent := [];
    }
  }

  class AttemptWriter {
    const client: Client
    const attempt: nat
    var status: int
    var headersSent: bool
    var committed: bool
    var buffer: Bytes

    ghost function Value(): Attempt
      reads this
    {
      Attempt(status, headersSent, committed, buffer)
    }

    constructor (client: Client, attempt: nat)
      ensures this.client == client && this.attempt == attempt && Value() == FRESH_ATTEMPT
    {
      this.client, this.attempt := client, attempt;
      status, headersSent, committed, buffer := 0, false, false, "";
    }

    function StatusCode(): int
      reads this
    {
      if status == 0 then 200 else status
    }

    method WriteHeader(code: int)
      modifies this
      ensures Value() == AfterCall(old(Value()), Header(code)).0
    {
      if !headersSent {
        headersSent, status := true, code;
      }
    }

    method Write(data: Bytes)
      modifies this, client
      ensures Value() == AfterCall(old(Value()), Body(data)).0
      ensures client.sent == old(client.sent) + Tag(attempt, AfterCall(old(Value()), Body(data)).1)
    {
      if committed {
        client.sent := client.sent + [Sent(attempt, Body(data))];
        return;
      }
      var code := StatusCode();
      if 200 <= code < 300 {
        CommitToReal();
        client.sent := client.sent + [Sent(attempt, Body(data))];
        return;
      }
      buffer := buffer + data;
    }

    method CommitToReal()
      modifies this, client
      ensures Value() == Committed(old(Value())).0
      ensures client.sent == old(client.sent) + Tag(attempt, Committed(old(Value())).1)
    {
      if committed {
        return;
      }
      committed := true;
      client.sent := client.sent + [Sent(attempt, Header(StatusCode()))];
      if |buffer| > 0 {
        client.sent := client.sent + [Sent(attempt, Body(buffer))];
        buffer := "";
      }
    }
  }

  class VirtualModelWriter {
    const inner: AttemptWriter
    const json: Bytes -> Bytes
    var status: int
    var headersSent: bool
    var streaming: bool
    var body: Bytes
    var pending: Bytes
    ghost var calls: seq<Call>      // every call made on the wrapped writer
    ghost const before: seq<Sent>   // what the client had been sent when the attempt began

    ghost function Value(): Virtual
      reads this
    {
      Virtual(status, headersSent, streaming, body, pending)
    }

    /** The wrapped writer and the client stand where `calls` put them. */
    ghost predicate Linked()
      reads this, inner, inner.client
    {
      && inner.Value() == Fed(calls).0
      && inner.client.sent == before + Tag(inner.attempt, Fed(calls).1)
    }

    ghost predicate Valid()
      reads this, inner, inner.client
    {
      Linked() && Find(pending, NEWLINE).None?
    }

    constructor (inner: AttemptWriter, json: Bytes -> Bytes)
      requires inner.Value() == FRESH_ATTEMPT
      ensures this.inner == inner && this.json == json && Value() == FRESH_VIRTUAL && calls == []
      ensures before == inner.client.sent && Valid()
    {
      this.inner, this.json, before := inner, json, inner.client.sent;
      status, headersSent, streaming, body, pending, calls := 0, false, false, "", "", [];
    }

    function StatusCode(): int
      reads this
    {
      if status == 0 then 200 else status
    }

    method WriteHeader(code: int)
      requires Valid()
      modifies this
      ensures Valid() && Value() == AfterHeader(old(Value()), code) && calls == old(calls)
    {
      if !headersSent {
        headersSent, status := true, code;
      }
    }

    /** A write to the wrapped writer. */
    method Forward(data: Bytes)
      requires Linked()
      modifies this`calls, inner, inner.client
      ensures Linked() && calls == old(calls) + [Body(data)]
    {
      hide Find, Fed, AfterCall;
      FedStep(calls, Body(data));
      TagAppend(inner.attempt, Fed(calls).1, AfterCall(inner.Value(), Body(data)).1);
      inner.Write(data);
      calls := calls + [Body(data)];
    }

    method CommitHeaders()
      requires Linked()
      modifies this`calls, inner
      ensures Linked() && calls == old(calls) + [Header(StatusOf(status))]
    {
      hide Find, Fed;
      FedStep(calls, Header(StatusOf(status)));
      inner.WriteHeader(StatusCode());
      calls := calls + [Header(StatusOf(status))];
    }

    method WriteStream(data: Bytes)
      requires Linked()
      modifies this`pending, this`calls, inner, inner.client
      ensures Valid() && (Value(), calls) == (Streamed(json, old(Value()), data).0, old(calls) + Streamed(json, old(Value()), data).1)
    {
      hide Fed, AfterCall, RewriteLine, Find, SplitAt, LineCalls, Partway;
      pending := pending + data;
      ghost var all := pending;
      ghost var lines: seq<Bytes> := [];
      StartsPartway(json, all);
      assert calls == calls + LineCalls(json, lines);
      while true
        invariant Linked() && calls == old(calls) + LineCalls(json, lines)
        invariant Value() == old(Value()).(pending := pending)
        invariant Partway(all, lines, pending)
        decreases |pending|
      {
        var index := Find(pending, NEWLINE);
        if index.None? {
          EndsPartway(all, lines, pending);
          return;
        }
        var line := pending[..index.value + 1];
        TakesLine(json, all, lines, pending);
        lines := lines + [pending[..index.value]];
        pending := pending[index.value + 1..];
        Forward(RewriteLine(json, line));
      }
    }

    method Write(data: Bytes)
      requires Valid()
      modifies this, inner, inner.client
      ensures Valid() && (Value(), calls) == (AfterWrite(json, old(Value()), data).0, old(calls) + AfterWrite(json, old(Value()), data).1)
    {
      hide Fed, SplitAt, LineCalls, Find;
      if streaming {
        WriteStream(data);
      } else {
        body := body + data;
        assert calls + [] == calls;
      }
    }

    method Flush()
      requires Valid()
      modifies this, inner, inner.client
      ensures Valid() && (Value(), calls) == (AfterFlush(json, old(Value())).0, old(calls) + AfterFlush(json, old(Value())).1)
    {
      hide Fed, SplitAt, LineCalls, Find;
      assert calls + [] == calls;
      if !streaming {
        streaming := true;
        CommitHeaders();
        ghost var header, more := [Header(StatusOf(status))], Streamed(json, Value().(body := ""), body).1;
        assert old(calls) + header + more == old(calls) + (header + more);
        if |body| > 0 {
          var buffered := body;
          body := "";
          WriteStream(buffered);
        } else {
          EmptyStream(json, Value());
          assert old(body) == "" && [Header(StatusOf(status))] + [] == [Header(StatusOf(status))];
        }
      }
    }

    method Commit()
      requires Valid()
      modifies this, inner, inner.client
      ensures Valid() && (Value(), calls) == (AfterCommit(json, old(Value())).0, old(calls) + AfterCommit(json, old(Value())).1)
    {
      hide Fed, RewriteLine;
      assert calls + [] == calls;
      if streaming {
        if |pending| > 0 {
          Forward(RewriteLine(json, pending));
          pending := "";
        }
        return;
      }
      CommitHeaders();
      Forward(json(body));
      assert calls == old(calls) + [Header(StatusOf(status)), Body(json(body))];
    }
  }

  /** `lines` have been taken off `all`, and `unread` is left. */
  ghost predicate Partway(all: Bytes, lines: seq<Bytes>, unread: Bytes)
  {
    SplitAt(all, NEWLINE) == Split(lines + SplitAt(unread, NEWLINE).pieces, SplitAt(unread, NEWLINE).rest)
  }

  lemma StartsPartway(json: Bytes -> Bytes, all: Bytes)
    ensures Partway(all, [], all) && LineCalls(json, []) == []
  {
    hide SplitAt;
    assert [] + SplitAt(all, NEWLINE).pieces == SplitAt(all, NEWLINE).pieces;
  }

  lemma EndsPartway(all: Bytes, lines: seq<Bytes>, unread: Bytes)
    requires Partway(all, lines, unread) && Find(unread, NEWLINE).None?
    ensures SplitAt(all, NEWLINE) == Split(lines, unread)
  {
    SplitOnce(unread, NEWLINE);
    hide SplitAt, Find;
    assert lines + [] == lines;
  }

  /** Taking one line off the front. */
  lemma TakesLine(json: Bytes -> Bytes, all: Bytes, lines: seq<Bytes>, unread: Bytes)
    requires Partway(all, lines, unread) && Find(unread, NEWLINE).Some?
    ensures var i := Find(unread, NEWLINE).value;
            && Partway(all, lines + [unread[..i]], unread[i + 1..])
            && LineCalls(json, lines + [unread[..i]]) == LineCalls(json, lines) + [Body(RewriteLine(json, unread[..i + 1]))]
  {
    SplitOnce(unread, NEWLINE);
    CutAtNewline(unread);
    hide SplitAt, Find, RewriteLine;
    var i := Find(unread, NEWLINE).value;
    var head, tail := unread[..i], SplitAt(unread[i + 1..], NEWLINE).pieces;
    assert lines + [head] + tail == lines + ([head] + tail);
    assert unread[..i + 1] == head + NEWLINE;
    assert (lines + [head])[..|lines|] == lines;
  }

  /** A provider run against a fresh stack: every write, flush and status, then Commit. */
  method RunAttempt(client: Client, attempt: nat, json: Bytes -> Bytes, b: Behaviour)
      returns (writer: AttemptWriter, status: int)
    modifies client
    ensures fresh(writer) && writer.client == client && writer.attempt == attempt
    ensures writer.Value() == Ended(json, b).0
    ensures client.sent == old(client.sent) + Tag(attempt, Ended(json, b).1)
    ensures status == OutcomeStatus(json, b)
  {
    hide Fed, AfterFlush, AfterWrite, AfterHeader, AfterCommit, Find;
    writer := new AttemptWriter(client, attempt);
    var virtual := new VirtualModelWriter(writer, json);
    for n := 0 to |b.ops|
      invariant fresh(virtual) && fresh(writer) && virtual.Valid()
      invariant (virtual.Value(), virtual.calls) == Ran(json, b.ops[..n])
    {
      assert b.ops[..n + 1][..n] == b.ops[..n];
      assert virtual.calls + [] == virtual.calls;
      match b.ops[n] {
        case SetStatus(code) => virtual.WriteHeader(code);
        case Chunk(data) => virtual.Write(data);
        case Flush => virtual.Flush();
      }
    }
    assert b.ops[..|b.ops|] == b.ops;
    StatusKept(json, virtual.Value());
    virtual.Commit();
    status := virtual.StatusCode();
    if status <= 0 {
      status := 200;
    }
    if b.error.Some? && status == 200 {
      status := b.error.value;
    }
  }

  lemma StatusKept(json: Bytes -> Bytes, v: Virtual)
    ensures AfterCommit(json, v).0.status == v.status
  {
  }
}
