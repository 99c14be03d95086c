/**
 * One failover attempt (src/proxy.go): the buffering writer between the virtual-model rewriter
 * and the client, and what the failover loop makes of an attempt once the provider returns.
 */
module Attempts {
  import opened Common
  import opened Splitting
  import opened VirtualResponse
  import C = Cooldowns

  /** attemptResponseWriter. */
  datatype Attempt = Attempt(status: int, headersSent: bool, committed: bool, buffer: Bytes)

  const FRESH_ATTEMPT := Attempt(0, false, false, "")

  predicate Success(status: int)
  {
    200 <= status < 300
  }

  function Buffered(data: Bytes): seq<Call>
  {
    if data == "" then [] else [Body(data)]
  }

  /** CommitToReal: the new state and what the client is sent. */
  function Committed(a: Attempt): (Attempt, seq<Call>)
  {
    if a.committed then (a, [])
    else (a.(committed := true, buffer := ""), [Header(StatusOf(a.status))] + Buffered(a.buffer))
  }

  /** WriteHeader and Write. */
  function AfterCall(a: Attempt, call: Call): (Attempt, seq<Call>)
  {
    match call
    case Header(code) => (if a.headersSent then a else a.(headersSent := true, status := code), [])
    case Body(data) =>
      if a.committed then (a, [call])
      else if Success(StatusOf(a.status)) then
        var (b, sent) := Committed(a);
        (b, sent + [call])
      else (a.(buffer := a.buffer + data), [])
  }

  /** The attempt and everything the client has been sent, after `calls`. */
  function Fed(calls: seq<Call>): (Attempt, seq<Call>)
  {
    if calls == [] then (FRESH_ATTEMPT, [])
    else
      var (a, sent) := Fed(calls[..|calls| - 1]);
      var (b, more) := AfterCall(a, calls[|calls| - 1]);
      (b, sent + more)
  }

  lemma FedStep(calls: seq<Call>, call: Call)
    ensures Fed(calls + [call]) == (AfterCall(Fed(calls).0, call).0, Fed(calls).1 + AfterCall(Fed(calls).0, call).1)
  {
    assert (calls + [call])[..|calls|] == calls;
  }

  // ---------------------------------------------------------------- what an attempt does

  /** What a provider writes, and the status its error maps to if it returns one. */
  datatype Behaviour = Behaviour(ops: seq<Op>, error: Option<int>)

  /** Where an attempt stands once the rewriter has committed. */
  function Ended(json: Bytes -> Bytes, b: Behaviour): (Attempt, seq<Call>)
  {
    Fed(Output(json, b.ops))
  }

  /** responseStatus of the virtual writer, replaced by the error's status when it reads 200. */
  function OutcomeStatus(json: Bytes -> Bytes, b: Behaviour): int
  {
    var code := StatusOf(Ran(json, b.ops).0.status);
    var status := if code > 0 then code else 200;
    if b.error.Some? && status == 200 then b.error.value else status
  }

  predicate Eligible(status: int, failed: bool)
  {
    failed || status in {401, 402, 403, 408, 429, 504} || status >= 500
  }

  predicate Succeeded(json: Bytes -> Bytes, b: Behaviour)
  {
    b.error.None? && OutcomeStatus(json, b) < 400
  }

  /** The loop tries the next target after such an attempt, unless the request is cancelled. */
  predicate Retriable(json: Bytes -> Bytes, b: Behaviour)
  {
    && !Succeeded(json, b) && !Ended(json, b).0.committed
    && Eligible(OutcomeStatus(json, b), b.error.Some?)
  }

  /** What the client receives of an attempt that is delivered. */
  function Delivered(json: Bytes -> Bytes, b: Behaviour): seq<Call>
  {
    Ended(json, b).1 + Committed(Ended(json, b).0).1
  }

  // ---------------------------------------------------------------- theorems

  predicate AllBodies(calls: seq<Call>)
  {
    forall i :: 0 <= i < |calls| ==> calls[i].Body?
  }

  /** Where a header and then `bodies` put an attempt: a success goes out as it comes, anything else is held
      back whole. */
  ghost predicate Stands(status: int, bodies: seq<Call>, a: Attempt, sent: seq<Call>)
  {
    if Success(StatusOf(status)) && bodies != [] then
      a == Attempt(status, true, true, "") && sent == [Header(StatusOf(status))] + bodies
    else
      a == Attempt(status, true, false, Written(bodies)) && sent == []
  }

  lemma WrittenSnoc(init: seq<Call>, last: Call)
    requires last.Body?
    ensures Written(init + [last]) == Written(init) + last.data
  {
    assert (init + [last])[..|init|] == init;
  }

  lemma BodyStands(status: int, init: seq<Call>, last: Call, a: Attempt, sent: seq<Call>)
    requires Stands(status, init, a, sent) && last.Body?
    ensures Stands(status, init + [last], AfterCall(a, last).0, sent + AfterCall(a, last).1)
  {
    WrittenSnoc(init, last);
    assert Written([]) == "";
    hide Written;
    var header := [Header(StatusOf(status))];
    if Success(StatusOf(status)) && init == [] {
      assert AfterCall(a, last).1 == header + [last];
      assert sent + (header + [last]) == header + (init + [last]);
    } else if Success(StatusOf(status)) {
      assert header + init + [last] == header + (init + [last]);
    }
  }

  lemma HeaderStands(status: int)
    ensures Stands(status, [], Fed([Header(status)] + []).0, Fed([Header(status)] + []).1)
  {
    assert [Header(status)] + [] == [] + [Header(status)];
    FedStep([], Header(status));
  }

  lemma {:induction false} FedBodies(status: int, bodies: seq<Call>)
    requires AllBodies(bodies)
    ensures Stands(status, bodies, Fed([Header(status)] + bodies).0, Fed([Header(status)] + bodies).1)
  {
    if bodies == [] {
      HeaderStands(status);
    } else {
      hide Stands, Fed, AfterCall;
      var init, last := bodies[..|bodies| - 1], bodies[|bodies| - 1];
      FedBodies(status, init);
      assert [Header(status)] + bodies == ([Header(status)] + init) + [last] && bodies == init + [last];
      FedStep([Header(status)] + init, last);
      BodyStands(status, init, last, Fed([Header(status)] + init).0, Fed([Header(status)] + init).1);
    }
  }

  lemma {:induction false} LineCallsAreBodies(json: Bytes -> Bytes, lines: seq<Bytes>)
    ensures AllBodies(LineCalls(json, lines)) && |LineCalls(json, lines)| == |lines|
  {
    if lines != [] {
      LineCallsAreBodies(json, lines[..|lines| - 1]);
    }
  }

  /** What a batch consists of. */
  lemma {:induction false} BatchShape(json: Bytes -> Bytes, status: int, streaming: bool, input: Bytes)
    ensures var batch := Batch(json, status, streaming, input);
            && batch != [] && batch[0] == Header(status) && AllBodies(batch[1..])
            && (|batch| > 1 <==> !streaming || input != "")
  {
    hide LineCalls, SplitAt, RewriteLine, Find;
    var split := SplitAt(input, NEWLINE);
    LineCallsAreBodies(json, split.pieces);
    SplitOnce(input, NEWLINE);
    NoDelimiter(NEWLINE);
    assert split.pieces == [] && split.rest == "" <==> input == "";
  }

  /** The one status an attempt can show the client. */
  function Shown(b: Behaviour): int
  {
    StatusOf(StatusFrom(b.ops))
  }

  /** An attempt puts its response through by itself exactly when the status in force is a 2xx and
      something reached the buffering writer: any attempt without Flush, or any non-empty output. */
  lemma {:induction false} CommitsExactly(json: Bytes -> Bytes, b: Behaviour)
    ensures Ended(json, b).0.committed <==> Success(Shown(b)) && (Flush in b.ops ==> Input(b.ops) != "")
    ensures !Ended(json, b).0.committed ==> Ended(json, b).1 == []
  {
    hide Fed, Written, StatusFrom, Output, Batch;
    OutputIsBatch(json, b.ops);
    var batch := Output(json, b.ops);
    BatchShape(json, StatusFrom(b.ops), Flush in b.ops, Input(b.ops));
    assert batch == [Header(StatusFrom(b.ops))] + batch[1..];
    FedBodies(StatusFrom(b.ops), batch[1..]);
  }

  /** A delivered attempt reaches the client as one header with its own status, then exactly the
      bytes of its batch rewrite, whether they were held back or passed on. */
  lemma {:induction false} DeliveredIsOutput(json: Bytes -> Bytes, b: Behaviour)
    ensures var sent := Delivered(json, b);
            sent != [] && sent[0] == Header(Shown(b)) && AllBodies(sent[1..]) && Written(sent[1..]) == Written(Output(json, b.ops))
  {
    hide Fed, StatusFrom, Output, Batch;
    OutputIsBatch(json, b.ops);
    var batch := Output(json, b.ops);
    BatchShape(json, StatusFrom(b.ops), Flush in b.ops, Input(b.ops));
    var header, bodies := [Header(StatusFrom(b.ops))], batch[1..];
    assert batch == header + bodies;
    FedBodies(StatusFrom(b.ops), bodies);
    WrittenAppend(header, bodies);
    HeaderWritesNothing(StatusFrom(b.ops));
    if Ended(json, b).0.committed {
      assert Delivered(json, b)[1..] == bodies;
    } else {
      assert Delivered(json, b)[1..] == Buffered(Written(bodies));
      if Written(bodies) != "" {
        OneWritten(Written(bodies));
      }
    }
  }

  /** A provider error leads to the next target exactly when the attempt has not put a success
      through. An error before any output does not: the unset status counts as 200. */
  lemma {:induction false} ErrorsRetryExactly(json: Bytes -> Bytes, b: Behaviour)
    requires b.error.Some?
    ensures Retriable(json, b) <==> !Success(Shown(b)) || (Flush in b.ops && Input(b.ops) == "")
    ensures b.ops == [] ==> !Retriable(json, b) && Delivered(json, b) == [Header(200), Body(json(""))]
  {
    hide Fed, Written, Output;
    CommitsExactly(json, b);
    if b.ops == [] {
      OutputIsBatch(json, []);
      assert Output(json, []) == [Header(200)] + [Body(json(""))];
      FedBodies(200, [Body(json(""))]);
    }
  }

  // ---------------------------------------------------------------- failures without an error

  /** The first status a provider sets, whenever it does. */
  function FirstSet(ops: seq<Op>): Option<int>
  {
    if ops == [] then None else if ops[0].SetStatus? then Some(ops[0].status) else FirstSet(ops[1..])
  }

  lemma {:induction false} FirstSetSnoc(ops: seq<Op>, op: Op)
    ensures FirstSet(ops + [op]) ==
              if FirstSet(ops).Some? then FirstSet(ops) else if op.SetStatus? then Some(op.status) else None
  {
    if ops != [] {
      assert (ops + [op])[1..] == ops[1..] + [op];
      FirstSetSnoc(ops[1..], op);
    }
  }

  /** The rewriter's status is the first one set. */
  lemma {:induction false} StatusIsFirstSet(json: Bytes -> Bytes, ops: seq<Op>)
    ensures var v := Ran(json, ops).0;
      (v.headersSent <==> FirstSet(ops).Some?) && v.status == if FirstSet(ops).Some? then FirstSet(ops).value else 0
  {
    hide SplitAt, LineCalls;
    if ops != [] {
      var init, op := ops[..|ops| - 1], ops[|ops| - 1];
      StatusIsFirstSet(json, init);
      assert ops == init + [op];
      FirstSetSnoc(init, op);
    }
  }

  /** A response without an error leads to the next target exactly when nothing of it went out and the first
      status the provider set is an authentication, payment, permission, timeout, rate-limit or server
      failure. */
  lemma {:induction false} FailuresRetryExactly(json: Bytes -> Bytes, b: Behaviour)
    requires b.error.None?
    ensures Retriable(json, b) <==>
      && !(200 <= Shown(b) < 300 && (Flush in b.ops ==> Input(b.ops) != ""))
      && exists first :: FirstSet(b.ops) == Some(first) &&
           (first == 401 || first == 402 || first == 403 || first == 408 || first == 429 || first == 504 || first >= 500)
  {
    hide Fed, Written, Output, Ran, StatusFrom, Input;
    CommitsExactly(json, b);
    StatusIsFirstSet(json, b.ops);
  }

  /** A failure moves on exactly when it earns its target a hold: of the attempts of which nothing went out,
      those are retried whose outcome the cooldown registry records. */
  lemma {:induction false} MovesOnExactlyWhenHeld(json: Bytes -> Bytes, b: Behaviour)
    requires b.error.None? && !Ended(json, b).0.committed
    ensures Retriable(json, b) <==> C.ReasonFor(OutcomeStatus(json, b), C.NoError).Some?
    ensures Retriable(json, b) <==> C.Policy(OutcomeStatus(json, b), C.NoError, 0).Some?
  {
    hide Fed, Output, Ran;
  }

  /** The status an outcome is judged by: the first one the provider set, an unset or impossible one reading
      as 200; and where that leaves 200, the status of the error if there was one. */
  lemma {:induction false} OutcomeStatusExactly(json: Bytes -> Bytes, b: Behaviour)
    ensures var first := FirstSet(b.ops);
      var shown := if first.Some? && first.value > 0 then first.value else 200;
      OutcomeStatus(json, b) == if shown == 200 && b.error.Some? then b.error.value else shown
  {
    hide Ran;
    StatusIsFirstSet(json, b.ops);
  }
}
