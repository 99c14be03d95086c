/** The sequential failover loop of processProxyRequest (src/proxy.go). */
module Failover {
  import opened Common
  import opened Names
  import opened Splitting
  import opened VirtualModels
  import opened VirtualResponse
  import opened Attempts
  import opened ResponseWriters
  import A = Availability

  /** Everything outside the loop, by attempt number: what the provider of a target does, whether
      the request has been cancelled by then, and what the router sees when it resolves. */
  datatype Environment = Environment(
    json: Bytes -> Bytes,
    behave: (nat, string) -> Behaviour,
    cancelled: nat -> bool,
    snapshot: nat -> A.Snapshot,
    preferred: nat -> string,
    registered: nat -> set<string>)

  /** The targets in the order resolution number `n` considers them. */
  function Candidates(env: Environment, vm: VirtualModel, n: nat): seq<string>
  {
    if vm.strategy == PRIORITY && env.preferred(n) != "" then Ordered(vm.targets, env.preferred(n)) else vm.targets
  }

  predicate Routable(env: Environment, capability: string, n: nat, exclude: set<string>, target: string)
  {
    A.Judge(env.snapshot(n), target, capability, exclude).Routable?
  }

  predicate ProviderPresent(env: Environment, n: nat, target: string)
  {
    Strip(Trim(target)).Some? && Strip(Trim(target)).value.provider in env.registered(n)
  }

  /** `i` is the first routable candidate. */
  ghost predicate FirstRoutable(env: Environment, vm: VirtualModel, capability: string, n: nat, exclude: set<string>, i: nat)
  {
    var c := Candidates(env, vm, n);
    && i < |c| && Routable(env, capability, n, exclude, c[i])
    && forall j :: 0 <= j < i ==> !Routable(env, capability, n, exclude, c[j])
  }

  /** resolveVirtualModelExcluding: the first routable candidate, if its provider is still there. */
  ghost predicate Chosen(env: Environment, vm: VirtualModel, capability: string, n: nat, exclude: set<string>, target: Option<string>)
  {
    var c := Candidates(env, vm, n);
    match target
    case Some(t) => exists i: nat :: FirstRoutable(env, vm, capability, n, exclude, i) && c[i] == t && ProviderPresent(env, n, t)
    case None =>
      || (forall j :: 0 <= j < |c| ==> !Routable(env, capability, n, exclude, c[j]))
      || exists i: nat :: FirstRoutable(env, vm, capability, n, exclude, i) && !ProviderPresent(env, n, c[i])
  }

  method Resolve(env: Environment, vm: VirtualModel, capability: string, n: nat, exclude: set<string>)
      returns (target: Option<string>)
    ensures Chosen(env, vm, capability, n, exclude, target)
    ensures target.Some? ==> Strip(Trim(target.value)).Some? && Strip(Trim(target.value)).value.provider in env.registered(n)
  {
    hide Trim, Ordered, A.Evaluate;
    var candidates := vm.targets;
    if vm.strategy == PRIORITY && env.preferred(n) != "" {
      candidates := ReorderTargets(vm.targets, env.preferred(n));
    }
    var index, skipped := A.Select(candidates, capability, env.snapshot(n), exclude);
    if index.None? {
      return None;
    }
    assert FirstRoutable(env, vm, capability, n, exclude, index.value);
    if Strip(Trim(candidates[index.value])).value.provider !in env.registered(n) {
      return None;
    }
    return Some(candidates[index.value]);
  }

  /** A chosen target is configured and has not been tried. */
  lemma ChosenIsNew(env: Environment, vm: VirtualModel, capability: string, n: nat, exclude: set<string>, target: string)
    requires Chosen(env, vm, capability, n, exclude, Some(target))
    ensures Trim(target) in Trims(vm.targets) && Trim(target) !in exclude
  {
    hide Trim, Ordered, A.Evaluate;
    OrderedTrims(vm.targets, env.preferred(n));
    assert target in Candidates(env, vm, n);
  }

  // ---------------------------------------------------------------- the loop

  datatype Outcome =
    | NoTarget                          // nothing could be tried
    | Answered(error: Option<int>)      // the last attempt went to the client
    | Cancelled                         // the request ended between attempts
    | Exhausted                         // nothing is left to try

  function Tried(attempts: seq<string>): set<string>
  {
    set t | t in attempts
  }

  /** Attempt `i` was picked by the router, given the ones before it. */
  ghost predicate Picked(env: Environment, vm: VirtualModel, capability: string, attempts: seq<string>, i: nat)
    requires i < |attempts|
  {
    exists t :: Chosen(env, vm, capability, i, Tried(attempts[..i]), Some(t)) && Trim(t) == attempts[i]
  }

  /** Attempt `i` failed in a way that lets another target be tried, and nothing of it went out. */
  ghost predicate Failed(env: Environment, attempts: seq<string>, i: nat)
    requires i < |attempts|
  {
    Retriable(env.json, env.behave(i, attempts[i]))
  }

  /** What the client has received, and why the loop stopped. */
  ghost predicate Concluded(env: Environment, vm: VirtualModel, capability: string, attempts: seq<string>, outcome: Outcome, sent: seq<Sent>)
  {
    var n := |attempts|;
    match outcome
    case NoTarget => n == 0 && sent == [] && Chosen(env, vm, capability, 0, {}, None)
    case Answered(error) =>
      && n > 0 && !Failed(env, attempts, n - 1)
      && error == env.behave(n - 1, attempts[n - 1]).error
      && sent == Tag(n - 1, Delivered(env.json, env.behave(n - 1, attempts[n - 1])))
    case Cancelled => n > 0 && Failed(env, attempts, n - 1) && env.cancelled(n - 1) && sent == []
    case Exhausted =>
      && n > 0 && Failed(env, attempts, n - 1) && !env.cancelled(n - 1) && sent == []
      && Chosen(env, vm, capability, n, Tried(attempts), None)
  }

  /** Every attempt was picked, no target twice, and every attempt but the last let the loop go on. */
  ghost predicate Sequential(env: Environment, vm: VirtualModel, capability: string, attempts: seq<string>)
  {
    && (forall i :: 0 <= i < |attempts| ==> Picked(env, vm, capability, attempts, i))
    && (forall i, j :: 0 <= i < j < |attempts| ==> attempts[i] != attempts[j])
    && Tried(attempts) <= Trims(vm.targets)
    && forall i :: 0 <= i < |attempts| - 1 ==> Failed(env, attempts, i) && !env.cancelled(i)
  }

  /** Every attempt's outcome was reported to the router, in order. */
  ghost predicate Reported(env: Environment, attempts: seq<string>, statuses: seq<int>)
  {
    && |statuses| == |attempts|
    && forall i :: 0 <= i < |attempts| ==> statuses[i] == OutcomeStatus(env.json, env.behave(i, attempts[i]))
  }

  /** The last target becomes the preferred one exactly when it succeeded under the priority strategy. */
  ghost predicate Remembered(env: Environment, vm: VirtualModel, attempts: seq<string>, preferred: Option<string>)
  {
    var n := |attempts|;
    preferred == if n > 0 && vm.strategy == PRIORITY && Succeeded(env.json, env.behave(n - 1, attempts[n - 1]))
                 then Some(attempts[n - 1]) else None
  }

  /** A request for a virtual model, whatever the providers do: at most one attempt for each
      target, each picked afresh, and only the last one's status and bytes reach the client. */
  method Serve(env: Environment, vm: VirtualModel, capability: string)
      returns (attempts: seq<string>, outcome: Outcome, sent: seq<Sent>, statuses: seq<int>, preferred: Option<string>)
    ensures Reported(env, attempts, statuses) && Remembered(env, vm, attempts, preferred)
    ensures preferred.Some? ==> vm.strategy == "priority" && outcome == Answered(None) && preferred.value == attempts[|attempts| - 1]
    ensures Sequential(env, vm, capability, attempts) && |attempts| <= |vm.targets|
    ensures Concluded(env, vm, capability, attempts, outcome, sent)
  {
    hide Trim, Retriable, Fed, Output, Chosen, Committed, StatusFrom, Ran, OutcomeStatus, Sequential;
    attempts, statuses, preferred := [], [], None;
    NoneTried(env, vm, capability);
    var route := Resolve(env, vm, capability, 0, {});
    var client := new Client();
    if route.None? {
      return attempts, NoTarget, client.sent, statuses, preferred;
    }
    assert Tried([]) == {};
    while true
      invariant fresh(client) && client.sent == [] && preferred == None && Reported(env, attempts, statuses)
      invariant Sequential(env, vm, capability, attempts) && |attempts| <= |vm.targets|
      invariant attempts != [] ==> Failed(env, attempts, |attempts| - 1) && !env.cancelled(|attempts| - 1)
      invariant route.Some? && Chosen(env, vm, capability, |attempts|, Tried(attempts), route)
      decreases |vm.targets| - |attempts|
    {
      var target := Trim(route.value);
      var n := |attempts|;
      Extends(env, vm, capability, attempts, route.value);
      attempts := attempts + [target];
      var b := env.behave(n, target);
      var writer, status := RunAttempt(client, n, env.json, b);
      statuses := statuses + [status];
      CommitsExactly(env.json, b);
      var succeeded := b.error.None? && status < 400;
      RetriedWhen(env.json, b, status);
      if succeeded || writer.committed {
        if succeeded && vm.strategy == PRIORITY {
          preferred := Some(target);
          assert b.error == None;
        }
        if !writer.committed {
          writer.CommitToReal();
        }
        AllSent(n, env.json, b);
        return attempts, Answered(b.error), client.sent, statuses, preferred;
      }
      if !Eligible(status, b.error.Some?) {
        writer.CommitToReal();
        AllSent(n, env.json, b);
        return attempts, Answered(b.error), client.sent, statuses, preferred;
      }
      if env.cancelled(n) {
        return attempts, Cancelled, client.sent, statuses, preferred;
      }
      route := Resolve(env, vm, capability, n + 1, Tried(attempts));
      if route.None? {
        return attempts, Exhausted, client.sent, statuses, preferred;
      }
    }
  }

  lemma NoneTried(env: Environment, vm: VirtualModel, capability: string)
    ensures Sequential(env, vm, capability, []) && Tried([]) == {}
  {
  }

  lemma RetriedWhen(json: Bytes -> Bytes, b: Behaviour, status: int)
    requires status == OutcomeStatus(json, b)
    ensures Succeeded(json, b) <==> b.error.None? && status < 400
    ensures Retriable(json, b) <==>
              !(b.error.None? && status < 400) && !Ended(json, b).0.committed && Eligible(status, b.error.Some?)
  {
  }

  /** What went out during the attempt and what its final commit adds make up the delivery. */
  lemma AllSent(n: nat, json: Bytes -> Bytes, b: Behaviour)
    ensures Tag(n, Delivered(json, b)) == Tag(n, Ended(json, b).1) + Tag(n, Committed(Ended(json, b).0).1)
    ensures Ended(json, b).0.committed ==> Delivered(json, b) == Ended(json, b).1
  {
    TagAppend(n, Ended(json, b).1, Committed(Ended(json, b).0).1);
  }

  /** One more attempt is always on a target of its own. */
  lemma Extends(env: Environment, vm: VirtualModel, capability: string, attempts: seq<string>, target: string)
    requires Sequential(env, vm, capability, attempts)
    requires attempts != [] ==> Failed(env, attempts, |attempts| - 1) && !env.cancelled(|attempts| - 1)
    requires Chosen(env, vm, capability, |attempts|, Tried(attempts), Some(target))
    ensures Sequential(env, vm, capability, attempts + [Trim(target)]) && |attempts| < |vm.targets|
  {
    hide Trim, Chosen, Retriable;
    ChosenIsNew(env, vm, capability, |attempts|, Tried(attempts), target);
    var more := attempts + [Trim(target)];
    assert Tried(more) == Tried(attempts) + {Trim(target)};
    forall i | 0 <= i < |more| ensures Picked(env, vm, capability, more, i) {
      if i < |attempts| {
        assert Picked(env, vm, capability, attempts, i);
        assert more[..i] == attempts[..i];
      } else {
        assert more[..i] == attempts;
      }
    }
    forall i | 0 <= i < |more| - 1 ensures Failed(env, more, i) && !env.cancelled(i) {
      assert more[i] == attempts[i];
      assert Failed(env, attempts, i);
    }
    NoRepeatsFit(more, Trims(vm.targets));
    TrimsAreFew(vm.targets);
  }

  lemma {:induction false} NoRepeatsFit(s: seq<string>, bound: set<string>)
    requires forall i, j :: 0 <= i < j < |s| ==> s[i] != s[j]
    requires Tried(s) <= bound
    ensures |s| <= |bound|
  {
    if s != [] {
      var init, last := s[..|s| - 1], s[|s| - 1];
      forall t | t in Tried(init) ensures t in bound - {last} {
        assert t in s;
      }
      assert last in s;
      NoRepeatsFit(init, bound - {last});
    }
  }

  lemma {:induction false} TrimsAreFew(targets: seq<string>)
    ensures |Trims(targets)| <= |targets|
  {
    hide Trim;
    if targets != [] {
      TrimsAreFew(targets[..|targets| - 1]);
      assert targets == targets[..|targets| - 1] + [targets[|targets| - 1]];
      TrimsSnoc(targets[..|targets| - 1], targets[|targets| - 1]);
    }
  }

  // ---------------------------------------------------------------- consequences

  /** Whatever happens, the client sees one attempt: one header with that attempt's status, then
      exactly its rewritten bytes; or it sees nothing. */
  lemma {:induction false} OneAttemptIsSeen(env: Environment, vm: VirtualModel, capability: string, attempts: seq<string>, outcome: Outcome, sent: seq<Sent>)
    requires Concluded(env, vm, capability, attempts, outcome, sent)
    ensures forall s :: s in sent ==> s.attempt == |attempts| - 1
    ensures sent != [] <==> outcome.Answered?
    ensures sent != [] ==>
              var b := env.behave(|attempts| - 1, attempts[|attempts| - 1]);
              && sent[0].call == Header(Shown(b))
              && (forall i :: 0 < i < |sent| ==> sent[i].call.Body?)
              && sent == Tag(|attempts| - 1, Delivered(env.json, b))
              && Written(Delivered(env.json, b)[1..]) == Written(Output(env.json, b.ops))
  {
    hide Chosen, Written, Output, StatusFrom, Delivered, Retriable, Shown;
    if outcome.Answered? {
      var b := env.behave(|attempts| - 1, attempts[|attempts| - 1]);
      DeliveredIsOutput(env.json, b);
      var calls := Delivered(env.json, b);
      forall i | 0 < i < |sent| ensures sent[i].call.Body? {
        assert sent[i].call == calls[1..][i - 1];
      }
    }
  }

  /** When the router gives up with every target tried, none was left out: a validated model whose
      attempts all failed over has had each of its targets dispatched or found unroutable. */
  lemma {:induction false} ExhaustedMeansTried(env: Environment, vm: VirtualModel, capability: string, attempts: seq<string>, sent: seq<Sent>, i: nat)
    requires Concluded(env, vm, capability, attempts, Exhausted, sent) && i < |Candidates(env, vm, |attempts|)|
    requires forall t :: t in Candidates(env, vm, |attempts|) ==>
               A.Judge(env.snapshot(|attempts|), t, capability, {}).Routable? && ProviderPresent(env, |attempts|, t)
    ensures Trim(Candidates(env, vm, |attempts|)[i]) in attempts
  {
    hide Trim, A.Evaluate, Ordered, Retriable;
    var n := |attempts|;
    var c := Candidates(env, vm, n);
    assert c[i] in c;
    forall k | 0 <= k < |c| ensures ProviderPresent(env, n, c[k]) {
      assert c[k] in c;
    }
    assert !Routable(env, capability, n, Tried(attempts), c[i]);
  }

  /** Only the priority strategy remembers: under any other one the configured order is tried, whatever
      succeeded before; under priority a remembered target that is still configured is considered first,
      and the others follow in their order. */
  lemma {:induction false} OrderExactly(env: Environment, vm: VirtualModel, n: nat)
    ensures vm.strategy != "priority" || env.preferred(n) == "" ==> Candidates(env, vm, n) == vm.targets
    ensures vm.strategy == "priority" && env.preferred(n) != "" && (exists i :: 0 <= i < |vm.targets| && Trim(vm.targets[i]) == Trim(env.preferred(n))) ==>
              && Candidates(env, vm, n) != [] && Candidates(env, vm, n)[0] == env.preferred(n)
              && exists at :: PickedAt(at, Candidates(env, vm, n)[1..], vm.targets, env.preferred(n))
    ensures (forall i :: 0 <= i < |vm.targets| ==> Trim(vm.targets[i]) != Trim(env.preferred(n))) ==> Candidates(env, vm, n) == vm.targets
  {
    hide Trim, PickedAt;
    var at := OthersKeepOrder(vm.targets, env.preferred(n));
    if i :| 0 <= i < |vm.targets| && Trim(vm.targets[i]) == Trim(env.preferred(n)) {
      assert vm.targets[i] in vm.targets;
      assert Trim(env.preferred(n)) in Trims(vm.targets);
      assert ([env.preferred(n)] + Others(vm.targets, env.preferred(n)))[1..] == Others(vm.targets, env.preferred(n));
    }
  }
}
