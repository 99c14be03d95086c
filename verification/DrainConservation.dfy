/** No provider instance is ever leaked: what the drain protocol takes out of use it closes. */
module DrainConservation {
  import opened Common
  import opened RuntimeSnapshot
  import opened DrainProtocol
  import opened DrainProofs
  import opened Lifecycle

  ghost predicate Waits(drains: seq<Drain>, i: nat)
  {
    exists k :: 0 <= k < |drains| && i in drains[k].toClose
  }

  /** Somebody answers for the instance. */
  ghost predicate Owned(st: State, i: nat)
  {
    i in InUse(st.effective, st.mutation) || Waits(st.drains, i) || i in st.closes
  }

  /** What a mutation has built is in the set it is about to publish. */
  predicate Placed(m: Mutation)
  {
    m.Building? ==> m.made <= m.next.Values
  }

  ghost predicate Conserved(st: State, given: set<nat>)
  {
    Placed(st.mutation) && forall i :: i in st.built && i !in given ==> Owned(st, i)
  }

  /** The mutation alone moved, and gave up nothing it used. */
  lemma StillUsed(st: State, st': State, i: nat)
    requires Owned(st, i) && st'.drains == st.drains && st.closes <= st'.closes
    requires i in InUse(st.effective, st.mutation) ==> i in InUse(st'.effective, st'.mutation) || i in st'.closes
    ensures Owned(st', i)
  {
  }

  lemma BuildConserves(st: State, given: set<nat>, step: Step)
    requires Inv(st) && Conserved(st, given) && Enabled(st, step)
    requires step.BeginMutation? || step.Keep? || step.Build? || step.BuildRejected? || step.BuildFailed?
    ensures Conserved(Apply(st, step), given)
  {
    var st' := Apply(st, step);
    if step.Keep? || step.Build? {
      var m, id := st.mutation, step.id;
      forall i | i in m.made ensures i in st'.mutation.next.Values {
        var a :| a in m.next && m.next[a] == i;
        assert st'.mutation.next[a] == i;
      }
      assert step.Build? ==> st'.mutation.next[id] == step.inst;
    }
    forall i | i in st'.built && i !in given ensures Owned(st', i) {
      if i in st.built {
        assert Owned(st, i);
        StillUsed(st, st', i);
      }
    }
  }

  lemma EndConserves(st: State, given: set<nat>, step: Step)
    requires Inv(st) && Conserved(st, given) && Enabled(st, step)
    requires step.AbortClose? || step.AbortDone? || step.NothingChanged? || step.PublishFailed?
    ensures Conserved(Apply(st, step), given)
  {
    var st' := Apply(st, step);
    forall i | i in st'.built && i !in given ensures Owned(st', i) {
      assert Owned(st, i);
      StillUsed(st, st', i);
    }
  }

  lemma PublishConserves(st: State, given: set<nat>, step: Step)
    requires Inv(st) && Conserved(st, given) && Enabled(st, step)
    requires step.PublishSwap? || step.PublishRetire? || step.PublishReturn?
    ensures Conserved(Apply(st, step), given)
  {
    var st' := Apply(st, step);
    forall i | i in st'.built && i !in given ensures Owned(st', i) {
      assert Owned(st, i);
      StillUsed(st, st', i);
    }
  }

  /** What leaves the effective set goes into a drain. */
  lemma CommitConserves(st: State, given: set<nat>)
    requires Inv(st) && Conserved(st, given) && Enabled(st, Commit)
    ensures Conserved(Apply(st, Commit), given)
  {
    var st' := Apply(st, Commit);
    var Committing(next, retired, waiting) := st.mutation;
    forall i | i in st'.built && i !in given ensures Owned(st', i) {
      assert Owned(st, i);
      if Waits(st.drains, i) {
        var k :| 0 <= k < |st.drains| && i in st.drains[k].toClose;
        assert st'.drains[k] == st.drains[k];
      } else if i in st.effective.Values && i !in next.Values {
        var id :| id in st.effective && st.effective[id] == i;
        assert i in Dropped(st.effective, next);
        assert st'.drains[|st.drains|].toClose == retired;
      }
    }
  }

  /** What leaves a drain is closed. */
  lemma DrainConserves(st: State, given: set<nat>, step: Step)
    requires Inv(st) && Conserved(st, given) && Enabled(st, step) && (step.DrainClose? || step.DrainTimeout?)
    ensures Conserved(Apply(st, step), given)
  {
    var st' := Apply(st, step);
    forall i | i in st'.built && i !in given ensures Owned(st', i) {
      assert Owned(st, i);
      if Waits(st.drains, i) {
        var k :| 0 <= k < |st.drains| && i in st.drains[k].toClose;
        assert i in st'.drains[k].toClose || i in st'.closes;
      }
    }
  }

  lemma OtherConserves(st: State, given: set<nat>, step: Step)
    requires Conserved(st, given) && Enabled(st, step)
    requires step.Load? || step.TryAcquire? || step.Release? || step.Signal? || step.Untrack?
          || step.CloseManager? || step.CloseRetire? || step.CloseUnlock?
    ensures Conserved(Apply(st, step), given)
  {
    var st' := Apply(st, step);
    assert st'.built == st.built && st'.drains == st.drains && st'.closes == st.closes && st'.mutation == st.mutation;
    forall i | i in st'.built && i !in given ensures Owned(st', i) {
      assert Owned(st, i);
    }
  }

  lemma NextConserves(st: State, given: set<nat>, step: Step)
    requires Inv(st) && Conserved(st, given)
    ensures Conserved(Next(st, step), given)
  {
    hide Inv, Conserved, Enabled, Apply;
    if Enabled(st, step) {
      match step
      case BeginMutation | Keep(_) | Build(_, _) | BuildRejected(_) | BuildFailed => BuildConserves(st, given, step);
      case AbortClose(_) | AbortDone | NothingChanged | PublishFailed => EndConserves(st, given, step);
      case PublishSwap | PublishRetire | PublishReturn(_) => PublishConserves(st, given, step);
      case Commit => CommitConserves(st, given);
      case DrainTimeout(_) | DrainClose(_, _) => DrainConserves(st, given, step);
      case _ => OtherConserves(st, given, step);
    }
  }

  lemma {:induction false} RunsConserve(given: set<nat>, steps: seq<Step>)
    ensures Conserved(Exec(Init(given), steps), given)
  {
    if steps != [] {
      var init := steps[..|steps| - 1];
      RunsConserve(given, init);
      InitOk(given);
      RunsKeepInv(Init(given), init);
      hide Inv, Conserved;
      NextConserves(Exec(Init(given), init), given, steps[|steps| - 1]);
    }
  }

  /** In every reachable state, every instance a factory ever returned is in use, waits in exactly one
      drain, or has been closed exactly once, and only one of the three. */
  lemma {:induction false} NothingIsLeaked(given: set<nat>, steps: seq<Step>, i: nat)
    ensures var st := Exec(Init(given), steps);
      var used, waits, closed := i in InUse(st.effective, st.mutation), Waits(st.drains, i), st.closes[i] == 1;
      && (i in st.built && i !in given ==> used || waits || closed)
      && !(used && waits) && !(used && closed) && !(waits && closed) && st.closes[i] <= 1
      && (forall j, k :: 0 <= j < |st.drains| && 0 <= k < |st.drains| && i in st.drains[j].toClose && i in st.drains[k].toClose ==> j == k)
  {
    RunsConserve(given, steps);
    InitOk(given);
    RunsKeepInv(Init(given), steps);
    var st := Exec(Init(given), steps);
    hide Exec, ReachOk, SnapsOk, PointerOk, LockOk, MutationOk;
    if i in st.built && i !in given {
      assert Owned(st, i);
    }
  }

  // ---------------------------------------------------------------- every drain closes what it was given

  lemma DrainStays(st: State, step: Step, k: nat, i: nat)
    requires k < |st.drains| && (i in st.drains[k].toClose || i in st.closes)
    ensures var st' := Next(st, step); k < |st'.drains| && (i in st'.drains[k].toClose || i in st'.closes)
  {
  }

  lemma {:induction false} DrainRuns(st: State, more: seq<Step>, k: nat, i: nat)
    requires k < |st.drains| && (i in st.drains[k].toClose || i in st.closes)
    ensures var st' := Exec(st, more); k < |st'.drains| && (i in st'.drains[k].toClose || i in st'.closes)
  {
    hide Next;
    if more != [] {
      DrainRuns(st, more[..|more| - 1], k, i);
      DrainStays(Exec(st, more[..|more| - 1]), more[|more| - 1], k, i);
    }
  }

  /** An instance that waits in a drain stays there until it is closed, once: a drain that has become empty
      has closed each instance it ever held exactly once. */
  lemma {:induction false} DrainClosesAll(given: set<nat>, steps: seq<Step>, more: seq<Step>, k: nat, i: nat)
    requires k < |Exec(Init(given), steps).drains| && i in Exec(Init(given), steps).drains[k].toClose
    ensures var st' := Exec(Exec(Init(given), steps), more);
      && k < |st'.drains|
      && (i in st'.drains[k].toClose <==> st'.closes[i] == 0)
      && (i !in st'.drains[k].toClose <==> st'.closes[i] == 1)
  {
    var st := Exec(Init(given), steps);
    DrainRuns(st, more, k, i);
    InitOk(given);
    RunsKeepInv(Init(given), steps);
    RunsKeepInv(st, more);
    hide Exec, ReachOk, SnapsOk, PointerOk, LockOk, MutationOk;
  }

  /** And it can become empty as soon as the snapshots it waits for have drained: closing what is left, one
      by one, is possible and closes all of it. */
  lemma {:induction false} DrainCanFinish(st: State, k: nat) returns (steps: seq<Step>)
    requires Inv(st) && k < |st.drains| && st.drains[k].waiting <= Drained(st)
    ensures var st' := Exec(st, steps);
      && k < |st'.drains| && st'.drains[k].toClose == {}
      && forall i :: i in st.drains[k].toClose ==> st'.closes[i] == 1
    decreases |st.drains[k].toClose|
  {
    steps := [];
    if st.drains[k].toClose != {} {
      var i :| i in st.drains[k].toClose;
      var step := DrainClose(k, i);
      var next := Next(st, step);
      NextKeepsInv(st, step);
      assert next.drains[k].toClose == st.drains[k].toClose - {i} && next.drains[k].waiting == st.drains[k].waiting;
      assert Drained(next) == Drained(st) && next.closes[i] == st.closes[i] + 1;
      var rest := DrainCanFinish(next, k);
      hide Inv, Next;
      ExecOne(st, step);
      ExecAppend(st, [step], rest);
      steps := [step] + rest;
      RunsKeepInv(next, rest);
      DrainRuns(next, rest, k, i);
      ClosedOnce(Exec(next, rest), i);
    }
  }

  lemma ClosedOnce(st: State, i: nat)
    requires Inv(st)
    ensures i in st.closes ==> st.closes[i] == 1
  {
  }
}
