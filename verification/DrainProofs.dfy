/** Every step of the drain protocol preserves the invariant, and what that means for runs. */
module DrainProofs {
  import opened Common
  import opened RuntimeSnapshot
  import opened DrainProtocol

  lemma InitOk(given: set<nat>)
    ensures Inv(Init(given))
  {
  }

  /** Updating one snapshot's lease state keeps its members and never undoes drained. */
  ghost predicate Evolves(a: Snap, b: Snap)
  {
    a.members == b.members && a.generation == b.generation && (a.drained ==> b.drained)
  }

  lemma ReachSurvives(st: State, s: nat, snap: Snap)
    requires Inv(st) && s < |st.snaps| && Evolves(st.snaps[s], snap)
    ensures ReachOk(st.snaps[s := snap], st.built, st.closes, st.drains,
                    Unpublished(st.mutation), Leaving(st.mutation), Waiting(st.mutation, st.lock))
  {
    var snaps := st.snaps[s := snap];
    forall k | 0 <= k < |st.drains| ensures Covered(snaps, st.drains[k].toClose, st.drains[k].waiting) {
      assert Covered(st.snaps, st.drains[k].toClose, st.drains[k].waiting);
    }
  }

  lemma SnapsAfterAcquire(snaps: seq<Snap>, leases: seq<Lease>, loads: map<nat, nat>, r: nat)
    requires SnapsOk(snaps, leases, loads) && r < |snaps| && !snaps[r].retired
    ensures SnapsOk(snaps[r := Acquired(snaps[r])], leases + [Lease(r, false)], loads)
  {
    var snaps' := snaps[r := Acquired(snaps[r])];
    forall s | 0 <= s < |snaps'| ensures SnapOk(snaps'[s], s, leases + [Lease(r, false)]) {
      assert SnapOk(snaps[s], s, leases);
      HeldAfterAcquire(leases, r, s);
    }
  }

  lemma AcquireStep(st: State, t: nat)
    requires Inv(st) && Enabled(st, TryAcquire(t))
    ensures Inv(Apply(st, TryAcquire(t)))
  {
    var r := st.loads[t];
    if !st.snaps[r].retired {
      SnapsAfterAcquire(st.snaps, st.leases, st.loads, r);
      ReachSurvives(st, r, Acquired(st.snaps[r]));
      var snaps := st.snaps[r := Acquired(st.snaps[r])];
      assert SnapsOk(snaps, st.leases + [Lease(r, false)], st.loads - {t});
      assert PointerOk(snaps, st.current, st.closed, st.lock, st.live);
    }
  }

  lemma ReleaseStep(st: State, l: nat)
    requires Inv(st) && Enabled(st, Release(l))
    ensures Inv(Apply(st, Release(l)))
  {
    var st' := Apply(st, Release(l));
    var r := st.leases[l].snap;
    forall s | 0 <= s < |st'.snaps| ensures SnapOk(st'.snaps[s], s, st'.leases) {
      assert SnapOk(st.snaps[s], s, st.leases);
      HeldAfterRelease(st.leases, l, s);
      HeldIsPositive(st.leases, l);
    }
    ReachSurvives(st, r, Released(st.snaps[r]));
  }

  lemma SignalStep(st: State, r: nat)
    requires Inv(st) && Enabled(st, Signal(r))
    ensures Inv(Apply(st, Signal(r)))
  {
    ReachSurvives(st, r, Signalled(st.snaps[r]));
  }

  lemma SnapsAfterRetire(snaps: seq<Snap>, leases: seq<Lease>, loads: map<nat, nat>, r: nat)
    requires SnapsOk(snaps, leases, loads) && r < |snaps|
    ensures SnapsOk(snaps[r := Retired(snaps[r])], leases, loads)
  {
  }

  lemma PublishRetireStep(st: State)
    requires Inv(st) && Enabled(st, PublishRetire)
    ensures Inv(Apply(st, PublishRetire))
  {
    var r := st.lock.outgoing;
    var snaps := st.snaps[r := Retired(st.snaps[r])];
    SnapsAfterRetire(st.snaps, st.leases, st.loads, r);
    ReachSurvives(st, r, Retired(st.snaps[r]));
    assert PointerOk(snaps, st.current, st.closed, OldRetired(st.lock.prior), st.live);
  }

  lemma CloseRetireStep(st: State, r: nat)
    requires Inv(st) && Enabled(st, CloseRetire(r))
    ensures Inv(Apply(st, CloseRetire(r)))
  {
    var snaps := st.snaps[r := Retired(st.snaps[r])];
    SnapsAfterRetire(st.snaps, st.leases, st.loads, r);
    ReachSurvives(st, r, Retired(st.snaps[r]));
    assert PointerOk(snaps, st.current, st.closed, Closing(st.lock.todo - {r}), st.live);
  }

  lemma BeginStep(st: State)
    requires Inv(st) && Enabled(st, BeginMutation)
    ensures Inv(Apply(st, BeginMutation))
  {
    assert InUse(st.effective, Building(map[], {}, {})) == InUse(st.effective, Idle);
  }

  lemma KeepStep(st: State, id: nat)
    requires Inv(st) && Enabled(st, Keep(id))
    ensures Inv(Apply(st, Keep(id)))
  {
  }

  lemma BuildStep(st: State, id: nat, i: nat)
    requires Inv(st) && Enabled(st, Build(id, i))
    ensures Inv(Apply(st, Build(id, i)))
  {
    var m, m' := st.mutation, Apply(st, Build(id, i)).mutation;
    assert InUse(st.effective, m') == InUse(st.effective, m) + {i};
    assert OwnersOk(InUse(st.effective, m) + {i}, st.drains, st.built + {i}, st.closes);
    assert MutationOk(m', st.effective, st.closes);
  }

  lemma FailStep(st: State, step: Step)
    requires Inv(st) && Enabled(st, step)
    requires step.BuildFailed? || step.PublishFailed?
    ensures Inv(Apply(st, step))
  {
    assert InUse(st.effective, Apply(st, step).mutation) == InUse(st.effective, st.mutation);
    forall i | i in st.mutation.made ensures i !in st.effective.Values {}
  }

  lemma FinishStep(st: State, step: Step)
    requires Inv(st) && Enabled(st, step)
    requires step.AbortDone? || step.NothingChanged?
    ensures Inv(Apply(st, step))
  {
    assert InUse(st.effective, Idle) <= InUse(st.effective, st.mutation);
  }

  lemma OwnersAfterClose(used: set<nat>, drains: seq<Drain>, built: set<nat>, closes: multiset<nat>, i: nat)
    requires OwnersOk(used, drains, built, closes)
    requires i !in closes && i !in used && forall k :: 0 <= k < |drains| ==> i !in drains[k].toClose
    ensures OwnersOk(used, drains, built + {i}, closes + multiset{i})
  {
  }

  lemma RejectStep(st: State, i: nat)
    requires Inv(st) && Enabled(st, BuildRejected(i))
    ensures Inv(Apply(st, BuildRejected(i)))
  {
    var m' := Apply(st, BuildRejected(i)).mutation;
    assert InUse(st.effective, m') == InUse(st.effective, st.mutation);
    OwnersAfterClose(InUse(st.effective, m'), st.drains, st.built, st.closes, i);
    assert MutationOk(m', st.effective, st.closes + multiset{i});
  }

  lemma AbortCloseStep(st: State, i: nat)
    requires Inv(st) && Enabled(st, AbortClose(i))
    ensures Inv(Apply(st, AbortClose(i)))
  {
    var m' := Apply(st, AbortClose(i)).mutation;
    assert InUse(st.effective, m') == InUse(st.effective, st.mutation) - {i};
    OwnersAfterClose(InUse(st.effective, m'), st.drains, st.built, st.closes, i);
    assert st.built + {i} == st.built;
    assert MutationOk(m', st.effective, st.closes + multiset{i});
  }

  lemma ReplacementFromBuild(effective: map<nat, nat>, next: map<nat, nat>, made: set<nat>)
    requires Injective(effective) && Injective(next) && Derived(effective, next, made) && made !! effective.Values
    ensures ReplacementOk(effective, next, Dropped(effective, next))
    ensures next.Values <= effective.Values + made
  {
    forall i | i in Dropped(effective, next) ensures i in effective.Values && i !in next.Values {}
  }

  lemma SwapStep(st: State)
    requires Inv(st) && Enabled(st, PublishSwap)
    ensures Inv(Apply(st, PublishSwap))
  {
    var st' := Apply(st, PublishSwap);
    var Building(next, made, _) := st.mutation;
    HeldOutOfRange(st.leases, |st.snaps|);
    assert SnapsOk(st'.snaps, st'.leases, st'.loads);
    assert PointerOk(st'.snaps, st'.current, st'.closed, st'.lock, st'.live);
    ReplacementFromBuild(st.effective, next, made);
    assert MutationOk(st'.mutation, st'.effective, st'.closes);
    assert InUse(st.effective, st'.mutation) <= InUse(st.effective, st.mutation);
    assert OwnersOk(InUse(st.effective, st'.mutation), st.drains, st.built, st.closes);
    SwapReach(st);
  }

  lemma SwapReach(st: State)
    requires Inv(st) && Enabled(st, PublishSwap)
    ensures var st' := Apply(st, PublishSwap);
      ReachOk(st'.snaps, st'.built, st'.closes, st'.drains, {}, Leaving(st'.mutation), st.live)
  {
    var st' := Apply(st, PublishSwap);
    var Building(next, made, _) := st.mutation;
    ReplacementFromBuild(st.effective, next, made);
    forall i | i in next.Values ensures i in InUse(st.effective, st.mutation) {}
    forall k | 0 <= k < |st.drains| ensures Covered(st'.snaps, st.drains[k].toClose, st.drains[k].waiting) {
      assert Covered(st.snaps, st.drains[k].toClose, st.drains[k].waiting);
    }
  }

  lemma CoveredByReturn(st: State, insts: set<nat>, prior: set<nat>, waiting: set<nat>)
    requires Covered(st.snaps, insts, prior) && prior - Drained(st) <= waiting
    ensures Covered(st.snaps, insts, waiting)
  {
  }

  lemma ReturnStep(st: State, waiting: set<nat>)
    requires Inv(st) && Enabled(st, PublishReturn(waiting))
    ensures Inv(Apply(st, PublishReturn(waiting)))
  {
    CoveredByReturn(st, st.mutation.retired, st.lock.prior, waiting);
    assert PointerOk(st.snaps, st.current, st.closed, Free, st.live);
    assert InUse(st.effective, Committing(st.mutation.next, st.mutation.retired, waiting))
        == InUse(st.effective, st.mutation);
  }

  lemma CommitStep(st: State)
    requires Inv(st) && Enabled(st, Commit)
    ensures Inv(Apply(st, Commit))
  {
    var st' := Apply(st, Commit);
    var Committing(next, retired, waiting) := st.mutation;
    assert InUse(next, Idle) <= InUse(st.effective, st.mutation);
    assert retired <= InUse(st.effective, st.mutation);
    assert OwnersOk(InUse(next, Idle), st'.drains, st.built, st.closes);
  }

  lemma TimeoutStep(st: State, k: nat)
    requires Inv(st) && Enabled(st, DrainTimeout(k))
    ensures Inv(Apply(st, DrainTimeout(k)))
  {
    var drains := Apply(st, DrainTimeout(k)).drains;
    assert OwnersOk(InUse(st.effective, st.mutation), drains, st.built, st.closes);
  }

  lemma OwnersAfterDrain(used: set<nat>, drains: seq<Drain>, built: set<nat>, closes: multiset<nat>, k: nat, i: nat)
    requires OwnersOk(used, drains, built, closes) && k < |drains| && i in drains[k].toClose
    ensures OwnersOk(used, drains[k := drains[k].(toClose := drains[k].toClose - {i})], built, closes + multiset{i})
  {
  }

  lemma DrainCloseStep(st: State, k: nat, i: nat)
    requires Inv(st) && Enabled(st, DrainClose(k, i))
    ensures Inv(Apply(st, DrainClose(k, i)))
  {
    var drains := Apply(st, DrainClose(k, i)).drains;
    OwnersAfterDrain(InUse(st.effective, st.mutation), st.drains, st.built, st.closes, k, i);
    assert Covered(st.snaps, st.drains[k].toClose, st.drains[k].waiting);
    forall j | 0 <= j < |drains| ensures Covered(st.snaps, drains[j].toClose, drains[j].waiting) {
      assert Covered(st.snaps, st.drains[j].toClose, st.drains[j].waiting);
    }
    assert MutationOk(st.mutation, st.effective, st.closes + multiset{i});
  }

  lemma UntrackStep(st: State, s: nat)
    requires Inv(st) && Enabled(st, Untrack(s))
    ensures Inv(Apply(st, Untrack(s)))
  {
    assert PointerOk(st.snaps, st.current, st.closed, st.lock, st.live - {s});
  }

  lemma CloseManagerStep(st: State, step: Step)
    requires Inv(st) && Enabled(st, step) && (step.CloseManager? || step.CloseUnlock?)
    ensures Inv(Apply(st, step))
  {
    var st' := Apply(st, step);
    assert PointerOk(st.snaps, st'.current, st'.closed, st'.lock, st.live);
  }

  lemma NextKeepsInv(st: State, step: Step)
    requires Inv(st)
    ensures Inv(Next(st, step))
  {
    hide Inv, Enabled, Apply;
    if Enabled(st, step) {
      match step
      case TryAcquire(t) => AcquireStep(st, t);
      case Release(l) => ReleaseStep(st, l);
      case Signal(s) => SignalStep(st, s);
      case BeginMutation => BeginStep(st);
      case Keep(id) => KeepStep(st, id);
      case Build(id, i) => BuildStep(st, id, i);
      case BuildRejected(i) => RejectStep(st, i);
      case AbortClose(i) => AbortCloseStep(st, i);
      case BuildFailed | PublishFailed => FailStep(st, step);
      case AbortDone | NothingChanged => FinishStep(st, step);
      case PublishSwap => SwapStep(st);
      case PublishRetire => PublishRetireStep(st);
      case CloseRetire(s) => CloseRetireStep(st, s);
      case PublishReturn(waiting) => ReturnStep(st, waiting);
      case Commit => CommitStep(st);
      case DrainTimeout(k) => TimeoutStep(st, k);
      case DrainClose(k, i) => DrainCloseStep(st, k, i);
      case Untrack(s) => UntrackStep(st, s);
      case CloseManager | CloseUnlock => CloseManagerStep(st, step);
      case Load(_) => LoadStep(st, step);
    }
  }

  lemma LoadStep(st: State, step: Step)
    requires Inv(st) && Enabled(st, step) && step.Load?
    ensures Inv(Apply(st, step))
  {
  }

  /** The invariant holds in every state of every interleaving. */
  lemma {:induction false} RunsKeepInv(st: State, steps: seq<Step>)
    requires Inv(st)
    ensures Inv(Exec(st, steps))
  {
    if steps != [] {
      RunsKeepInv(st, steps[..|steps| - 1]);
      NextKeepsInv(Exec(st, steps[..|steps| - 1]), steps[|steps| - 1]);
    }
  }

  // ---------------------------------------------------------------- what runs guarantee

  /** No unreleased lease pins a snapshot that contains instance `i`. */
  ghost predicate Unpinned(st: State, i: nat)
  {
    forall l :: 0 <= l < |st.leases| && !st.leases[l].released && st.leases[l].snap < |st.snaps| ==>
      i !in st.snaps[st.leases[l].snap].members
  }

  lemma DrainedHasNoLease(st: State, l: nat)
    requires Inv(st) && l < |st.leases| && !st.leases[l].released
    ensures st.leases[l].snap < |st.snaps| && !st.snaps[st.leases[l].snap].drained
  {
    HeldIsPositive(st.leases, l);
    assert SnapOk(st.snaps[st.leases[l].snap], st.leases[l].snap, st.leases);
  }

  lemma ClosingIsUnpinned(st: State, step: Step, i: nat)
    requires Inv(st) && Enabled(st, step)
    requires (step.DrainClose? || step.AbortClose? || step.BuildRejected?) && i == step.inst
    ensures Unpinned(st, i) && i !in st.effective.Values && i !in st.closes
  {
    if step.DrainClose? {
      assert Covered(st.snaps, st.drains[step.drain].toClose, st.drains[step.drain].waiting);
    }
    forall l | 0 <= l < |st.leases| && !st.leases[l].released && st.leases[l].snap < |st.snaps|
      ensures i !in st.snaps[st.leases[l].snap].members
    {
      DrainedHasNoLease(st, l);
    }
  }

  /** Whenever any step of any run closes an instance, no unreleased lease can reach it, it is
      not effective, and it has not been closed before. */
  lemma {:induction false} CloseIsSafe(given: set<nat>, steps: seq<Step>, step: Step, i: nat)
    ensures var st := Exec(Init(given), steps);
      Next(st, step).closes[i] != st.closes[i] ==>
      && Unpinned(st, i)
      && i !in st.effective.Values
      && i !in st.closes && Next(st, step).closes[i] == 1
  {
    var st := Exec(Init(given), steps);
    InitOk(given);
    RunsKeepInv(Init(given), steps);
    if Next(st, step).closes[i] != st.closes[i] {
      ClosingIsUnpinned(st, step, i);
    }
  }

  /** A closed instance stays out of reach: no lease, held now or taken later, pins it. */
  lemma {:induction false} ClosedStaysUnpinned(given: set<nat>, steps: seq<Step>, i: nat)
    ensures var st := Exec(Init(given), steps);
      i in st.closes ==> Unpinned(st, i) && i !in st.effective.Values && st.closes[i] == 1
  {
    var st := Exec(Init(given), steps);
    InitOk(given);
    RunsKeepInv(Init(given), steps);
    forall l | 0 <= l < |st.leases| && !st.leases[l].released && i in st.closes
      ensures i !in st.snaps[st.leases[l].snap].members
    {
      DrainedHasNoLease(st, l);
    }
  }

  /** What a step can do to an existing snapshot. */
  lemma StepEvolves(st: State, step: Step, s: nat)
    requires s < |st.snaps| && Coherent(st.snaps[s])
    ensures var snaps' := Next(st, step).snaps;
      && |st.snaps| <= |snaps'|
      && Evolves(st.snaps[s], snaps'[s])
      && (st.snaps[s].retired ==> snaps'[s].retired)
      && (st.snaps[s].drained ==> snaps'[s].drained && snaps'[s].active == 0)
  {
  }

  /** Retired and drained are permanent, and a drained snapshot never regains a lease. */
  lemma {:induction false} RunEvolves(st: State, more: seq<Step>, s: nat)
    requires Inv(st) && s < |st.snaps|
    ensures var st' := Exec(st, more);
      && |st.snaps| <= |st'.snaps|
      && Evolves(st.snaps[s], st'.snaps[s])
      && (st.snaps[s].retired ==> st'.snaps[s].retired)
      && (st.snaps[s].drained ==> st'.snaps[s].drained && Held(st'.leases, s) == 0)
  {
    RunsKeepInv(st, more);
    assert SnapOk(st.snaps[s], s, st.leases);
    if more != [] {
      var init := more[..|more| - 1];
      RunEvolves(st, init, s);
      RunsKeepInv(st, init);
      assert SnapOk(Exec(st, init).snaps[s], s, Exec(st, init).leases);
      StepEvolves(Exec(st, init), more[|more| - 1], s);
      assert SnapOk(Exec(st, more).snaps[s], s, Exec(st, more).leases);
    }
  }

  /** Once a publication has retired the snapshot it replaced, every lease taken from then on is
      on that publication's generation or a later one, whenever its pointer was loaded. */
  lemma {:induction false} LeaseSeesPublication(given: set<nat>, steps: seq<Step>, more: seq<Step>, t: nat)
    ensures var st := Exec(Init(given), steps);
      var st' := Exec(st, more);
      !st.lock.Swapped? && |Next(st', TryAcquire(t)).leases| > |st'.leases| ==>
      var lease := Next(st', TryAcquire(t)).leases[|st'.leases|];
      lease.snap < |st'.snaps| && st'.snaps[lease.snap].generation >= |st.snaps|
  {
    var st := Exec(Init(given), steps);
    var st' := Exec(st, more);
    InitOk(given);
    RunsKeepInv(Init(given), steps);
    RunsKeepInv(st, more);
    if !st.lock.Swapped? && Enabled(st', TryAcquire(t)) {
      var s := st'.loads[t];
      assert SnapOk(st'.snaps[s], s, st'.leases);
      if s < |st.snaps| {
        RunEvolves(st, more, s);
      }
    }
  }

  /** The lease counts, the pointer and the live map, in every reachable state. */
  lemma {:induction false} ReachableSnapshots(given: set<nat>, steps: seq<Step>, s: nat)
    ensures var st := Exec(Init(given), steps);
      s < |st.snaps| ==>
      && st.snaps[s].active == Held(st.leases, s)
      && st.snaps[s].generation == s + 1
      && (st.snaps[s].drained ==> st.snaps[s].retired && Held(st.leases, s) == 0)
      && (st.current == Some(s) ==> !st.snaps[s].retired && s == |st.snaps| - 1)
      && (!st.snaps[s].drained ==> s in st.live)
  {
    InitOk(given);
    RunsKeepInv(Init(given), steps);
    var st := Exec(Init(given), steps);
    if s < |st.snaps| {
      assert SnapOk(st.snaps[s], s, st.leases);
    }
  }

  /** The mutation in progress, begun when `known` were the instances ever built, has published
      nothing and has closed whatever it built and no longer holds. */
  ghost predicate Private(st: State, known: set<nat>)
  {
    && !st.mutation.Publishing? && !st.mutation.Committing?
    && known <= st.built
    && (st.mutation.Building? || st.mutation.Aborting? ==> st.mutation.returned !! known)
  }

  lemma PrivateStep(st: State, step: Step, known: set<nat>)
    requires LockOk(st.snaps, st.closed, st.lock, st.mutation.Publishing?) && Private(st, known)
    requires !step.PublishSwap? && !step.BeginMutation? && !step.CloseManager?
    ensures Private(Next(st, step), known)
    ensures Next(st, step).effective == st.effective && Next(st, step).current == st.current
  {
  }

  lemma AbortedIsClosed(st: State)
    requires Inv(st) && Enabled(st, AbortDone)
    ensures forall i :: i in st.mutation.returned ==> st.closes[i] == 1
  {
  }

  /** A mutation that aborts, at a build or at the publication, leaves the effective set and the
      published snapshot as they were; when it is done it has closed, once each, exactly the
      instances its factories returned, none of which existed before it began. */
  lemma {:induction false} AbortIsInvisible(st: State, more: seq<Step>)
    requires Inv(st) && st.mutation.Building? && st.mutation.returned == {}
    requires forall n :: 0 <= n < |more| ==> !more[n].PublishSwap? && !more[n].BeginMutation? && !more[n].CloseManager?
    ensures var st' := Exec(st, more);
      && Private(st', st.built)
      && st'.effective == st.effective && st'.current == st.current
      && (Enabled(st', AbortDone) ==> forall i :: i in st'.mutation.returned ==> st'.closes[i] == 1)
  {
    RunsKeepInv(st, more);
    if Enabled(Exec(st, more), AbortDone) {
      AbortedIsClosed(Exec(st, more));
    }
    if more != [] {
      AbortIsInvisible(st, more[..|more| - 1]);
      RunsKeepInv(st, more[..|more| - 1]);
      PrivateStep(Exec(st, more[..|more| - 1]), more[|more| - 1], st.built);
    }
  }
}
