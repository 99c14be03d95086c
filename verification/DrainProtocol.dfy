/**
 * The acquire / publish / retire / drain / close protocol shared by the runtime manager
 * (internal/runtime/manager.go) and the provider manager (internal/provider/manager.go).
 *
 * A state holds every object of the protocol; a step is one atomic action of one goroutine.
 * A disabled step leaves the state alone, so `Exec` ranges over every interleaving.
 */
module DrainProtocol {
  import opened Common
  import opened RuntimeSnapshot

  datatype Lease = Lease(snap: nat, released: bool)

  /** Who holds the runtime manager's mutex, and how far that holder has got. */
  datatype Lock =
    | Free
    | Swapped(prior: set<nat>, outgoing: nat)   // pointer swapped, old snapshot not retired yet
    | OldRetired(prior: set<nat>)          // old snapshot retired, retirement not built yet
    | Closing(todo: set<nat>)              // Close is retiring the live snapshots

  /** The provider mutation in progress; at most one, under the `mutations` mutex.
      `returned` collects every instance the mutation's factories returned. */
  datatype Mutation =
    | Idle
    | Building(next: map<nat, nat>, made: set<nat>, returned: set<nat>)
    | Aborting(made: set<nat>, returned: set<nat>)
    | Publishing(next: map<nat, nat>, retired: set<nat>)
    | Committing(next: map<nat, nat>, retired: set<nat>, waiting: set<nat>)

  /** One call of drainRetired: the snapshots it waits for and the instances left to close. */
  datatype Drain = Drain(waiting: set<nat>, toClose: set<nat>, timedOut: bool)

  datatype State = State(
    snaps: seq<Snap>,           // every snapshot ever published, oldest first
    current: Option<nat>,
    closed: bool,
    live: set<nat>,
    lock: Lock,
    loads: map<nat, nat>,       // goroutines between Load and tryAcquire
    leases: seq<Lease>,
    mutation: Mutation,
    effective: map<nat, nat>,   // provider ID -> instance
    drains: seq<Drain>,
    built: set<nat>,            // every instance a factory returned
    closes: multiset<nat>)       // how often each instance was closed

  datatype Step =
    | Load(thread: nat)
    | TryAcquire(thread: nat)
    | Release(lease: nat)
    | Signal(snap: nat)
    | Untrack(snap: nat)
    | BeginMutation
    | Keep(id: nat)
    | Build(id: nat, inst: nat)
    | BuildRejected(inst: nat)
    | BuildFailed
    | AbortClose(inst: nat)
    | AbortDone
    | NothingChanged
    | PublishFailed
    | PublishSwap
    | PublishRetire
    | PublishReturn(waiting: set<nat>)
    | Commit
    | DrainTimeout(drain: nat)
    | DrainClose(drain: nat, inst: nat)
    | CloseManager
    | CloseRetire(snap: nat)
    | CloseUnlock

  function Drained(st: State): set<nat>
  {
    set s | 0 <= s < |st.snaps| && st.snaps[s].drained
  }

  /** The instances of `prev` that `next` does not keep under the same ID. */
  function Dropped(prev: map<nat, nat>, next: map<nat, nat>): set<nat>
  {
    set id | id in prev && !(id in next && next[id] == prev[id]) :: prev[id]
  }

  predicate Enabled(st: State, step: Step)
  {
    match step
    case Load(t) => st.current.Some? && t !in st.loads
    case TryAcquire(t) => t in st.loads && st.loads[t] < |st.snaps|
    case Release(l) => l < |st.leases| && !st.leases[l].released && st.leases[l].snap < |st.snaps|
    case Signal(s) => s < |st.snaps| && st.snaps[s].signalling
    case Untrack(s) => st.lock.Free? && s < |st.snaps| && st.snaps[s].drained
    case BeginMutation => st.mutation.Idle?
    case Keep(id) => st.mutation.Building? && id in st.effective && id !in st.mutation.next
    case Build(id, i) => st.mutation.Building? && id !in st.mutation.next && i !in st.built
    case BuildRejected(i) => st.mutation.Building? && i !in st.built
    case BuildFailed => st.mutation.Building?
    case AbortClose(i) => st.mutation.Aborting? && i in st.mutation.made
    case AbortDone => st.mutation.Aborting? && st.mutation.made == {}
    case NothingChanged => st.mutation.Building? && st.mutation.next == st.effective
    case PublishFailed => st.mutation.Building? && st.lock.Free?
    case PublishSwap =>
      st.mutation.Building? && st.lock.Free? && !st.closed && st.current.Some? && st.current.value < |st.snaps|
    case PublishRetire => st.lock.Swapped? && st.lock.outgoing < |st.snaps|
    case PublishReturn(waiting) =>
      // isDrained is read one snapshot at a time, so a snapshot may drain after it was read
      && st.lock.OldRetired?
      && st.mutation.Publishing?
      && st.lock.prior - Drained(st) <= waiting <= st.lock.prior
    case Commit => st.mutation.Committing?
    case DrainTimeout(k) => k < |st.drains|
    case DrainClose(k, i) =>
      k < |st.drains| && i in st.drains[k].toClose && st.drains[k].waiting <= Drained(st)
    case CloseManager => st.lock.Free? && !st.closed
    case CloseRetire(s) => st.lock.Closing? && s in st.lock.todo && s < |st.snaps|
    case CloseUnlock => st.lock.Closing? && st.lock.todo == {}
  }

  function Apply(st: State, step: Step): State
    requires Enabled(st, step)
  {
    match step
    case Load(t) => st.(loads := st.loads[t := st.current.value])
    case TryAcquire(t) =>
      var s := st.loads[t];
      if st.snaps[s].retired then
        st.(loads := st.loads - {t})
      else
        st.(loads := st.loads - {t},
            snaps := st.snaps[s := Acquired(st.snaps[s])],
            leases := st.leases + [Lease(s, false)])
    case Release(l) =>
      var s := st.leases[l].snap;
      st.(leases := st.leases[l := Lease(s, true)], snaps := st.snaps[s := Released(st.snaps[s])])
    case Signal(s) => st.(snaps := st.snaps[s := Signalled(st.snaps[s])])
    case Untrack(s) => st.(live := st.live - {s})
    case BeginMutation => st.(mutation := Building(map[], {}, {}))
    case Keep(id) =>
      st.(mutation := Building(st.mutation.next[id := st.effective[id]], st.mutation.made, st.mutation.returned))
    case Build(id, i) =>
      st.(built := st.built + {i},
          mutation := Building(st.mutation.next[id := i], st.mutation.made + {i}, st.mutation.returned + {i}))
    case BuildRejected(i) =>
      st.(built := st.built + {i},
          closes := st.closes + multiset{i},
          mutation := Aborting(st.mutation.made, st.mutation.returned + {i}))
    case BuildFailed => st.(mutation := Aborting(st.mutation.made, st.mutation.returned))
    case AbortClose(i) =>
      st.(closes := st.closes + multiset{i}, mutation := Aborting(st.mutation.made - {i}, st.mutation.returned))
    case AbortDone => st.(mutation := Idle)
    case NothingChanged => st.(mutation := Idle)
    case PublishFailed => st.(mutation := Aborting(st.mutation.made, st.mutation.returned))
    case PublishSwap =>
      var n := |st.snaps|;
      st.(snaps := st.snaps + [NewSnap(n + 1, st.mutation.next.Values)],
          lock := Swapped(st.live, st.current.value),
          live := st.live + {n},
          current := Some(n),
          mutation := Publishing(st.mutation.next, Dropped(st.effective, st.mutation.next)))
    case PublishRetire =>
      var s := st.lock.outgoing;
      st.(snaps := st.snaps[s := Retired(st.snaps[s])], lock := OldRetired(st.lock.prior))
    case PublishReturn(waiting) =>
      st.(lock := Free, mutation := Committing(st.mutation.next, st.mutation.retired, waiting))
    case Commit =>
      var m := st.mutation;
      st.(effective := m.next,
          mutation := Idle,
          drains := if m.retired == {} then st.drains else st.drains + [Drain(m.waiting, m.retired, false)])
    case DrainTimeout(k) => st.(drains := st.drains[k := st.drains[k].(timedOut := true)])
    case DrainClose(k, i) =>
      st.(closes := st.closes + multiset{i},
          drains := st.drains[k := st.drains[k].(toClose := st.drains[k].toClose - {i})])
    case CloseManager => st.(closed := true, current := None, lock := Closing(st.live))
    case CloseRetire(s) =>
      st.(snaps := st.snaps[s := Retired(st.snaps[s])], lock := Closing(st.lock.todo - {s}))
    case CloseUnlock => st.(lock := Free)
  }

  function Next(st: State, step: Step): State
  {
    if Enabled(st, step) then Apply(st, step) else st
  }

  function Exec(st: State, steps: seq<Step>): State
    decreases |steps|
  {
    if steps == [] then st else Next(Exec(st, steps[..|steps| - 1]), steps[|steps| - 1])
  }

  /** NewManager: one snapshot of the providers it was given, none of them managed yet. */
  function Init(given: set<nat>): State
  {
    State([NewSnap(1, given)], Some(0), false, {0}, Free, map[], [], Idle, map[], [], given, multiset{})
  }

  // ---------------------------------------------------------------- leases

  /** How many leases on snapshot `s` have not been released. */
  function Held(leases: seq<Lease>, s: nat): nat
  {
    if leases == [] then 0
    else
      var last := leases[|leases| - 1];
      Held(leases[..|leases| - 1], s) + if last.snap == s && !last.released then 1 else 0
  }

  lemma {:induction false} HeldAfterRelease(leases: seq<Lease>, l: nat, s: nat)
    requires l < |leases| && !leases[l].released
    ensures Held(leases[l := leases[l].(released := true)], s) ==
            Held(leases, s) - if leases[l].snap == s then 1 else 0
  {
    var n := |leases| - 1;
    var after := leases[l := leases[l].(released := true)];
    if l < n {
      HeldAfterRelease(leases[..n], l, s);
      assert after[..n] == leases[..n][l := leases[l].(released := true)];
    } else {
      assert after[..n] == leases[..n];
    }
  }

  lemma {:induction false} HeldIsPositive(leases: seq<Lease>, l: nat)
    requires l < |leases| && !leases[l].released
    ensures Held(leases, leases[l].snap) > 0
  {
    if l < |leases| - 1 {
      HeldIsPositive(leases[..|leases| - 1], l);
    }
  }

  lemma HeldAfterAcquire(leases: seq<Lease>, t: nat, s: nat)
    ensures Held(leases + [Lease(t, false)], s) == Held(leases, s) + if t == s then 1 else 0
  {
    assert (leases + [Lease(t, false)])[..|leases|] == leases;
  }

  lemma {:induction false} HeldOutOfRange(leases: seq<Lease>, s: nat)
    requires forall l :: 0 <= l < |leases| ==> leases[l].snap < s
    ensures Held(leases, s) == 0
  {
    if leases != [] {
      HeldOutOfRange(leases[..|leases| - 1], s);
    }
  }

  // ---------------------------------------------------------------- invariants
  // Each part takes only the fields it is about, so a step keeps every part it does not touch.

  /** Dense generations, exact lease counts, and drained exactly when retired and idle. */
  ghost predicate SnapsOk(snaps: seq<Snap>, leases: seq<Lease>, loads: map<nat, nat>)
  {
    && (forall s :: 0 <= s < |snaps| ==> SnapOk(snaps[s], s, leases))
    && (forall l :: 0 <= l < |leases| ==> leases[l].snap < |snaps|)
    && (forall t :: t in loads ==> loads[t] < |snaps|)
  }

  ghost predicate SnapOk(snap: Snap, s: nat, leases: seq<Lease>)
  {
    Coherent(snap) && snap.generation == s + 1 && snap.active == Held(leases, s)
  }

  predicate AboutToRetire(lock: Lock, s: nat)
  {
    (lock.Swapped? && lock.outgoing == s) || (lock.Closing? && s in lock.todo)
  }

  /** The pointer is on the newest, unretired snapshot; every other snapshot is retired or about
      to be; and every undrained snapshot is tracked. */
  ghost predicate PointerOk(snaps: seq<Snap>, current: Option<nat>, closed: bool, lock: Lock, live: set<nat>)
  {
    && |snaps| > 0
    && (current.Some? ==> current.value == |snaps| - 1 && !snaps[current.value].retired)
    && (current.None? <==> closed)
    && (forall s :: 0 <= s < |snaps| && !snaps[s].retired ==> current == Some(s) || AboutToRetire(lock, s))
    && (forall s :: 0 <= s < |snaps| - 1 && !snaps[s].retired ==> lock.Swapped? && lock.outgoing == s)
    && (forall s :: 0 <= s < |snaps| && !snaps[s].drained ==> s in live)
    && (forall s :: s in live ==> s < |snaps|)
  }

  /** A publication in progress has captured every older snapshot that is not drained. */
  ghost predicate LockOk(snaps: seq<Snap>, closed: bool, lock: Lock, publishing: bool)
  {
    match lock
    case Free => !publishing
    case Closing(todo) => closed && !publishing && forall s :: s in todo ==> s < |snaps|
    case Swapped(prior, outgoing) => !closed && publishing && Captures(snaps, prior) && outgoing < |snaps| - 1
    case OldRetired(prior) => !closed && publishing && Captures(snaps, prior)
  }

  ghost predicate Captures(snaps: seq<Snap>, prior: set<nat>)
  {
    && (forall s :: s in prior ==> s < |snaps| - 1)
    && (forall s :: 0 <= s < |snaps| - 1 && !snaps[s].drained ==> s in prior)
  }

  ghost predicate Injective(m: map<nat, nat>)
  {
    forall a, b :: a in m && b in m && m[a] == m[b] ==> a == b
  }

  /** `next` keeps instances under their own ID or introduces newly made ones. */
  ghost predicate Derived(prev: map<nat, nat>, next: map<nat, nat>, made: set<nat>)
  {
    forall id :: id in next ==> next[id] in made || (id in prev && next[id] == prev[id])
  }

  /** The instances in use: effective, or in the hands of the mutation in progress. */
  function InUse(effective: map<nat, nat>, m: Mutation): set<nat>
  {
    effective.Values +
    match m
    case Idle => {}
    case Building(_, made, _) => made
    case Aborting(made, _) => made
    case Publishing(next, _) => next.Values
    case Committing(next, _, _) => next.Values
  }

  /** Every instance has one owner: it is in use, waits in one drain, or was closed once. */
  ghost predicate OwnersOk(used: set<nat>, drains: seq<Drain>, built: set<nat>, closes: multiset<nat>)
  {
    && (forall i :: i in used ==> i in built && i !in closes)
    && (forall k, i :: 0 <= k < |drains| && i in drains[k].toClose ==> i in built && i !in closes && i !in used)
    && (forall j, k, i :: 0 <= j < k < |drains| && i in drains[j].toClose ==> i !in drains[k].toClose)
    && (forall i :: i in closes ==> i in built && closes[i] == 1)
  }

  ghost predicate MutationOk(m: Mutation, effective: map<nat, nat>, closes: multiset<nat>)
  {
    && Injective(effective)
    && match m
       case Idle => true
       case Building(next, made, returned) =>
         Injective(next) && Derived(effective, next, made) && made == returned && made !! effective.Values
       case Aborting(made, returned) =>
         && made <= returned && made !! effective.Values && returned !! effective.Values
         && (forall i :: i in returned && i !in made ==> i in closes)
       case Publishing(next, retired) => ReplacementOk(effective, next, retired)
       case Committing(next, retired, _) => ReplacementOk(effective, next, retired)
  }

  ghost predicate ReplacementOk(effective: map<nat, nat>, next: map<nat, nat>, retired: set<nat>)
  {
    Injective(next) && retired == Dropped(effective, next) && retired !! next.Values
  }

  /** The instances no snapshot references: built by the mutation and not published. */
  function Unpublished(m: Mutation): set<nat>
  {
    if m.Building? || m.Aborting? then m.made else {}
  }

  /** Only drained snapshots and the snapshots in `waiting` reference an instance of `insts`. */
  ghost predicate Covered(snaps: seq<Snap>, insts: set<nat>, waiting: set<nat>)
  {
    forall s, i :: 0 <= s < |snaps| && i in snaps[s].members && i in insts ==> snaps[s].drained || s in waiting
  }

  /** The snapshots a mutation's retired instances may still be in. */
  function Waiting(m: Mutation, lock: Lock): set<nat>
  {
    if m.Committing? then m.waiting else if lock.Swapped? || lock.OldRetired? then lock.prior else {}
  }

  function Leaving(m: Mutation): set<nat>
  {
    if m.Publishing? || m.Committing? then m.retired else {}
  }

  /** Which snapshots can still reference an instance. */
  ghost predicate ReachOk(snaps: seq<Snap>, built: set<nat>, closes: multiset<nat>, drains: seq<Drain>,
                          unpublished: set<nat>, leaving: set<nat>, waiting: set<nat>)
  {
    && (forall s, i :: 0 <= s < |snaps| && i in snaps[s].members ==> i in built && i !in unpublished)
    && (forall s, i :: 0 <= s < |snaps| && i in snaps[s].members && i in closes ==> snaps[s].drained)
    && (forall k :: 0 <= k < |drains| ==> Covered(snaps, drains[k].toClose, drains[k].waiting))
    && Covered(snaps, leaving, waiting)
  }

  ghost predicate Inv(st: State)
  {
    && SnapsOk(st.snaps, st.leases, st.loads)
    && PointerOk(st.snaps, st.current, st.closed, st.lock, st.live)
    && LockOk(st.snaps, st.closed, st.lock, st.mutation.Publishing?)
    && OwnersOk(InUse(st.effective, st.mutation), st.drains, st.built, st.closes)
    && MutationOk(st.mutation, st.effective, st.closes)
    && ReachOk(st.snaps, st.built, st.closes, st.drains,
               Unpublished(st.mutation), Leaving(st.mutation), Waiting(st.mutation, st.lock))
  }
}
