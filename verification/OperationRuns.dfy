/**
 * The operation store over whole runs: creations, transitions, progress, persists that fail with
 * the old or the new file left behind, restarts with recovery, and changing limits.
 */
module OperationRuns {
  import opened Common
  import opened Operations

  /** A failed persist may leave either file, because the directory sync follows the rename. */
  datatype Write = Saved | FailedOld | FailedNew

  /**
   * `disk` is the file as it reads and `safe` the file a power loss brings back: they differ while a
   * rename has not been followed by a directory sync. `history` is every event the daemon ever
   * committed, `onDisk` and `safeHistory` every event that led to the two files; the store only keeps
   * the newest part of them. `published` is what subscribers got.
   */
  datatype World = World(
    mem: Option<Store>, limits: Limits, disk: Store, safe: Store,
    history: seq<Event>, onDisk: seq<Event>, safeHistory: seq<Event>, published: seq<Event>)

  datatype Step =
    | Open(limits: Limits, now: Time, ids: seq<ID>, keep: set<ID>, write: Write)
    | Create(request: Request, id: ID, now: Time, keep: set<ID>, write: Write)
    | Transition(id: ID, next: State, progress: int, result: map<string, string>, failure: Option<string>, now: Time, write: Write)
    | Progress(id: ID, progress: int, partial: Option<map<string, string>>, now: Time, write: Write)
    | Restart                    // Close or a crash: the daemon's memory is gone
    | PowerLoss(renamed: bool)   // the machine fails, with or without a rename that was not synced

  function RecoveredHistory(s: Store, h: seq<Event>, limits: Limits, ids: seq<ID>, now: Time): seq<Event>
    requires forall n :: 0 <= n < |ids| ==> ids[n] in s.ops
    decreases |ids|
  {
    if ids == [] then h
    else
      var init := ids[..|ids| - 1];
      var mid := Recovered(s, limits, init, now);
      var before := RecoveredHistory(s, h, limits, init, now);
      if mid.ops[ids[|ids| - 1]].record.state.Terminal() then before
      else
        var e := RecoveredOne(mid, limits, ids[|ids| - 1], now).ops[ids[|ids| - 1]];
        before + [EventOf(mid, ids[|ids| - 1], e.record.state, now)]
  }

  ghost predicate Enumerates(ids: seq<ID>, ops: map<ID, Entry>)
  {
    forall id :: id in ids <==> id in ops
  }

  /** Persist `next`, whose history is `h`; a failure rolls the memory back. */
  function Commit(w: World, next: Store, h: seq<Event>, events: seq<Event>, write: Write): World
  {
    match write
    case Saved =>
      w.(mem := Some(next), disk := next, safe := next, history := h, onDisk := h, safeHistory := h,
         published := w.published + events)
    case FailedOld => w
    case FailedNew => w.(disk := next, onDisk := h)
  }

  ghost function Next(w: World, step: Step): World
  {
    match step
    case Restart => w.(mem := None)
    case PowerLoss(renamed) =>
      if renamed then w.(mem := None, safe := w.disk, safeHistory := w.onDisk)
      else w.(mem := None, disk := w.safe, onDisk := w.safeHistory)
    case Open(limits, now, ids, keep, write) =>
      if w.mem.Some? || !Enumerates(ids, w.disk.ops) then w
      else
        var recovered := Recovered(w.disk, limits, ids, now);
        var h := RecoveredHistory(w.disk, w.onDisk, limits, ids, now);
        if !MayKeep(recovered, limits, now, keep) then w
        else
          OpenFrom(w.(limits := limits), Kept(recovered, keep), h, write)
    case Create(request, id, now, keep, write) =>
      if w.mem.None? || !request.valid || !MayKeep(w.mem.value, w.limits, now, keep) || !Unused(w, id) then w
      else CreateFrom(w, Kept(w.mem.value, keep), request, id, now, write)
    case Transition(id, next, progress, result, failure, now, write) =>
      if w.mem.None? || !CanTransition(w.mem.value, id, next) then w
      else
        var e := EventOf(w.mem.value, id, next, now);
        Commit(w, Transitioned(w.mem.value, w.limits, id, next, progress, result, failure, now), w.history + [e], [e], write)
    case Progress(id, progress, result, now, write) =>
      if w.mem.None? || !CanProgress(w.mem.value, id) then w
      else
        var e := EventOf(w.mem.value, id, w.mem.value.ops[id].record.state, now);
        Commit(w, Progressed(w.mem.value, w.limits, id, progress, result, now), w.history + [e], [e], write)
  }

  /** Open once the file is recovered and pruned: nothing is written if nothing changed. */
  function OpenFrom(w: World, next: Store, h: seq<Event>, write: Write): World
  {
    if next == w.disk then w.(mem := Some(next), history := h) else Commit(w, next, h, [], write)
  }

  /** Create once the store is pruned: replay, refuse, or add a pending operation. */
  ghost function CreateFrom(w: World, pruned: Store, request: Request, id: ID, now: Time, write: Write): World
  {
    match CreateVerdict(pruned, w.limits, request)
    case Conflict | Full => w
    case Replay(_) => if Some(pruned) == w.mem then w else Commit(w, pruned, w.history, [], write)
    case Room =>
      var e := EventOf(pruned, id, Pending, now);
      Commit(w, Created(pruned, w.limits, id, request, now), w.history + [e], [e], write)
  }

  /** A random identifier that no operation has had. */
  predicate Unused(w: World, id: ID)
  {
    LastEvent(w.history, id).None? && LastEvent(w.onDisk, id).None? && (w.mem.Some? ==> id !in w.mem.value.ops)
  }

  ghost function Exec(w: World, steps: seq<Step>): World
    decreases |steps|
  {
    if steps == [] then w else Next(Exec(w, steps[..|steps| - 1]), steps[|steps| - 1])
  }

  /** A daemon that has not started yet, over any file the store could have written. */
  function Boot(disk: Store, h: seq<Event>): World
  {
    World(None, Limits(0, 0, 0), disk, disk, h, h, h, [])
  }

  // ---------------------------------------------------------------- the invariant

  /** Memory and both files reflect lawful histories, all of which contain what was published. */
  ghost predicate Inv(w: World)
  {
    && Reflects(w.disk, w.onDisk) && Reflects(w.safe, w.safeHistory)
    && (w.mem.Some? ==> Reflects(w.mem.value, w.history) && |w.mem.value.ops| <= w.limits.maxOperations)
    && (forall e :: e in w.published ==> e in w.history && e in w.onDisk && e in w.safeHistory)
  }

  /** The files contain what the daemon committed: the one that is read, and the one a power loss brings
      back if losses are to be survived. */
  ghost predicate Firm(w: World, lossy: bool)
  {
    w.history <= w.onDisk && (lossy ==> w.history <= w.safeHistory)
  }

  /** An open that serves a file it does not have to write, although a power loss would bring back
      another one without some of its events. */
  ghost predicate Adopts(w: World, step: Step)
  {
    && step.Open? && w.mem.None? && Enumerates(step.ids, w.disk.ops)
    && MayKeep(Recovered(w.disk, step.limits, step.ids, step.now), step.limits, step.now, step.keep)
    && Kept(Recovered(w.disk, step.limits, step.ids, step.now), step.keep) == w.disk
    && !(w.onDisk <= w.safeHistory)
  }

  /** Losses are ruled out, or no open adopts a file that a loss could take back. */
  ghost predicate Tolerates(w: World, step: Step, lossy: bool)
  {
    if lossy then !Adopts(w, step) else !step.PowerLoss?
  }

  /** What a step guarantees of the history as long as losses are tolerated. */
  ghost predicate Grows(w: World, w': World)
  {
    forall lossy :: Firm(w, lossy) ==> Firm(w', lossy) && w.history <= w'.history
  }

  lemma CommitKeeps(w: World, next: Store, h: seq<Event>, events: seq<Event>, write: Write)
    requires Inv(w) && Reflects(next, h) && Contains(h, w.published)
    requires |next.ops| <= w.limits.maxOperations && forall e :: e in events ==> e in h
    ensures Inv(Commit(w, next, h, events, write))
    ensures w.history <= h ==> Grows(w, Commit(w, next, h, events, write))
  {
  }

  predicate Contains(h: seq<Event>, events: seq<Event>)
  {
    forall e :: e in events ==> e in h
  }


  lemma KeptSize(s: Store, keep: set<ID>)
    requires keep <= s.ops.Keys
    ensures Kept(s, keep).ops.Keys == keep && |Kept(s, keep).ops| == |keep|
  {
    assert Kept(s, keep).ops.Keys == keep;
  }

  lemma {:induction false} RecoveredHistoryReflects(s: Store, h: seq<Event>, limits: Limits, ids: seq<ID>, now: Time)
    requires Reflects(s, h) && forall n :: 0 <= n < |ids| ==> ids[n] in s.ops
    ensures h <= RecoveredHistory(s, h, limits, ids, now)
    ensures Reflects(Recovered(s, limits, ids, now), RecoveredHistory(s, h, limits, ids, now))
    decreases |ids|
  {
    if ids != [] {
      hide Reflects, RecoveredOne;
      var init, id := ids[..|ids| - 1], ids[|ids| - 1];
      RecoveredHistoryReflects(s, h, limits, init, now);
      RecoverStepReflects(Recovered(s, limits, init, now), RecoveredHistory(s, h, limits, init, now), limits, id, now);
    }
  }

  lemma RecoverStepReflects(mid: Store, before: seq<Event>, limits: Limits, id: ID, now: Time)
    requires Reflects(mid, before) && id in mid.ops
    ensures var one := RecoveredOne(mid, limits, id, now);
      && id in one.ops
      && Reflects(one, if mid.ops[id].record.state.Terminal() then before
                       else before + [EventOf(mid, id, one.ops[id].record.state, now)])
  {
    assert Stands(mid.ops[id].record, id, before);
    if !mid.ops[id].record.state.Terminal() {
      assert MayFollow(before, EventOf(mid, id, RecoveredOne(mid, limits, id, now).ops[id].record.state, now));
      EmitReflects(mid, before, limits, id, RecoveredOne(mid, limits, id, now).ops[id], now);
    }
  }

  /** With every record prunable, pruning gets below the limit. */
  lemma PruneFits(s: Store, limits: Limits, now: Time, keep: set<ID>)
    requires MayKeep(s, limits, now, keep) && forall id :: id in s.ops ==> s.ops[id].record.state.Terminal()
    ensures |keep| <= limits.maxOperations
  {
    assert |keep| > 0 ==> keep != {};
  }

  lemma RecoveryFits(file: Store, limits: Limits, ids: seq<ID>, now: Time, keep: set<ID>)
    requires Enumerates(ids, file.ops) && MayKeep(Recovered(file, limits, ids, now), limits, now, keep)
    ensures |keep| <= limits.maxOperations
  {
    forall id | id in file.ops ensures Recovered(file, limits, ids, now).ops[id].record.state.Terminal() {
      RecoveryEndsEverything(file, limits, ids, now, id);
    }
    PruneFits(Recovered(file, limits, ids, now), limits, now, keep);
  }

  lemma OpenedStore(w: World, limits: Limits, now: Time, ids: seq<ID>, keep: set<ID>)
    requires Inv(w) && Enumerates(ids, w.disk.ops)
    requires MayKeep(Recovered(w.disk, limits, ids, now), limits, now, keep)
    ensures var next := Kept(Recovered(w.disk, limits, ids, now), keep);
      var h := RecoveredHistory(w.disk, w.onDisk, limits, ids, now);
      Reflects(next, h) && |next.ops| <= limits.maxOperations && w.onDisk <= h
  {
    var recovered := Recovered(w.disk, limits, ids, now);
    RecoveredHistoryReflects(w.disk, w.onDisk, limits, ids, now);
    KeepReflects(recovered, RecoveredHistory(w.disk, w.onDisk, limits, ids, now), keep);
    KeptSize(recovered, keep);
    RecoveryFits(w.disk, limits, ids, now, keep);
  }

  lemma OpenFromKeeps(w: World, next: Store, h: seq<Event>, write: Write, lossy: bool)
    requires Inv(w) && w.mem.None? && Reflects(next, h) && |next.ops| <= w.limits.maxOperations && w.onDisk <= h
    ensures Inv(OpenFrom(w, next, h, write))
    ensures Firm(w, lossy) && !(lossy && next == w.disk && !(w.onDisk <= w.safeHistory)) ==>
              Firm(OpenFrom(w, next, h, write), lossy) && w.history <= OpenFrom(w, next, h, write).history
  {
    if next == w.disk {
      assert h == w.onDisk;
    } else {
      CommitKeeps(w, next, h, [], write);
    }
  }

  lemma OpenKeeps(w: World, step: Step, lossy: bool)
    requires Inv(w) && step.Open?
    ensures Inv(Next(w, step))
    ensures Firm(w, lossy) && Tolerates(w, step, lossy) ==> Firm(Next(w, step), lossy) && w.history <= Next(w, step).history
  {
    var Open(limits, now, ids, keep, write) := step;
    if w.mem.None? && Enumerates(ids, w.disk.ops) && MayKeep(Recovered(w.disk, limits, ids, now), limits, now, keep) {
      OpenedStore(w, limits, now, ids, keep);
      OpenFromKeeps(w.(limits := limits), Kept(Recovered(w.disk, limits, ids, now), keep),
                    RecoveredHistory(w.disk, w.onDisk, limits, ids, now), write, lossy);
    }
  }

  /** What Create commits when there is no earlier operation for the key. */
  lemma CreatedStore(pruned: Store, h: seq<Event>, limits: Limits, id: ID, request: Request, now: Time)
    requires Reflects(pruned, h) && LastEvent(h, id).None? && id !in pruned.ops
    requires forall twin :: !Matches(pruned, twin, request.hash)
    ensures Reflects(Created(pruned, limits, id, request, now), h + [EventOf(pruned, id, Pending, now)])
    ensures |Created(pruned, limits, id, request, now).ops| == |pruned.ops| + 1
  {
    forall a | a in pruned.ops ensures pruned.ops[a].hash == request.hash ==> request.hash == "" {
      assert !Matches(pruned, a, request.hash);
    }
    EmitReflects(pruned, h, limits, id, Created(pruned, limits, id, request, now).ops[id], now);
    assert Created(pruned, limits, id, request, now).ops.Keys == pruned.ops.Keys + {id};
  }

  lemma RoomMeansNew(s: Store, limits: Limits, request: Request)
    requires CreateVerdict(s, limits, request).Room?
    ensures |s.ops| < limits.maxOperations && forall twin :: !Matches(s, twin, request.hash)
  {
  }

  lemma CreateFromKeeps(w: World, pruned: Store, request: Request, id: ID, now: Time, write: Write)
    requires Inv(w) && Reflects(pruned, w.history) && |pruned.ops| <= w.limits.maxOperations
    requires LastEvent(w.history, id).None? && id !in pruned.ops
    ensures Inv(CreateFrom(w, pruned, request, id, now, write)) && Grows(w, CreateFrom(w, pruned, request, id, now, write))
  {
    assert Contains(w.history, w.published) && Grows(w, w);
    assert forall e :: Contains(w.history + [e], w.published);
    hide Grows, Contains, Inv, Reflects, CreateVerdict, Created, Commit, Matches;
    match CreateVerdict(pruned, w.limits, request)
    case Conflict | Full =>
    case Replay(_) => CommitKeeps(w, pruned, w.history, [], write);
    case Room =>
      RoomMeansNew(pruned, w.limits, request);
      CreatedStore(pruned, w.history, w.limits, id, request, now);
      var e := EventOf(pruned, id, Pending, now);
      CommitKeeps(w, Created(pruned, w.limits, id, request, now), w.history + [e], [e], write);
  }

  lemma CreateKeeps(w: World, step: Step)
    requires Inv(w) && step.Create?
    ensures Inv(Next(w, step)) && Grows(w, Next(w, step))
  {
    var Create(request, id, now, keep, write) := step;
    if w.mem.Some? && request.valid && MayKeep(w.mem.value, w.limits, now, keep) && Unused(w, id) {
      var pruned := Kept(w.mem.value, keep);
      KeepReflects(w.mem.value, w.history, keep);
      KeptSize(w.mem.value, keep);
      SizeOfSubset(keep, w.mem.value.ops.Keys);
      CreateFromKeeps(w, pruned, request, id, now, write);
    }
  }

  lemma SizeOfSubset(a: set<ID>, b: set<ID>)
    requires a <= b
    ensures |a| <= |b|
  {
    if a != b {
      assert |b| == |a| + |b - a| by { assert b == a + (b - a); }
    }
  }

  lemma EmitKeeps(w: World, id: ID, entry: Entry, now: Time, write: Write)
    requires Inv(w) && w.mem.Some? && id in w.mem.value.ops
    requires entry.hash == w.mem.value.ops[id].hash && entry.record.id == id
    requires MayFollow(w.history, EventOf(w.mem.value, id, entry.record.state, now))
    ensures var e := EventOf(w.mem.value, id, entry.record.state, now);
      var w' := Commit(w, Emitted(w.mem.value, w.limits, id, entry, now), w.history + [e], [e], write);
      Inv(w') && Grows(w, w')
  {
    var e := EventOf(w.mem.value, id, entry.record.state, now);
    var s' := Emitted(w.mem.value, w.limits, id, entry, now);
    EmitReflects(w.mem.value, w.history, w.limits, id, entry, now);
    assert s'.ops.Keys == w.mem.value.ops.Keys;
    CommitKeeps(w, s', w.history + [e], [e], write);
  }

  lemma ChangeKeeps(w: World, step: Step)
    requires Inv(w) && (step.Transition? || step.Progress?)
    ensures Inv(Next(w, step)) && Grows(w, Next(w, step))
  {
    if w.mem.Some? && step.id in w.mem.value.ops {
      var entry := w.mem.value.ops[step.id];
      assert Stands(entry.record, step.id, w.history);
      match step
      case Transition(id, next, progress, result, failure, now, write) =>
        if CanTransition(w.mem.value, id, next) {
          var r := entry.record.(state := next, progress := Clamped(progress), updated := now, result := result, failure := failure);
          EmitKeeps(w, id, entry.(record := r), now, write);
        }
      case Progress(id, progress, partial, now, write) =>
        if CanProgress(w.mem.value, id) {
          var r := entry.record.(progress := Clamped(progress), updated := now,
                                 result := if partial.Some? then partial.value else entry.record.result);
          EmitKeeps(w, id, entry.(record := r), now, write);
        }
    }
  }

  lemma NextKeeps(w: World, step: Step, lossy: bool)
    requires Inv(w)
    ensures Inv(Next(w, step))
    ensures Firm(w, lossy) && Tolerates(w, step, lossy) ==> Firm(Next(w, step), lossy) && w.history <= Next(w, step).history
  {
    match step
    case Restart =>
    case PowerLoss(_) =>
    case Open(_, _, _, _, _) => OpenKeeps(w, step, lossy);
    case Create(_, _, _, _, _) => CreateKeeps(w, step);
    case _ => ChangeKeeps(w, step);
  }

  /** Every step of the run tolerates losses, or there are none. */
  ghost predicate Calm(w: World, steps: seq<Step>, lossy: bool)
  {
    forall n :: 0 <= n < |steps| ==> Tolerates(Exec(w, steps[..n]), steps[n], lossy)
  }

  /** The invariant over every run; the history of the daemon only grows, restarts and tolerated losses
      included. */
  lemma {:induction false} RunsKeep(w: World, steps: seq<Step>, lossy: bool)
    requires Inv(w)
    ensures Inv(Exec(w, steps))
    ensures Firm(w, lossy) && Calm(w, steps, lossy) ==> Firm(Exec(w, steps), lossy) && w.history <= Exec(w, steps).history
  {
    hide Inv, Next, Firm, Tolerates;
    if steps != [] {
      var init := steps[..|steps| - 1];
      RunsKeep(w, init, lossy);
      NextKeeps(Exec(w, init), steps[|steps| - 1], lossy);
      if Calm(w, steps, lossy) {
        forall n | 0 <= n < |init| ensures Tolerates(Exec(w, init[..n]), init[n], lossy) {
          assert init[..n] == steps[..n];
          assert Tolerates(Exec(w, steps[..n]), steps[n], lossy);
        }
        assert steps[..|init|] == init;
      }
    }
  }

  // ---------------------------------------------------------------- what runs guarantee

  /** Once terminal, forever: after any further steps, restarts and tolerated losses included, the
      operation is gone or still in the same state with the same sequence number. */
  lemma {:induction false} TerminalIsForever(w: World, more: seq<Step>, id: ID, lossy: bool)
    requires Firm(w, lossy) && Calm(w, more, lossy)
    requires Inv(w) && w.mem.Some? && id in w.mem.value.ops && w.mem.value.ops[id].record.state.Terminal()
    ensures var w' := Exec(w, more);
      w'.mem.Some? && id in w'.mem.value.ops ==>
      && w'.mem.value.ops[id].record.state == w.mem.value.ops[id].record.state
      && w'.mem.value.ops[id].record.sequence == w.mem.value.ops[id].record.sequence
  {
    RunsKeep(w, more, lossy);
    var w' := Exec(w, more);
    if w'.mem.Some? && id in w'.mem.value.ops {
      var k := OneTerminalEvent(w.mem.value, w.history, id);
      var k' := OneTerminalEvent(w'.mem.value, w'.history, id);
      assert w'.history[k] == w.history[k];
    }
  }

  /** Every record of every run: its whole history is lawful, it has exactly one terminal event
      if it is terminal and none otherwise, and that event is the last of the operation. */
  lemma {:induction false} RecordsFollowTheStateMachine(disk: Store, h: seq<Event>, steps: seq<Step>, id: ID) returns (k: nat)
    requires Reflects(disk, h)
    requires Exec(Boot(disk, h), steps).mem.Some? && id in Exec(Boot(disk, h), steps).mem.value.ops
    ensures var w := Exec(Boot(disk, h), steps);
      var r := w.mem.value.ops[id].record;
      && Lawful(w.history)
      && k < |w.history| && w.history[k].op == id && w.history[k].state == r.state && r.sequence == w.history[k].sequence
      && (forall n :: 0 <= n < |w.history| && w.history[n].op == id && w.history[n].state.Terminal() ==> n == k && r.state.Terminal())
  {
    RunsKeep(Boot(disk, h), steps, false);
    var w := Exec(Boot(disk, h), steps);
    k := OneTerminalEvent(w.mem.value, w.history, id);
    SequenceIsPosition(w.history, k);
  }

  /** Bounds and idempotency in every reachable state, however large the file that was opened. */
  lemma {:induction false} StoreStaysBounded(disk: Store, h: seq<Event>, steps: seq<Step>)
    requires Reflects(disk, h)
    ensures var w := Exec(Boot(disk, h), steps);
      w.mem.Some? ==>
      && |w.mem.value.ops| <= w.limits.maxOperations
      && (forall a, b :: a in w.mem.value.ops && b in w.mem.value.ops ==>
            w.mem.value.ops[a].hash == w.mem.value.ops[b].hash != "" ==> a == b)
  {
    RunsKeep(Boot(disk, h), steps, false);
  }

  /** A subscriber only ever gets events that are part of the history for good: they are in the file, in
      the file a power loss brings back, and in every history and file of every later run. */
  lemma {:induction false} PublishedIsDurable(disk: Store, h: seq<Event>, steps: seq<Step>, more: seq<Step>, e: Event)
    requires Reflects(disk, h)
    ensures var w := Exec(Boot(disk, h), steps); var w' := Exec(w, more);
      e in w.published ==> e in w.safeHistory && e in w'.history && e in w'.onDisk && e in w'.safeHistory
  {
    RunsKeep(Boot(disk, h), steps, false);
    RunsKeep(Exec(Boot(disk, h), steps), more, false);
    PublishedGrows(Exec(Boot(disk, h), steps), more);
  }

  /** Subscribers miss nothing either: while the daemon runs, what a call adds to the history it publishes,
      no more and no less. */
  lemma {:induction false} PublishesWhatItCommits(w: World, step: Step)
    requires !step.Open?
    ensures var v := Next(w, step);
      && w.history <= v.history && v.published == w.published + v.history[|w.history|..]
  {
    hide CreateVerdict, Created, Transitioned, Progressed, LastEvent, MayKeep;
    assert w.published + [] == w.published && w.history[|w.history|..] == [];
    forall e: Event ensures (w.history + [e])[|w.history|..] == [e] {
    }
  }

  lemma {:induction false} PublishedGrows(w: World, steps: seq<Step>)
    ensures w.published <= Exec(w, steps).published
  {
    hide Next;
    if steps != [] {
      PublishedGrows(w, steps[..|steps| - 1]);
      PublishedStays(Exec(w, steps[..|steps| - 1]), steps[|steps| - 1]);
    }
  }

  lemma PublishedStays(w: World, step: Step)
    ensures w.published <= Next(w, step).published
  {
    hide Recovered, RecoveredHistory, MayKeep, CreateVerdict, Created, Transitioned, Progressed, Kept, EventOf, LastEvent, CanTransition;
  }

  // ---------------------------------------------------------------- exactly which opens are safe

  lemma {:induction false} RecoveredAtNow(s: Store, h: seq<Event>, limits: Limits, ids: seq<ID>, now: Time)
    requires forall n :: 0 <= n < |ids| ==> ids[n] in s.ops
    ensures h <= RecoveredHistory(s, h, limits, ids, now)
    ensures forall j :: |h| <= j < |RecoveredHistory(s, h, limits, ids, now)| ==> RecoveredHistory(s, h, limits, ids, now)[j].time == now
    decreases |ids|
  {
    if ids != [] {
      RecoveredAtNow(s, h, limits, ids[..|ids| - 1], now);
    }
  }

  lemma {:induction false} CanEnumerate(keys: set<ID>) returns (ids: seq<ID>)
    ensures forall id :: id in ids <==> id in keys
    decreases |keys|
  {
    ids := [];
    if keys != {} {
      var id :| id in keys;
      var rest := CanEnumerate(keys - {id});
      ids := rest + [id];
    }
  }

  /** Limits under which nothing is pruned. */
  lemma {:induction false} GenerousLimits(s: Store, now: Time, keys: set<ID>) returns (retention: nat)
    requires keys <= s.ops.Keys
    ensures forall id :: id in keys ==> s.ops[id].record.updated >= now - retention
    decreases |keys|
  {
    retention := 0;
    if keys != {} {
      var id :| id in keys;
      var r := GenerousLimits(s, now, keys - {id});
      var d := now - s.ops[id].record.updated;
      retention := if d > r then d else r;
    }
  }

  /** The limits do not matter to the states and times recovery leaves behind. */
  lemma {:induction false} RecoveredOpsAgree(s: Store, a: Limits, b: Limits, ids: seq<ID>, now: Time)
    requires a.maxEvents == b.maxEvents && forall n :: 0 <= n < |ids| ==> ids[n] in s.ops
    ensures Recovered(s, a, ids, now) == Recovered(s, b, ids, now)
    decreases |ids|
  {
    if ids != [] {
      RecoveredOpsAgree(s, a, b, ids[..|ids| - 1], now);
    }
  }

  /** Any file can be opened at any time, under some limits, losing nothing to pruning. */
  lemma CanOpen(s: Store, now: Time) returns (limits: Limits, ids: seq<ID>, keep: set<ID>)
    ensures Enumerates(ids, s.ops) && MayKeep(Recovered(s, limits, ids, now), limits, now, keep)
  {
    ids := CanEnumerate(s.ops.Keys);
    keep := s.ops.Keys;
    var recovered := Recovered(s, Limits(0, 0, 0), ids, now);
    var retention := GenerousLimits(recovered, now, keep);
    limits := Limits(|keep|, 0, retention);
    RecoveredOpsAgree(s, Limits(0, 0, 0), limits, ids, now);
  }

  /** From any state in which both files contain the history, an open keeps it that way, over every run
      whose later opens do, exactly when it does not adopt a file that a power loss takes back. */
  lemma {:induction false} AdoptsExactly(w: World, step: Step)
    requires Inv(w) && Firm(w, true) && w.mem.None? && step.Open? && Next(w, step).mem.Some?
    ensures var v := Next(w, step);
      (forall steps :: Calm(v, steps, true) ==> v.history <= Exec(v, steps).history) <==> !Adopts(w, step)
  {
    var v := Next(w, step);
    NextKeeps(w, step, true);
    if Adopts(w, step) {
      AdoptedIsUnsafe(w, step);
      var steps := LossAfter(v);
    } else {
      hide Next, Inv, Firm, Calm, Exec;
      forall steps | Calm(v, steps, true) ensures v.history <= Exec(v, steps).history {
        RunsKeep(v, steps, true);
      }
    }
  }

  lemma AdoptedIsUnsafe(w: World, step: Step)
    requires Inv(w) && Adopts(w, step)
    ensures var v := Next(w, step); v.history == w.onDisk && v.safeHistory == w.safeHistory && v.safe == w.safe
  {
    var h := RecoveredHistory(w.disk, w.onDisk, step.limits, step.ids, step.now);
    OpenedStore(w, step.limits, step.now, step.ids, step.keep);
    assert h == w.onDisk;
  }

  /** The run that shows it: the machine fails, and the next open recovers the older file. */
  lemma LossAfter(v: World) returns (steps: seq<Step>)
    requires Inv(v) && !(v.history <= v.safeHistory)
    ensures Calm(v, steps, true) && !(v.history <= Exec(v, steps).history)
  {
    var p := |v.safeHistory|;
    var now := if p < |v.history| then v.history[p].time + 1 else 0;
    var limits, ids, keep := CanOpen(v.safe, now);
    var a, b := PowerLoss(false), Open(limits, now, ids, keep, Saved);
    steps := [a, b];
    var lost := Next(v, a);
    assert lost.mem.None? && lost.disk == v.safe && lost.onDisk == v.safeHistory && lost.safeHistory == v.safeHistory;
    assert !Adopts(lost, b) && !Adopts(v, a);
    hide Inv, Next, Adopts, Recovered, RecoveredHistory, MayKeep, Enumerates;
    TwoSteps(v, a, b);
    RecoveredAtNow(v.safe, v.safeHistory, limits, ids, now);
    OpenRecovers(lost, limits, now, ids, keep);
    var h := RecoveredHistory(v.safe, v.safeHistory, limits, ids, now);
    assert p < |v.history| && p < |h| ==> v.history[p] != h[p];
  }

  lemma TwoSteps(v: World, a: Step, b: Step)
    ensures Exec(v, [a, b]) == Next(Next(v, a), b)
    ensures Tolerates(v, a, true) && Tolerates(Next(v, a), b, true) ==> Calm(v, [a, b], true)
  {
    hide Next, Tolerates;
    var steps := [a, b];
    assert steps[..0] == [] && steps[..1] == [a] && [a][..0] == [];
    assert Exec(v, [a]) == Next(v, a);
  }

  lemma OpenRecovers(w: World, limits: Limits, now: Time, ids: seq<ID>, keep: set<ID>)
    requires w.mem.None? && Enumerates(ids, w.disk.ops) && MayKeep(Recovered(w.disk, limits, ids, now), limits, now, keep)
    ensures Next(w, Open(limits, now, ids, keep, Saved)).history == RecoveredHistory(w.disk, w.onDisk, limits, ids, now)
  {
    hide Recovered, RecoveredHistory, MayKeep, Kept;
  }

  const ROOMY := Limits(10, 10, 1000)

  function OneRecord(state: State, sequence: nat, failure: Option<string>): Record
  {
    Record(1, state, 0, true, false, 0, 0, 100, sequence, failure, map[])
  }

  /** A store with one operation that has got as far as `state`. */
  function OneStore(state: State, history: seq<Event>, failure: Option<string>): Store
  {
    Store(map[1 := Entry(OneRecord(state, |history|, failure), "", "")], history, |history|)
  }

  const STARTED := [Event(1, 1, Pending, 0), Event(2, 1, Running, 0)]

  lemma OneReflects()
    ensures Reflects(OneStore(Running, STARTED, None), STARTED)
  {
    assert STARTED[..1][..0] == [] && STARTED[..1] == [STARTED[0]];
    assert LastEvent(STARTED[..1], 1) == Some(STARTED[0]);
    assert Lawful(STARTED[..1][..0]) && Lawful(STARTED[..1]) && Lawful(STARTED);
    assert STARTED[|STARTED| - 2..] == STARTED;
  }

  lemma OnlyOne(s: Store)
    requires s.ops.Keys == {1}
    ensures Enumerates([1], s.ops)
  {
  }

  /** The operation is running, in memory and in both files. */
  function OneWorld(): World
  {
    var s := OneStore(Running, STARTED, None);
    World(Some(s), ROOMY, s, s, STARTED, STARTED, STARTED, [])
  }

  lemma OneWorldIsFirm()
    ensures Inv(OneWorld()) && Firm(OneWorld(), true)
  {
    OneReflects();
    hide Reflects;
    assert |OneWorld().mem.value.ops| == 1;
  }

  const ENDING := Transition(1, Succeeded, 0, map[], None, 0, FailedNew)

  /** The write that fails after its rename. */
  lemma EndsUnsynced()
    ensures var v := Next(OneWorld(), ENDING);
      && v.disk.ops.Keys == {1} && v.disk.ops[1].record == OneRecord(Succeeded, 3, None)
      && v.safe == OneWorld().safe
  {
    hide Appended;
  }

  /** The hazard itself: the ending of a running operation is renamed into place but not synced; a restart
      adopts the file and serves Succeeded; the machine fails; recovery of the older file makes the same
      operation Failed. */
  lemma {:induction false} UnsyncedEndingCanChange()
    ensures var adopted := Exec(OneWorld(), [ENDING, Restart, Open(ROOMY, 1, [1], {1}, Saved)]);
      var again := Exec(adopted, [PowerLoss(false), Open(ROOMY, 1, [1], {1}, Saved)]);
      && Inv(OneWorld()) && Firm(OneWorld(), true)
      && adopted.mem.Some? && 1 in adopted.mem.value.ops && adopted.mem.value.ops[1].record.state == Succeeded
      && again.mem.Some? && 1 in again.mem.value.ops && again.mem.value.ops[1].record.state == Failed
  {
    OneWorldIsFirm();
    EndsUnsynced();
    assert OneWorld().safe.ops.Keys == {1} && OneWorld().safe.ops[1].record == OneRecord(Running, 2, None);
    var c, w1 := Open(ROOMY, 1, [1], {1}, Saved), Next(OneWorld(), ENDING);
    Stops(w1);
    hide Next, Inv, Firm, OneWorld, Exec;
    var w2 := Next(w1, Restart);
    OpensOne(w2, w1.disk);
    ThreeSteps(OneWorld(), ENDING, Restart, c);
    var adopted := Next(w2, c);
    Stops(adopted);
    OpensOne(Next(adopted, PowerLoss(false)), adopted.safe);
    TwoSteps(adopted, PowerLoss(false), c);
  }

  lemma Stops(w: World)
    ensures Next(w, Restart) == w.(mem := None)
    ensures Next(w, PowerLoss(false)) == w.(mem := None, disk := w.safe, onDisk := w.safeHistory)
  {
  }

  lemma ThreeSteps(w: World, a: Step, b: Step, c: Step)
    ensures Exec(w, [a, b, c]) == Next(Next(Next(w, a), b), c)
  {
    hide Next;
    assert [a, b, c][..2] == [a, b];
    TwoSteps(w, a, b);
  }

  /** Opening a file with one operation: a finished one is served as it is, a running one has failed. */
  lemma OpensOne(w: World, s: Store)
    requires w.mem.None? && w.disk == s && s.ops.Keys == {1} && s.ops[1].record.updated == 0
    requires s.ops[1].record.expires == 100 && !s.ops[1].record.expireOnRecovery
    ensures var v := Next(w, Open(ROOMY, 1, [1], {1}, Saved));
      && v.mem.Some? && 1 in v.mem.value.ops && v.safe == (if s.ops[1].record.state.Terminal() then w.safe else v.mem.value)
      && v.mem.value.ops[1].record.state == if s.ops[1].record.state.Terminal() then s.ops[1].record.state else Failed
  {
    var recovered := Recovered(s, ROOMY, [1], 1);
    assert [1][..0] == [];
    assert Recovered(s, ROOMY, [], 1) == s;
    assert recovered == RecoveredOne(s, ROOMY, 1, 1);
    hide Recovered, Reflects;
    assert recovered.ops.Keys == {1} && Kept(recovered, {1}).ops == recovered.ops;
    assert recovered.ops[1].record.state.Terminal();
    assert MayKeep(recovered, ROOMY, 1, {1});
    OnlyOne(s);
  }

  function EventsAfter(events: seq<Event>, cursor: nat): seq<Event>
  {
    if events == [] then []
    else
      var init := EventsAfter(events[..|events| - 1], cursor);
      if events[|events| - 1].sequence > cursor then init + [events[|events| - 1]] else init
  }

  lemma WindowIsExact(s: Store, h: seq<Event>, cursor: nat)
    requires Reflects(s, h) && |h| - |s.events| <= cursor <= |h|
    ensures EventsAfter(s.events, cursor) == h[cursor..]
  {
    var first := |h| - |s.events|;
    assert Lawful(h) && h[first..] == s.events;
    hide Reflects, Lawful, EventsAfter;
    assert h[first..|h|] == h[first..] && h[cursor..|h|] == h[cursor..];
    SuffixAfter(h, first, |h|, cursor);
  }

  /** The log is the newest run of consecutively numbered events, so a cursor inside the retained
      window gets exactly the events it has not seen. */
  lemma {:induction false} CursorMissesNothing(disk: Store, h: seq<Event>, steps: seq<Step>, cursor: nat)
    requires Reflects(disk, h)
    ensures var w := Exec(Boot(disk, h), steps);
      w.mem.Some? && |w.history| - |w.mem.value.events| <= cursor <= |w.history| ==>
      EventsAfter(w.mem.value.events, cursor) == w.history[cursor..]
  {
    RunsKeep(Boot(disk, h), steps, false);
    var w := Exec(Boot(disk, h), steps);
    if w.mem.Some? && |w.history| - |w.mem.value.events| <= cursor <= |w.history| {
      WindowIsExact(w.mem.value, w.history, cursor);
    }
  }

  lemma {:induction false} SuffixAfter(h: seq<Event>, lo: nat, hi: nat, cursor: nat)
    requires Lawful(h) && lo <= cursor && lo <= hi <= |h|
    ensures EventsAfter(h[lo..hi], cursor) == (if cursor <= hi then h[cursor..hi] else [])
    decreases hi
  {
    if lo < hi {
      SequenceIsPosition(h, hi - 1);
      assert h[lo..hi][..hi - lo - 1] == h[lo..hi - 1];
      SuffixAfter(h, lo, hi - 1, cursor);
    }
  }

  /** A refused creation leaves everything as it was, pruning included: a key that is known with another
      payload, and a store that is full with no operation for the key. */
  lemma {:induction false} RefusalChangesNothing(w: World, step: Step)
    requires step.Create? && w.mem.Some? && MayKeep(w.mem.value, w.limits, step.now, step.keep) && UniqueHashes(w.mem.value)
    requires var kept := Kept(w.mem.value, step.keep); var hash := step.request.hash;
      || (hash != "" && exists twin :: twin in kept.ops && kept.ops[twin].hash == hash && kept.ops[twin].digest != step.request.digest)
      || ((forall twin :: twin in kept.ops ==> hash == "" || kept.ops[twin].hash != hash) && |kept.ops| >= w.limits.maxOperations)
    ensures Next(w, step) == w
  {
    var kept := Kept(w.mem.value, step.keep);
    if twin :| step.request.hash != "" && twin in kept.ops && kept.ops[twin].hash == step.request.hash && kept.ops[twin].digest != step.request.digest {
      assert Matches(kept, twin, step.request.hash);
      assert forall other :: Matches(kept, other, step.request.hash) ==> other == twin;
    }
    hide MayKeep;
  }
}
