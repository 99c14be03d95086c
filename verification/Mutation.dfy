/**
 * Management mutations with compensation (src/mutation_runtime.go): compare-and-swap a changed
 * configuration, reload the provider runtime, and put the old configuration back if that fails.
 */
module Mutation {
  import opened Common
  import opened ConfigState

  datatype Report = Report(
    dryRun: bool, applied: bool, published: bool, currentRevision: nat, nextRevision: nat, changed: bool)

  datatype Outcome =
    | Done(report: Report)
    | Rejected(error: Error)            // nothing happened
    | Recovered(report: Report)         // the reload failed and the old configuration is back
    | Stranded(report: Report)          // the reload failed and so did putting it back

  /** How many disk operations a persist makes. */
  function PersistLength(disk: Disk): nat
  {
    3 + (if disk.config.latest.Some? then 2 else 0) + (if disk.meta.latest.Some? then 2 else 0)
  }

  /** The request is for the current revision and yields a configuration that is accepted. */
  predicate Admitted(k: Codec, mem: Snapshot, expected: nat, change: Config -> Option<Config>)
  {
    expected == mem.revision && change(mem.desired).Some? && k.valid(change(mem.desired).value)
  }

  /**
   * `change` is the typed mutation, `reload` whether the provider runtime accepts the new
   * configuration (None: no runtime is attached), `runtime` the configuration that runtime
   * serves. `stop` and `undoStop` are where the two persists are interrupted, if they are.
   */
  method ApplyManagedMutation(state: Manager, expected: nat, change: Config -> Option<Config>, dryRun: bool,
                              reload: Option<bool>, runtime: Config, stop: nat, undoStop: nat)
      returns (out: Outcome, runtime': Config)
    modifies state`disk, state`snapshot
    // exactly when each outcome occurs
    ensures out.Rejected? <==>
              || !Admitted(state.codec, old(state.snapshot), expected, change)
              || (!dryRun && (state.closed || stop < PersistLength(old(state.disk))))
    ensures out.Done? <==> !out.Rejected? && (dryRun || reload != Some(false))
    ensures out.Recovered? || out.Stranded? ==>
              (out.Recovered? <==>
                 && state.codec.valid(old(state.snapshot).desired) && state.codec.valid(old(state.snapshot).effective)
                 && undoStop >= 7)
    // conflicts, invalid requests and dry runs touch nothing
    ensures expected != old(state.snapshot).revision ==> out == Rejected(Conflict(expected, old(state.snapshot).revision))
    ensures out.Rejected? && out.error != PersistFailed ==> state.disk == old(state.disk)
    ensures out.Rejected? || dryRun ==> state.snapshot == old(state.snapshot) && runtime' == runtime
    ensures dryRun ==> state.disk == old(state.disk) && (out.Rejected? || (out.Done? && !out.report.applied))
    // a reported change is a change of the normalised configuration
    ensures out.Done? ==>
              var next := change(old(state.snapshot).desired);
              && next.Some? && state.codec.valid(next.value)
              && out.report.changed == (state.codec.digest(state.codec.norm(next.value)) != old(state.snapshot).digest)
              && out.report.currentRevision == old(state.snapshot).revision
              && out.report.nextRevision == old(state.snapshot).revision + 1
    // a committed mutation is in force everywhere, one revision on
    ensures out.Done? && !dryRun ==>
              && out.report.applied && out.report.published == (reload == Some(true))
              && state.snapshot.revision == old(state.snapshot).revision + 1
              && Some(state.snapshot.desired) == change(old(state.snapshot).desired)
              && state.snapshot.effective == state.snapshot.desired
              && (reload.Some? ==> runtime' == state.snapshot.effective)
    // compensation: the old configuration again, at a revision nobody has seen
    ensures out.Recovered? ==>
              && state.snapshot.desired == old(state.snapshot).desired
              && state.snapshot.effective == old(state.snapshot).effective
              && state.snapshot.revision == old(state.snapshot).revision + 2
              && !out.report.applied && !out.report.changed && !out.report.published
              && out.report.currentRevision == out.report.nextRevision == state.snapshot.revision
    ensures out.Recovered? || out.Stranded? ==> reload == Some(false) && runtime' == runtime && !dryRun
    ensures out.Stranded? ==> Some(state.snapshot.desired) == change(old(state.snapshot).desired)
    // configuration and runtime part only when the compensation itself fails
    ensures runtime == old(state.snapshot).effective && !out.Stranded? && (out.Done? ==> dryRun || reload.Some?) ==>
              runtime' == state.snapshot.effective
  {
    var before := state.snapshot;
    runtime' := runtime;
    if expected != before.revision {
      return Rejected(Conflict(expected, before.revision)), runtime;
    }
    var next := change(before.desired);
    if next.None? || !state.codec.valid(next.value) {
      return Rejected(Invalid), runtime;
    }
    var changed := state.codec.digest(state.codec.norm(next.value)) != before.digest;
    var report := Report(dryRun, false, false, before.revision, before.revision + 1, changed);
    if dryRun {
      return Done(report), runtime;
    }
    ghost var target := Snapshot(before.revision + 1, state.codec.digest(state.codec.norm(next.value)), next.value, next.value);
    assert |PersistOps(state.disk, target)| == PersistLength(state.disk);
    PersistLeavesBoth(state.disk, target);
    var applied := state.Apply(before.revision, next, next, false, stop);
    if applied.Err? {
      return Rejected(applied.error), runtime;
    }
    report := report.(applied := true, nextRevision := applied.value.revision);
    if reload.Some? {
      if !reload.value {
        var restored := state.Apply(applied.value.revision, Some(before.desired), Some(before.effective), false, undoStop);
        if restored.Err? {
          return Stranded(report), runtime;
        }
        var r := restored.value.revision;
        return Recovered(Report(false, false, false, r, r, false)), runtime;
      }
      report := report.(published := true);
      runtime' := applied.value.effective;
    }
    return Done(report), runtime';
  }

  /** After a complete persist there is a configuration and metadata to back up. */
  lemma PersistLeavesBoth(disk: Disk, next: Snapshot)
    ensures PersistLength(RunOps(disk, PersistOps(disk, next))) == 7
  {
    var ops := PersistOps(disk, next);
    var tail := [RenameConfig(next.desired), RenameMeta(Meta(next.revision, next.digest)), SyncDirectory];
    var head := ops[..|ops| - 3];
    assert ops == head + tail;
    RunOpsAppend(disk, head, tail);
    var d := RunOps(disk, head);
    assert tail == [tail[0]] + [tail[1], tail[2]];
    RunOpsAppend(d, [tail[0]], [tail[1], tail[2]]);
    RunOpsTwo(d, tail[0], tail[1]);
    RunOpsTwo(RunOp(d, tail[0]), tail[1], tail[2]);
  }
}
