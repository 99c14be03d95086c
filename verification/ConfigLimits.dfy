/** Where the guarantees of the configuration store end, and exactly where. */
module ConfigLimits {
  import opened Common
  import opened ConfigState
  import opened ConfigRuns

  /** A preview answers with the next revision, whatever it previews: two of them contradict each other
      exactly when they preview different configurations, and a preview is what the same request would
      then store exactly when there is something to store. */
  lemma {:induction false} PreviewsExactly(k: Codec, mem: Snapshot, a: Config, b: Config, effective: Option<Config>)
    requires k.valid(a) && k.valid(b) && (effective.Some? ==> k.valid(effective.value))
    ensures var x := DecideApply(k, mem, mem.revision, Some(a), effective, true);
      var y := DecideApply(k, mem, mem.revision, Some(b), effective, true);
      && x.Answer? && y.Answer? && x.snapshot.revision == y.snapshot.revision == mem.revision + 1
      && (Follows(k, x.snapshot, y.snapshot) <==> k.norm(a) == k.norm(b))
      && (DecideApply(k, mem, mem.revision, Some(a), effective, false) == Persist(x.snapshot) <==>
            k.digest(k.norm(a)) != mem.digest || effective.Some?)
  {
  }

  lemma ExecSnoc(k: Codec, w: World, steps: seq<Step>, step: Step)
    ensures Exec(k, w, steps + [step]) == Next(k, Exec(k, w, steps), step)
  {
    assert (steps + [step])[..|steps|] == steps;
  }

  /** The counterexample for a directory whose metadata says revision 0: serve it, interrupt the
      next persist between its renames, lose power, open again. */
  function ZeroRun(other: Config): seq<Step>
  {
    [Open(None, 2)] + [Apply(1, Some(other), None, false, 5)] + [Lose(true, true, true)] + [Open(None, 2)]
  }

  lemma {:induction false} ZeroRevisionConflicts(k: Codec, c: Config, other: Config)
    requires Lawful(k) && k.valid(c) && k.valid(other) && k.norm(other) != k.norm(c)
    ensures var m := Some(Meta(0, k.digest(k.norm(c))));
      var w := World(Disk(Cell(Some(c), Some(c)), Cell(m, m), Cell(None, None)), None, []);
      Settled(k, w, ZeroRun(other)) && !Consistent(k, Exec(k, w, ZeroRun(other)).served)
  {
    var m := Some(Meta(0, k.digest(k.norm(c))));
    var w := World(Disk(Cell(Some(c), Some(c)), Cell(m, m), Cell(None, None)), None, []);
    var n := k.norm(c);
    var s1 := Open(None, 2);
    var s2 := Apply(1, Some(other), None, false, 5);
    var s3 := Lose(true, true, true);
    ExecSnoc(k, w, [], s1);
    ExecSnoc(k, w, [s1], s2);
    ExecSnoc(k, w, [s1] + [s2], s3);
    ExecSnoc(k, w, [s1] + [s2] + [s3], s1);
    var snap := Snapshot(1, k.digest(n), n, n);
    var w1 := Exec(k, w, [s1]);
    assert w1 == World(w.disk, Some(snap), [snap]);
    var w2 := Exec(k, w, [s1] + [s2]);
    ZeroInterrupted(k, w1, m, snap, other);
    ZeroReopened(k, w2, m, snap, other);
    ZeroIsSettled(k, w, w2, other, s1, s2, s3);
    hide Settled, Next;
    var w4 := Exec(k, w, ZeroRun(other));
    assert !Follows(k, w4.served[0], w4.served[1]);
  }

  lemma ZeroIsSettled(k: Codec, w: World, w2: World, other: Config, s1: Step, s2: Step, s3: Step)
    requires Lawful(k) && s1 == Open(None, 2) && s2 == Apply(1, Some(other), None, false, 5) && s3 == Lose(true, true, true)
    requires w.disk.config.latest.Some? && w.disk.config.durable == w.disk.config.latest
    requires w.disk.meta.durable == w.disk.meta.latest && w.disk.backup.durable == w.disk.backup.latest
    requires w2 == Exec(k, w, [s1] + [s2]) && w2.disk.config.latest == Some(other)
    ensures Settled(k, w, ZeroRun(other))
  {
    var steps := ZeroRun(other);
    FixedDoesNotRegress(k, w.disk, None);
    ExecSnoc(k, w, [s1] + [s2], s3);
    FixedDoesNotRegress(k, Next(k, w2, s3).disk, None);
    hide Regresses;
    forall n | 0 <= n < |steps| ensures !RegressingOpen(k, Exec(k, w, steps[..n]), steps[n]) {
      if n == 0 {
        assert steps[..0] == [];
      } else if n == 3 {
        assert steps[..3] == [s1] + [s2] + [s3];
      }
    }
  }

  lemma ZeroInterrupted(k: Codec, w: World, m: Option<Meta>, snap: Snapshot, other: Config)
    requires w.mem == Some(snap) && w.served == [snap] && snap.revision == 1
    requires w.disk.meta == Cell(m, m) && w.disk.config.latest.Some?
    requires k.valid(other) && m.Some? && snap.digest != k.digest(k.norm(other))
    ensures var v := Next(k, w, Apply(1, Some(other), None, false, 5));
            v.served == [snap] && v.disk.meta == Cell(m, m) && v.disk.config.latest == Some(other)
  {
    var next := Snapshot(2, k.digest(k.norm(other)), other, snap.effective);
    var ops := PersistOps(w.disk, next);
    assert ops[..5] == [CopyConfigToBackup, SyncDirectory, CopyMetaToBackup, SyncDirectory, RenameConfig(other)];
    FiveOps(w.disk, ops[..5]);
  }

  lemma ZeroReopened(k: Codec, w: World, m: Option<Meta>, snap: Snapshot, other: Config)
    requires Lawful(k) && k.valid(other) && m.Some? && m.value.revision == 0
    requires w.served == [snap] && w.disk.meta == Cell(m, m) && w.disk.config.latest == Some(other)
    requires m.value.digest != k.digest(k.norm(other))
    ensures var v := Next(k, Next(k, w, Lose(true, true, true)), Open(None, 2));
            |v.served| == 2 && v.served[0] == snap && v.served[1].revision == 1 && v.served[1].desired == k.norm(other)
  {
  }

  lemma FiveOps(d: Disk, ops: seq<DiskOp>)
    requires |ops| == 5
    ensures RunOps(d, ops) == RunOp(RunOp(RunOp(RunOp(RunOp(d, ops[0]), ops[1]), ops[2]), ops[3]), ops[4])
  {
    var d1 := RunOp(d, ops[0]);
    var d2 := RunOp(d1, ops[1]);
    var d3 := RunOp(d2, ops[2]);
    assert ops[1..][1..] == ops[2..] && ops[2..][1..] == ops[3..];
    assert RunOps(d, ops) == RunOps(d1, ops[1..]) == RunOps(d2, ops[2..]) == RunOps(d3, ops[3..]);
    assert ops[3..] == [ops[3], ops[4]];
    RunOpsTwo(d3, ops[3], ops[4]);
  }

  /** A directory in which everything is synced and a configuration exists is what it is after any
      power loss. */
  lemma FixedDoesNotRegress(k: Codec, d: Disk, initial: Option<Config>)
    requires Lawful(k) && d.config.latest.Some?
    requires d.config.durable == d.config.latest && d.meta.durable == d.meta.latest && d.backup.durable == d.backup.latest
    ensures !Regresses(k, d, initial)
  {
    var (d', r) := OpenSpec(k, d, initial, 2);
    OpenOutcome(k, d, initial, 2);
    if r.Ok? {
      forall c, m, b, later ensures !Contradicts(k, r.value, PowerLoss(d', c, m, b), later) {
        assert PowerLoss(d', c, m, b) == d';
        OpenOutcome(k, d', later, 2);
      }
    }
  }

  /** Exactly when a directory at revision 0 is safe: its recorded digest must not be that of
      the configuration beside it, so that the first open renumbers it. */
  lemma {:induction false} ZeroRevisionExactly(k: Codec, c: Config, other: Config, digest: Digest)
    requires Lawful(k) && k.valid(c) && k.valid(other) && k.norm(other) != k.norm(c)
    ensures var m := Some(Meta(0, digest));
      var w := World(Disk(Cell(Some(c), Some(c)), Cell(m, m), Cell(None, None)), None, []);
      (forall steps :: Settled(k, w, steps) ==> Consistent(k, Exec(k, w, steps).served)) <==>
      digest != k.digest(k.norm(c))
  {
    var m := Some(Meta(0, digest));
    var w := World(Disk(Cell(Some(c), Some(c)), Cell(m, m), Cell(None, None)), None, []);
    if digest == k.digest(k.norm(c)) {
      ZeroRevisionConflicts(k, c, other);
    } else {
      assert Renumbered(k, w.disk);
      hide Settled, Consistent, Exec;
      forall steps | Settled(k, w, steps) ensures Consistent(k, Exec(k, w, steps).served) {
        RevisionsAreConsistent(k, w.disk, steps);
      }
    }
  }

  /** An open that keeps unsynced metadata can serve a revision that a power loss takes back:
      the process ends between persist's renames and its sync, a new one serves what it finds,
      and the machine then fails. */
  lemma {:induction false} UnsyncedOpenCanRegress(k: Codec, c: Config, other: Config)
    requires Lawful(k) && k.valid(c) && k.valid(other) && k.norm(other) != k.norm(c)
    ensures var m := Some(Meta(1, k.digest(k.norm(c))));
      var w := World(Disk(Cell(Some(c), Some(c)), Cell(m, m), Cell(None, None)), None, []);
      var steps := [Open(None, 2)] + [Apply(1, Some(other), None, false, 6)] + [Exit] + [Open(None, 2)] +
                   [Lose(false, false, false)] + [Open(None, 2)];
      !Consistent(k, Exec(k, w, steps).served)
  {
    var m := Some(Meta(1, k.digest(k.norm(c))));
    var w := World(Disk(Cell(Some(c), Some(c)), Cell(m, m), Cell(None, None)), None, []);
    var n := k.norm(c);
    var s1, s2, s3, s5 := Open(None, 2), Apply(1, Some(other), None, false, 6), Exit, Lose(false, false, false);
    ExecSnoc(k, w, [], s1);
    ExecSnoc(k, w, [s1], s2);
    ExecSnoc(k, w, [s1] + [s2], s3);
    ExecSnoc(k, w, [s1] + [s2] + [s3], s1);
    ExecSnoc(k, w, [s1] + [s2] + [s3] + [s1], s5);
    ExecSnoc(k, w, [s1] + [s2] + [s3] + [s1] + [s5], s1);
    var snap := Snapshot(1, k.digest(n), n, n);
    assert Exec(k, w, [s1]) == World(w.disk, Some(snap), [snap]);
    var next := Snapshot(2, k.digest(k.norm(other)), other, n);
    var ops := PersistOps(w.disk, next);
    assert ops[..6] == ops[..5] + [ops[5]];
    assert ops[..5] == [CopyConfigToBackup, SyncDirectory, CopyMetaToBackup, SyncDirectory, RenameConfig(other)];
    RunOpsAppend(w.disk, ops[..5], [ops[5]]);
    FiveOps(w.disk, ops[..5]);
    RunOpsTwo(RunOps(w.disk, ops[..5]), ops[5], ops[5]);
    var w3 := Exec(k, w, [s1] + [s2] + [s3]);
    assert w3.served == [snap] && w3.mem.None?;
    assert w3.disk.meta == Cell(m, Some(Meta(2, next.digest))) && w3.disk.config == Cell(Some(c), Some(other));
    var w4 := Exec(k, w, [s1] + [s2] + [s3] + [s1]);
    assert w4.served[1].revision == 2 && w4.disk == w3.disk;
    var w6 := Exec(k, w, [s1] + [s2] + [s3] + [s1] + [s5] + [s1]);
    assert w6.served[1] == w4.served[1] && w6.served[2].revision == 1;
    assert !Follows(k, w6.served[1], w6.served[2]);
  }
}
