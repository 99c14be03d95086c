/**
 * What the configuration store guarantees over whole runs: any sequence of opens, applies,
 * rollbacks and effective updates, each interrupted anywhere, with power losses in between.
 */
module ConfigRuns {
  import opened Common
  import opened ConfigState

  /** `served` lists the snapshots handed out, oldest first; dry-run previews are not among them. */
  datatype World = World(disk: Disk, mem: Option<Snapshot>, served: seq<Snapshot>)

  datatype Step =
    | Open(initial: Option<Config>, stop: nat)
    | Apply(expected: nat, desired: Option<Config>, effective: Option<Config>, dryRun: bool, stop: nat)
    | Rollback(expected: nat, stop: nat)
    | SetEffective(expected: nat, effective: Option<Config>, stop: nat)
    | Lose(keepConfig: bool, keepMeta: bool, keepBackup: bool)   // power loss
    | Exit                                                      // the process ends, the machine stays up

  function Served(w: World, disk: Disk, mem: Snapshot, r: Result<Snapshot, Error>, preview: bool): World
  {
    World(disk, Some(mem), if r.Ok? && !preview then w.served + [r.value] else w.served)
  }

  function Next(k: Codec, w: World, step: Step): World
  {
    match step
    case Open(initial, stop) =>
      if w.mem.Some? then w                // the process lock admits one manager
      else
        var (disk, r) := OpenSpec(k, w.disk, initial, stop);
        if r.Ok? then World(disk, Some(r.value), w.served + [r.value]) else w.(disk := disk)
    case Apply(expected, desired, effective, dryRun, stop) =>
      if w.mem.None? then w
      else
        var (d, m, r) := Carry(w.disk, w.mem.value, DecideApply(k, w.mem.value, expected, desired, effective, dryRun), stop);
        Served(w, d, m, r, dryRun)
    case Rollback(expected, stop) =>
      if w.mem.None? then w
      else
        var (d, m, r) := Carry(w.disk, w.mem.value, DecideRollback(k, w.mem.value, w.disk.backup.latest, expected), stop);
        Served(w, d, m, r, false)
    case SetEffective(expected, effective, stop) =>
      if w.mem.None? then w
      else
        var (d, m, r) := Carry(w.disk, w.mem.value, DecideSetEffective(k, w.mem.value, expected, effective), stop);
        Served(w, d, m, r, false)
    case Lose(c, m, b) => World(PowerLoss(w.disk, c, m, b), None, w.served)
    case Exit => w.(mem := None)
  }

  function Exec(k: Codec, w: World, steps: seq<Step>): World
    decreases |steps|
  {
    if steps == [] then w else Next(k, Exec(k, w, steps[..|steps| - 1]), steps[|steps| - 1])
  }

  /** Revisions never go back, and equal revisions mean equal normalised configurations. */
  ghost predicate Consistent(k: Codec, served: seq<Snapshot>)
  {
    forall i, j :: 0 <= i < j < |served| ==> Follows(k, served[i], served[j])
  }

  predicate Follows(k: Codec, a: Snapshot, b: Snapshot)
  {
    a.revision < b.revision || (a.revision == b.revision && k.norm(a.desired) == k.norm(b.desired))
  }

  /** Metadata that cannot be mistaken for an earlier state than `s`. */
  predicate Ahead(k: Codec, m: Option<Meta>, s: Snapshot)
  {
    m.Some? && (m.value.revision > s.revision ||
                (m.value.revision == s.revision && m.value.digest == k.digest(k.norm(s.desired))))
  }

  /** The revision at which an open serves the normalised configuration `c` when it finds `m`. */
  function Shown(k: Codec, m: Option<Meta>, c: Config): nat
  {
    match m
    case None => 1
    case Some(m) => if m.digest != k.digest(c) then m.revision + 1 else if m.revision == 0 then 1 else m.revision
  }

  /** Whatever an open finds in a configuration cell `x`, it serves something that may follow `s`;
      where there is no file, any initial configuration may be supplied. */
  ghost predicate Safe(k: Codec, x: Option<Config>, m: Option<Meta>, s: Snapshot)
  {
    forall y: Config :: k.valid(y) && (x.None? || x == Some(y)) ==>
      || Shown(k, m, k.norm(y)) > s.revision
      || (Shown(k, m, k.norm(y)) == s.revision && k.norm(y) == k.norm(s.desired))
  }

  /** An open may follow `s` whichever renames a power loss takes back. */
  ghost predicate SafeAfterLoss(k: Codec, d: Disk, s: Snapshot)
  {
    && Safe(k, d.config.latest, d.meta.latest, s) && Safe(k, d.config.durable, d.meta.latest, s)
    && Safe(k, d.config.latest, d.meta.durable, s) && Safe(k, d.config.durable, d.meta.durable, s)
  }

  /** Revision 0 does not describe the configuration `x`: an open finding both will renumber. */
  predicate Renumbers(k: Codec, x: Option<Config>, m: Option<Meta>)
  {
    m.Some? && m.value.revision == 0 ==> x.Some? && (k.valid(x.value) ==> m.value.digest != k.digest(k.norm(x.value)))
  }

  /** No open can keep metadata at revision 0, whatever a power loss takes back. */
  predicate Renumbered(k: Codec, d: Disk)
  {
    && Renumbers(k, d.config.latest, d.meta.latest) && Renumbers(k, d.config.durable, d.meta.latest)
    && Renumbers(k, d.config.latest, d.meta.durable) && Renumbers(k, d.config.durable, d.meta.durable)
  }

  /** The manager's snapshot is the last one served. */
  predicate Current(k: Codec, mem: Snapshot, s: Snapshot)
  {
    && s.revision == mem.revision > 0 && k.norm(s.desired) == k.norm(mem.desired)
    && k.valid(mem.desired) && mem.digest == k.digest(k.norm(mem.desired))
  }

  ghost predicate Inv(k: Codec, w: World)
  {
    && Consistent(k, w.served) && Renumbered(k, w.disk)
    && (forall i :: 0 <= i < |w.served| ==> k.valid(w.served[i].desired))
    && (w.served != [] ==> SafeAfterLoss(k, w.disk, w.served[|w.served| - 1]))
    && (w.mem.Some? ==>
          && w.served != [] && Current(k, w.mem.value, w.served[|w.served| - 1])
          && Ahead(k, w.disk.meta.latest, w.served[|w.served| - 1]))
  }

  /** What this open serves can be contradicted by the open after a power loss: the loss brings back
      a configuration and metadata that are shown at an earlier revision, or at the same one with
      another configuration. */
  ghost predicate Regresses(k: Codec, d: Disk, initial: Option<Config>)
  {
    var (d', r) := OpenSpec(k, d, initial, 2);
    r.Ok? && exists c, m, b, later :: Contradicts(k, r.value, PowerLoss(d', c, m, b), later)
  }

  /** Opening `d` serves a snapshot that does not follow `s`. */
  predicate Contradicts(k: Codec, s: Snapshot, d: Disk, initial: Option<Config>)
  {
    var r := OpenSpec(k, d, initial, 2).1;
    r.Ok? && !Follows(k, s, r.value)
  }

  lemma ServeKeeps(k: Codec, served: seq<Snapshot>, s: Snapshot)
    requires Consistent(k, served) && (served != [] ==> Follows(k, served[|served| - 1], s))
    ensures Consistent(k, served + [s])
  {
    var all := served + [s];
    forall i, j | 0 <= i < j < |all| ensures Follows(k, all[i], all[j]) {
      if j == |served| && i < j - 1 {
        assert Follows(k, served[i], served[j - 1]);
      }
    }
  }

  /** What a directory can hold while `next` is being persisted over `d`. */
  ghost predicate Between(d: Disk, d': Disk, next: Snapshot)
  {
    var m := Some(Meta(next.revision, next.digest));
    && d'.meta.durable in {d.meta.durable, d.meta.latest, m}
    && d'.meta.latest in {d.meta.latest, m}
    && d'.config.durable in {d.config.durable, d.config.latest, Some(next.desired)}
    && d'.config.latest in {d.config.latest, Some(next.desired)}
  }

  lemma {:induction false} PrefixIsBetween(d: Disk, d': Disk, ops: seq<DiskOp>, next: Snapshot)
    requires Between(d, d', next)
    requires forall n :: 0 <= n < |ops| && ops[n].RenameConfig? ==> ops[n].config == next.desired
    requires forall n :: 0 <= n < |ops| && ops[n].RenameMeta? ==> ops[n].meta == Meta(next.revision, next.digest)
    ensures Between(d, RunOps(d', ops), next)
    decreases |ops|
  {
    if ops != [] {
      assert Between(d, RunOp(d', ops[0]), next);
      PrefixIsBetween(d, RunOp(d', ops[0]), ops[1..], next);
    }
  }

  /** An interrupted persist leaves old or new content in every cell; a finished one leaves only
      the new content, durably. */
  lemma PersistOutcome(d: Disk, next: Snapshot, stop: nat)
    ensures var d' := Interrupted(d, PersistOps(d, next), stop);
      && Between(d, d', next)
      && (stop >= |PersistOps(d, next)| ==>
            && d'.meta == Cell(Some(Meta(next.revision, next.digest)), Some(Meta(next.revision, next.digest)))
            && d'.config == Cell(Some(next.desired), Some(next.desired)))
  {
    var ops := PersistOps(d, next);
    var part := if stop < |ops| then ops[..stop] else ops;
    PersistRenames(d, next, part, 0);
    PrefixIsBetween(d, d, part, next);
    var n := |ops| - 3;
    var last := [RenameConfig(next.desired), RenameMeta(Meta(next.revision, next.digest)), SyncDirectory];
    assert ops == ops[..n] + last;
    RunOpsAppend(d, ops[..n], last);
    assert last == [last[0]] + last[1..];
    RunOpsAppend(RunOps(d, ops[..n]), [last[0]], last[1..]);
    assert last[1..] == [last[1], last[2]];
    RunOpsTwo(RunOp(RunOps(d, ops[..n]), last[0]), last[1], last[2]);
    RunOpsTwo(RunOps(d, ops[..n]), last[0], last[1]);
  }

  /** Metadata ahead of `s` is safe with any configuration. */
  lemma AheadIsSafe(k: Codec, x: Option<Config>, m: Option<Meta>, s: Snapshot)
    requires Lawful(k) && k.valid(s.desired) && Ahead(k, m, s)
    ensures Safe(k, x, m, s)
  {
  }

  lemma BothAhead(k: Codec, d: Disk, s: Snapshot)
    requires Lawful(k) && k.valid(s.desired) && Ahead(k, d.meta.latest, s) && Ahead(k, d.meta.durable, s)
    requires s.revision > 0
    ensures SafeAfterLoss(k, d, s) && Renumbered(k, d)
  {
    AheadIsSafe(k, d.config.latest, d.meta.latest, s);
    AheadIsSafe(k, d.config.durable, d.meta.latest, s);
    AheadIsSafe(k, d.config.latest, d.meta.durable, s);
    AheadIsSafe(k, d.config.durable, d.meta.durable, s);
  }

  /** A persist renames nothing but what it persists. */
  lemma PersistRenames(d: Disk, next: Snapshot, part: seq<DiskOp>, k: nat)
    requires k + |part| <= |PersistOps(d, next)| && part == PersistOps(d, next)[k..k + |part|]
    ensures forall n :: 0 <= n < |part| && part[n].RenameConfig? ==> part[n].config == next.desired
    ensures forall n :: 0 <= n < |part| && part[n].RenameMeta? ==> part[n].meta == Meta(next.revision, next.digest)
  {
    var ops := PersistOps(d, next);
    forall n | 0 <= n < |part| ensures part[n] == ops[k + n] {
    }
  }

  /** A persist syncs what was there before it renames anything: until then only the backup changes,
      and afterwards all metadata on disk is what was visible or the new one. */
  lemma PersistSyncsFirst(d: Disk, next: Snapshot, stop: nat)
    requires d.meta.latest.Some?
    ensures var d' := Interrupted(d, PersistOps(d, next), stop); var m := Some(Meta(next.revision, next.digest));
      || (d'.config == d.config && d'.meta == d.meta)
      || (d'.meta.durable in {d.meta.latest, m} && d'.meta.latest in {d.meta.latest, m})
  {
    var ops := PersistOps(d, next);
    var some := if stop < |ops| then ops[..stop] else ops;
    if |some| >= 2 {
      assert some == ops[..2] + some[2..];
      RunOpsAppend(d, ops[..2], some[2..]);
      assert ops[..2] == [ops[0], ops[1]];
      RunOpsTwo(d, ops[0], ops[1]);
      var d2 := RunOps(d, ops[..2]);
      PersistRenames(d, next, some[2..], 2);
      PrefixIsBetween(d2, d2, some[2..], next);
    } else if |some| == 1 {
      assert some == [ops[0]];
      RunOpsTwo(d, ops[0], ops[0]);
    }
  }

  lemma PersistKeepsSafe(k: Codec, w: World, next: Snapshot, stop: nat)
    requires Lawful(k) && Inv(k, w) && w.mem.Some? && w.served[|w.served| - 1].revision > 0
    requires next.revision == w.mem.value.revision + 1
    ensures var d := Interrupted(w.disk, PersistOps(w.disk, next), stop); var s := w.served[|w.served| - 1];
      SafeAfterLoss(k, d, s) && Renumbered(k, d) && Ahead(k, d.meta.latest, s)
  {
    var s, d := w.served[|w.served| - 1], Interrupted(w.disk, PersistOps(w.disk, next), stop);
    PersistSyncsFirst(w.disk, next, stop);
    hide SafeAfterLoss, Renumbered, Consistent;
    if !(d.config == w.disk.config && d.meta == w.disk.meta) {
      BothAhead(k, d, s);
    } else {
      SameCells(k, w.disk, d, s);
    }
  }

  lemma SameCells(k: Codec, d: Disk, d': Disk, s: Snapshot)
    requires d'.config == d.config && d'.meta == d.meta
    ensures SafeAfterLoss(k, d, s) ==> SafeAfterLoss(k, d', s)
    ensures Renumbered(k, d) ==> Renumbered(k, d')
  {
  }

  lemma CarryKeeps(k: Codec, w: World, decision: Decision, stop: nat, preview: bool)
    requires Lawful(k) && Inv(k, w) && w.mem.Some? && w.mem.value.revision > 0
    requires decision.Answer? ==> preview || decision.snapshot == w.mem.value
    requires decision.Persist? ==>
      && decision.next.revision == w.mem.value.revision + 1
      && k.valid(decision.next.desired) && decision.next.digest == k.digest(k.norm(decision.next.desired))
      && !preview
    ensures var (d, m, r) := Carry(w.disk, w.mem.value, decision, stop);
      Inv(k, Served(w, d, m, r, preview))
  {
    var (d, m, r) := Carry(w.disk, w.mem.value, decision, stop);
    var s := w.served[|w.served| - 1];
    if decision.Persist? {
      PersistOutcome(w.disk, decision.next, stop);
      PersistKeepsSafe(k, w, decision.next, stop);
    }
    hide Safe, Renumbers;
    if r.Ok? && !preview {
      ServeKeeps(k, w.served, r.value);
      if decision.Persist? {
        BothAhead(k, d, r.value);
      } else {
        assert r.value == w.mem.value;
        SameSnapshot(k, w.disk, s, r.value);
      }
    }
  }

  lemma SameSnapshot(k: Codec, d: Disk, s: Snapshot, t: Snapshot)
    requires s.revision == t.revision && k.norm(s.desired) == k.norm(t.desired) && SafeAfterLoss(k, d, s)
    ensures SafeAfterLoss(k, d, t)
  {
  }

  // ---------------------------------------------------------------- opening

  /** What an open that serves does to the directory: it keeps the metadata it finds and writes
      nothing, or it writes metadata for what it serves and syncs everything. */
  lemma OpenOutcome(k: Codec, d: Disk, initial: Option<Config>, stop: nat)
    ensures var (d', r) := OpenSpec(k, d, initial, stop);
      && (r.Ok? ==>
            var x := if d.config.latest.Some? then d.config.latest else initial;
            && x.Some? && k.valid(x.value)
            && r.value == Snapshot(Shown(k, d.meta.latest, k.norm(x.value)), k.digest(k.norm(x.value)), k.norm(x.value), k.norm(x.value))
            && (LoadOps(k, d, k.norm(x.value)) == [] ==> d' == d)
            && (LoadOps(k, d, k.norm(x.value)) != [] ==>
                  d' == Disk(Synced(d.config), Cell(Some(Meta(r.value.revision, r.value.digest)), Some(Meta(r.value.revision, r.value.digest))), Synced(d.backup))))
      && (!r.Ok? ==> d' == d || RepairUnsynced(k, d, initial, d'))
  {
    if LoadedConfig(k, d, initial).Ok? {
      var c := LoadedConfig(k, d, initial).value;
      var m := LoadedMeta(k, d, c);
      var ops := LoadOps(k, d, c);
      RunOpsTwo(d, RenameMeta(m), SyncDirectory);
      assert ops != [] ==> ops[..0] == [] && ops[..1] == [RenameMeta(m)];
    }
  }

  /** The repair was renamed into place and then interrupted. */
  predicate RepairUnsynced(k: Codec, d: Disk, initial: Option<Config>, d': Disk)
  {
    var x := if d.config.latest.Some? then d.config.latest else initial;
    && x.Some? && k.valid(x.value)
    && d' == d.(meta := Cell(d.meta.durable, Some(Meta(Shown(k, d.meta.latest, k.norm(x.value)), k.digest(k.norm(x.value))))))
  }

  /** A repair that is not synced yet is as safe as what it repairs. */
  lemma RepairKeepsSafe(k: Codec, d: Disk, initial: Option<Config>, d': Disk, s: Snapshot)
    requires Lawful(k) && RepairUnsynced(k, d, initial, d') && k.valid(s.desired)
    ensures SafeAfterLoss(k, d, s) ==> SafeAfterLoss(k, d', s)
  {
    var x := if d.config.latest.Some? then d.config.latest else initial;
    var c := k.norm(x.value);
    if SafeAfterLoss(k, d, s) {
      assert k.valid(x.value);
      assert Safe(k, d.config.latest, d.meta.latest, s);
      assert Ahead(k, d'.meta.latest, s);
      AheadIsSafe(k, d.config.latest, d'.meta.latest, s);
      AheadIsSafe(k, d.config.durable, d'.meta.latest, s);
    }
  }

  lemma RepairKeepsNumbers(k: Codec, d: Disk, initial: Option<Config>, d': Disk)
    requires RepairUnsynced(k, d, initial, d') && Renumbered(k, d)
    ensures Renumbered(k, d')
  {
  }

  /** The metadata of a served snapshot is ahead of it. */
  lemma ServedIsAhead(k: Codec, d: Disk, initial: Option<Config>, stop: nat)
    requires Lawful(k) && Renumbered(k, d) && OpenSpec(k, d, initial, stop).1.Ok?
    ensures var (d', r) := OpenSpec(k, d, initial, stop);
      && k.valid(r.value.desired) && k.norm(r.value.desired) == r.value.desired && r.value.revision > 0
      && d'.meta.latest == Some(Meta(r.value.revision, r.value.digest)) && r.value.digest == k.digest(r.value.desired)
  {
    OpenOutcome(k, d, initial, stop);
  }

  /** Exactly when an open regresses: it keeps metadata that is not synced, and the durable metadata
      with one of the two configurations is shown at an earlier revision than the kept one, or at the
      same revision with another configuration. */
  lemma {:induction false} RegressesExactly(k: Codec, d: Disk, initial: Option<Config>)
    requires Lawful(k) && Renumbered(k, d) && OpenSpec(k, d, initial, 2).1.Ok?
    ensures var s := OpenSpec(k, d, initial, 2).1.value;
      && (Regresses(k, d, initial) <==> !SafeAfterLoss(k, OpenSpec(k, d, initial, 2).0, s))
      && (Regresses(k, d, initial) <==>
            && LoadOps(k, d, s.desired) == []
            && !(Safe(k, d.config.latest, d.meta.durable, s) && Safe(k, d.config.durable, d.meta.durable, s)))
  {
    var (d', r) := OpenSpec(k, d, initial, 2);
    var s := r.value;
    OpenOutcome(k, d, initial, 2);
    ServedIsAhead(k, d, initial, 2);
    AheadIsSafe(k, d.config.latest, d'.meta.latest, s);
    AheadIsSafe(k, d.config.durable, d'.meta.latest, s);
    LossIsSafe(k, d', s, true, true);
    LossIsSafe(k, d', s, true, false);
    LossIsSafe(k, d', s, false, true);
    LossIsSafe(k, d', s, false, false);
    hide OpenSpec, Safe, PowerLoss, Contradicts;
    if Regresses(k, d, initial) {
      var c, m, b, later :| Contradicts(k, s, PowerLoss(d', c, m, b), later);
      LossIsSafe(k, d', s, c, m);
    }
  }

  /** After a loss, an open contradicts `s` for some initial configuration exactly when what the loss
      left is not safe. */
  lemma LossIsSafe(k: Codec, d: Disk, s: Snapshot, keepConfig: bool, keepMeta: bool)
    requires Lawful(k)
    ensures var x := if keepConfig then d.config.latest else d.config.durable;
      var m := if keepMeta then d.meta.latest else d.meta.durable;
      && (!Safe(k, x, m, s) ==> exists later :: Contradicts(k, s, PowerLoss(d, keepConfig, keepMeta, true), later))
      && (Safe(k, x, m, s) ==> forall b, later :: !Contradicts(k, s, PowerLoss(d, keepConfig, keepMeta, b), later))
  {
    var x := if keepConfig then d.config.latest else d.config.durable;
    var m := if keepMeta then d.meta.latest else d.meta.durable;
    forall b, later ensures Safe(k, x, m, s) ==> !Contradicts(k, s, PowerLoss(d, keepConfig, keepMeta, b), later) {
      OpenOutcome(k, PowerLoss(d, keepConfig, keepMeta, b), later, 2);
    }
    if !Safe(k, x, m, s) {
      var y: Config :| k.valid(y) && (x.None? || x == Some(y)) &&
        !(Shown(k, m, k.norm(y)) > s.revision || (Shown(k, m, k.norm(y)) == s.revision && k.norm(y) == k.norm(s.desired)));
      var lost := PowerLoss(d, keepConfig, keepMeta, true);
      OpenOutcome(k, lost, Some(y), 2);
      assert OpenSpec(k, lost, Some(y), 2).1.Ok?;
      assert Contradicts(k, s, lost, Some(y));
    }
  }

  /** An open of synced metadata never regresses. */
  lemma SyncedDoesNotRegress(k: Codec, d: Disk, initial: Option<Config>)
    requires Lawful(k) && Renumbered(k, d) && d.meta.durable == d.meta.latest
    ensures !Regresses(k, d, initial)
  {
    if OpenSpec(k, d, initial, 2).1.Ok? {
      RegressesExactly(k, d, initial);
      OpenOutcome(k, d, initial, 2);
      ServedIsAhead(k, d, initial, 2);
      var s := OpenSpec(k, d, initial, 2).1.value;
      if LoadOps(k, d, s.desired) == [] {
        AheadIsSafe(k, d.config.latest, d.meta.durable, s);
        AheadIsSafe(k, d.config.durable, d.meta.durable, s);
      }
    }
  }

  lemma OpenKeeps(k: Codec, w: World, step: Step)
    requires Lawful(k) && Inv(k, w) && step.Open? && w.mem.None? && !Regresses(k, w.disk, step.initial)
    ensures Inv(k, Next(k, w, step))
  {
    var (d, r) := OpenSpec(k, w.disk, step.initial, step.stop);
    OpenOutcome(k, w.disk, step.initial, step.stop);
    InvIsRenumbered(k, w);
    hide OpenSpec, LoadOps, Inv, Renumbered, Regresses, SafeAfterLoss;
    if r.Ok? {
      ServedIsAhead(k, w.disk, step.initial, step.stop);
      OpenAgrees(k, w.disk, step.initial, step.stop);
      RegressesExactly(k, w.disk, step.initial);
      if w.served != [] {
        OpenFollows(k, w, step.initial, step.stop);
      }
      if d != w.disk {
        BothAhead(k, d, r.value);
      }
      Adopted(k, w, d, r.value);
    } else if d != w.disk {
      RepairKeepsNumbers(k, w.disk, step.initial, d);
      Repaired(k, w, step.initial, d);
    }
  }

  /** A served snapshot that may follow the others and is safe joins them. */
  lemma Adopted(k: Codec, w: World, d: Disk, s: Snapshot)
    requires Inv(k, w) && Renumbered(k, d) && SafeAfterLoss(k, d, s) && k.valid(s.desired) && s.revision > 0
    requires s.digest == k.digest(k.norm(s.desired)) && d.meta.latest == Some(Meta(s.revision, s.digest))
    requires w.served != [] ==> Follows(k, w.served[|w.served| - 1], s)
    ensures Inv(k, World(d, Some(s), w.served + [s]))
  {
    hide SafeAfterLoss, Renumbered;
    ServeKeeps(k, w.served, s);
    hide Consistent;
  }

  lemma Repaired(k: Codec, w: World, initial: Option<Config>, d: Disk)
    requires Lawful(k) && Inv(k, w) && w.mem.None? && RepairUnsynced(k, w.disk, initial, d) && Renumbered(k, d)
    ensures Inv(k, w.(disk := d))
  {
    if w.served != [] {
      RepairKeepsSafe(k, w.disk, initial, d, w.served[|w.served| - 1]);
    }
    hide SafeAfterLoss, Renumbered, RepairUnsynced;
  }

  lemma InvIsRenumbered(k: Codec, w: World)
    ensures Inv(k, w) ==> Renumbered(k, w.disk)
  {
  }

  /** Where it serves at all, an open serves what an uninterrupted one serves. */
  lemma OpenAgrees(k: Codec, d: Disk, initial: Option<Config>, stop: nat)
    requires OpenSpec(k, d, initial, stop).1.Ok?
    ensures OpenSpec(k, d, initial, 2) == OpenSpec(k, d, initial, stop)
  {
  }

  lemma OpenFollows(k: Codec, w: World, initial: Option<Config>, stop: nat)
    requires Lawful(k) && Inv(k, w) && OpenSpec(k, w.disk, initial, stop).1.Ok? && w.served != []
    ensures Follows(k, w.served[|w.served| - 1], OpenSpec(k, w.disk, initial, stop).1.value)
  {
    OpenOutcome(k, w.disk, initial, stop);
    assert Safe(k, w.disk.config.latest, w.disk.meta.latest, w.served[|w.served| - 1]);
  }

  /** A power loss gives back some of what it finds. */
  lemma LossKeeps(k: Codec, d: Disk, c: bool, m: bool, b: bool)
    ensures Renumbered(k, d) ==> Renumbered(k, PowerLoss(d, c, m, b))
    ensures forall s :: SafeAfterLoss(k, d, s) ==> SafeAfterLoss(k, PowerLoss(d, c, m, b), s)
  {
    hide Safe;
  }

  ghost predicate RegressingOpen(k: Codec, w: World, step: Step)
  {
    step.Open? && w.mem.None? && Regresses(k, w.disk, step.initial)
  }

  lemma NextKeeps(k: Codec, w: World, step: Step)
    requires Lawful(k) && Inv(k, w) && !RegressingOpen(k, w, step)
    ensures Inv(k, Next(k, w, step))
  {
    hide SafeAfterLoss, Renumbered, Regresses;
    match step
    case Open(initial, stop) => if w.mem.None? { OpenKeeps(k, w, step); }
    case Apply(expected, desired, effective, dryRun, stop) =>
      if w.mem.Some? {
        CarryKeeps(k, w, DecideApply(k, w.mem.value, expected, desired, effective, dryRun), stop, dryRun);
      }
    case Rollback(expected, stop) =>
      if w.mem.Some? {
        CarryKeeps(k, w, DecideRollback(k, w.mem.value, w.disk.backup.latest, expected), stop, false);
      }
    case SetEffective(expected, effective, stop) =>
      if w.mem.Some? {
        CarryKeeps(k, w, DecideSetEffective(k, w.mem.value, expected, effective), stop, false);
      }
    case Lose(c, m, b) => LossKeeps(k, w.disk, c, m, b);
    case Exit =>
  }

  /** No open of the run serves what a power loss could contradict. */
  ghost predicate Settled(k: Codec, w: World, steps: seq<Step>)
  {
    forall n :: 0 <= n < |steps| ==> !RegressingOpen(k, Exec(k, w, steps[..n]), steps[n])
  }

  lemma SettledSnoc(k: Codec, w: World, steps: seq<Step>)
    requires steps != []
    ensures var init := steps[..|steps| - 1];
      Settled(k, w, steps) <==> Settled(k, w, init) && !RegressingOpen(k, Exec(k, w, init), steps[|steps| - 1])
  {
    hide RegressingOpen, Exec;
    var init := steps[..|steps| - 1];
    assert steps[..|init|] == init;
    forall n | 0 <= n < |init| ensures init[..n] == steps[..n] {
    }
    if Settled(k, w, steps) {
      forall n | 0 <= n < |init| ensures !RegressingOpen(k, Exec(k, w, init[..n]), init[n]) {
        assert !RegressingOpen(k, Exec(k, w, steps[..n]), steps[n]);
      }
    }
    if Settled(k, w, init) && !RegressingOpen(k, Exec(k, w, init), steps[|init|]) {
      forall n | 0 <= n < |steps| ensures !RegressingOpen(k, Exec(k, w, steps[..n]), steps[n]) {
        if n < |init| {
          assert !RegressingOpen(k, Exec(k, w, init[..n]), init[n]);
        }
      }
    }
  }

  lemma {:induction false} RunsKeep(k: Codec, w: World, steps: seq<Step>)
    requires Lawful(k) && Inv(k, w) && Settled(k, w, steps)
    ensures Inv(k, Exec(k, w, steps))
  {
    hide Inv, RegressingOpen, Next, Settled;
    if steps != [] {
      SettledSnoc(k, w, steps);
      RunsKeep(k, w, steps[..|steps| - 1]);
      NextKeeps(k, Exec(k, w, steps[..|steps| - 1]), steps[|steps| - 1]);
    }
  }

  /** Whatever is requested, and wherever it is interrupted, the snapshots served over a run have
      non-decreasing revisions, and a revision never stands for two configurations, unless some open
      serves what a power loss can contradict. */
  lemma {:induction false} RevisionsAreConsistent(k: Codec, disk: Disk, steps: seq<Step>)
    requires Lawful(k) && Renumbered(k, disk) && Settled(k, World(disk, None, []), steps)
    ensures Consistent(k, Exec(k, World(disk, None, []), steps).served)
  {
    RunsKeep(k, World(disk, None, []), steps);
  }

  /** That condition cannot be weakened: from any reachable state, an open may be allowed exactly when
      it does not regress. */
  lemma {:induction false} SettledExactly(k: Codec, w: World, initial: Option<Config>)
    requires Lawful(k) && Inv(k, w) && w.mem.None? && OpenSpec(k, w.disk, initial, 2).1.Ok?
    ensures var v := Next(k, w, Open(initial, 2));
      (forall steps :: Settled(k, v, steps) ==> Consistent(k, Exec(k, v, steps).served)) <==> !Regresses(k, w.disk, initial)
  {
    var v := Next(k, w, Open(initial, 2));
    if Regresses(k, w.disk, initial) {
      var c, m, b, later :| Contradicts(k, v.mem.value, PowerLoss(v.disk, c, m, b), later);
      RegressingRun(k, w, initial, c, m, b, later);
    } else {
      NextKeeps(k, w, Open(initial, 2));
      hide Inv, Next, Regresses, OpenSpec, Settled;
      forall steps | Settled(k, v, steps) ensures Consistent(k, Exec(k, v, steps).served) {
        RunsKeep(k, v, steps);
        InvIsConsistent(k, Exec(k, v, steps));
      }
    }
  }

  lemma InvIsConsistent(k: Codec, w: World)
    ensures Inv(k, w) ==> Consistent(k, w.served)
  {
  }

  /** The run that shows it: lose power, open again. */
  lemma RegressingRun(k: Codec, w: World, initial: Option<Config>, c: bool, m: bool, b: bool, later: Option<Config>)
    requires Lawful(k) && Inv(k, w) && w.mem.None? && OpenSpec(k, w.disk, initial, 2).1.Ok?
    requires var v := Next(k, w, Open(initial, 2)); Contradicts(k, v.mem.value, PowerLoss(v.disk, c, m, b), later)
    ensures var v := Next(k, w, Open(initial, 2)); var steps := [Lose(c, m, b), Open(later, 2)];
      Settled(k, v, steps) && !Consistent(k, Exec(k, v, steps).served)
  {
    var v, steps := Next(k, w, Open(initial, 2)), [Lose(c, m, b), Open(later, 2)];
    var lost := Next(k, v, steps[0]);
    assert steps[..0] == [] && steps[..1] == [steps[0]] && [steps[0]][..0] == [];
    assert Exec(k, v, steps[..1]) == lost;
    ServedIsAhead(k, w.disk, initial, 2);
    OpenOutcome(k, w.disk, initial, 2);
    assert Renumbered(k, v.disk);
    LossKeeps(k, v.disk, c, m, b);
    SyncedDoesNotRegress(k, lost.disk, later);
    hide Regresses, Renumbered, SafeAfterLoss;
    var end := Exec(k, v, steps);
    assert end == Next(k, lost, steps[1]);
    var n := |w.served|;
    assert end.served[n] == v.mem.value && |end.served| == n + 2;
    assert !Follows(k, end.served[n], end.served[n + 1]);
  }

  // ---------------------------------------------------------------- runs that are always settled

  /** Since the last power loss, some step was cut short. */
  predicate Cut(steps: seq<Step>)
  {
    steps != [] &&
    var last := steps[|steps| - 1];
    match last
    case Lose(_, _, _) => false
    case Open(_, stop) => stop < 2 || Cut(steps[..|steps| - 1])
    case Apply(_, _, _, _, stop) => stop < 7 || Cut(steps[..|steps| - 1])
    case Rollback(_, stop) => stop < 7 || Cut(steps[..|steps| - 1])
    case SetEffective(_, _, stop) => stop < 7 || Cut(steps[..|steps| - 1])
    case Exit => Cut(steps[..|steps| - 1])
  }

  /** Since the last power loss, the process has ended or an open was cut short. */
  predicate Ended(steps: seq<Step>)
  {
    steps != [] &&
    var last := steps[|steps| - 1];
    !last.Lose? && (last.Exit? || (last.Open? && last.stop < 2) || Ended(steps[..|steps| - 1]))
  }

  /** Between two power losses the process may end, or steps may be cut short, but no open follows
      both: a process that has seen a fault goes down with the machine. */
  predicate Orderly(steps: seq<Step>)
  {
    forall n :: 0 <= n < |steps| && steps[n].Open? ==> !(Cut(steps[..n]) && Ended(steps[..n]))
  }

  predicate MetaSynced(w: World)
  {
    w.disk.meta.durable == w.disk.meta.latest
  }

  lemma CompletePersistSyncs(k: Codec, w: World, step: Step)
    requires (step.Apply? || step.Rollback? || step.SetEffective?) && step.stop >= 7 && MetaSynced(w)
    ensures MetaSynced(Next(k, w, step))
  {
    forall next ensures |PersistOps(w.disk, next)| <= 7 {
    }
    forall next ensures var d := Interrupted(w.disk, PersistOps(w.disk, next), step.stop); d.meta.durable == d.meta.latest {
      PersistOutcome(w.disk, next, step.stop);
    }
  }

  lemma OrderlySnoc(steps: seq<Step>)
    requires steps != [] && Orderly(steps)
    ensures var init := steps[..|steps| - 1];
      Orderly(init) && (steps[|steps| - 1].Open? ==> !(Cut(init) && Ended(init)))
  {
    hide Cut, Ended;
    var init := steps[..|steps| - 1];
    forall n | 0 <= n < |init| && init[n].Open? ensures !(Cut(init[..n]) && Ended(init[..n])) {
      assert init[..n] == steps[..n];
    }
    assert steps[..|init|] == init;
  }

  lemma {:induction false} OrderlyIsSynced(k: Codec, w: World, steps: seq<Step>)
    requires w.mem.None? && MetaSynced(w) && Orderly(steps)
    ensures !Cut(steps) ==> MetaSynced(Exec(k, w, steps))
    ensures !Ended(steps) && Exec(k, w, steps).mem.None? ==> MetaSynced(Exec(k, w, steps))
  {
    hide Orderly;
    if steps != [] {
      var init, last := steps[..|steps| - 1], steps[|steps| - 1];
      OrderlySnoc(steps);
      OrderlyIsSynced(k, w, init);
      var v := Exec(k, w, init);
      if last.Open? {
        OpenOutcome(k, v.disk, last.initial, last.stop);
        hide OpenSpec;
      } else if (last.Apply? || last.Rollback? || last.SetEffective?) && last.stop >= 7 && MetaSynced(v) {
        CompletePersistSyncs(k, v, last);
        hide Carry;
      } else {
        hide Carry;
      }
    }
  }

  lemma {:induction false} OrderlyIsSettled(k: Codec, w: World, steps: seq<Step>)
    requires Lawful(k) && Inv(k, w) && w.mem.None? && MetaSynced(w) && Orderly(steps)
    ensures Settled(k, w, steps)
  {
    if steps != [] {
      var init, last := steps[..|steps| - 1], steps[|steps| - 1];
      hide Inv, Renumbered, Cut, Ended, Next, Regresses, Orderly, Settled, Exec;
      OrderlySnoc(steps);
      OrderlyIsSettled(k, w, init);
      RunsKeep(k, w, init);
      OrderlyIsSynced(k, w, init);
      var v := Exec(k, w, init);
      InvIsRenumbered(k, v);
      if last.Open? && v.mem.None? {
        SyncedDoesNotRegress(k, v.disk, last.initial);
      }
      SettledSnoc(k, w, steps);
    }
  }

  /** The guarantee for those runs, from any directory the store has ever written: process exits,
      cut steps and power losses in any order in which a fault is not followed by a restart on a
      machine that stayed up. */
  lemma {:induction false} CrashRunsAreConsistent(k: Codec, disk: Disk, steps: seq<Step>)
    requires Lawful(k) && Renumbered(k, disk) && disk.meta.durable == disk.meta.latest && Orderly(steps)
    ensures Consistent(k, Exec(k, World(disk, None, []), steps).served)
  {
    OrderlyIsSettled(k, World(disk, None, []), steps);
    RevisionsAreConsistent(k, disk, steps);
  }

  /** An open that is cut after its rename serves nothing and leaves the repaired metadata behind, visible
      but not durable; one that is cut before leaves nothing. */
  lemma {:induction false} CutOpenLeavesRepair(k: Codec, w: World, c: Config)
    requires w.mem.None? && w.disk.config.latest == Some(c) && k.valid(c)
    requires w.disk.meta.latest.None? || w.disk.meta.latest.value.digest != k.digest(k.norm(c))
    ensures Next(k, w, Open(None, 0)) == w
    ensures var v := Next(k, w, Open(None, 1));
      && v.mem.None? && v.served == w.served && v.disk.config == w.disk.config && v.disk.meta.durable == w.disk.meta.durable
      && v.disk.meta.latest == Some(Meta(if w.disk.meta.latest.None? then 1 else w.disk.meta.latest.value.revision + 1, k.digest(k.norm(c))))
  {
    var m := LoadedMeta(k, w.disk, k.norm(c));
    var ops := LoadOps(k, w.disk, k.norm(c));
    assert ops == [RenameMeta(m), SyncDirectory] && ops[..0] == [] && ops[..1] == [RenameMeta(m)];
    RunOpsTwo(w.disk, RenameMeta(m), SyncDirectory);
  }

  /** An interrupted repair of a synced configuration is harmless too: the next open keeps it unsynced,
      and after a power loss the repair is made again at the same revision. */
  lemma {:induction false} InterruptedRepairIsHarmless(k: Codec, d: Disk, initial: Option<Config>)
    requires Lawful(k) && Renumbered(k, d) && d.config.latest.Some? && d.config.durable == d.config.latest
    requires k.valid(d.config.latest.value)
    requires var c := k.norm(d.config.latest.value); d.meta.latest == Some(Meta(Shown(k, d.meta.durable, c), k.digest(c)))
    ensures !Regresses(k, d, initial)
  {
    var c := k.norm(d.config.latest.value);
    OpenOutcome(k, d, initial, 2);
    if OpenSpec(k, d, initial, 2).1.Ok? {
      RegressesExactly(k, d, initial);
      var s := OpenSpec(k, d, initial, 2).1.value;
      assert Safe(k, d.config.latest, d.meta.durable, s);
    }
  }

  // ---------------------------------------------------------------- one crash

  /** Interrupt a persist anywhere and lose power keeping any subset of its renames: the next
      open serves the old or the new configuration, at a revision that did not decrease and that
      grew if the configuration changed. There may be no file yet, as when the first persist of a
      fresh directory is cut and the initial configuration decides. */
  lemma {:induction false} CrashRecovers(k: Codec, d: Disk, c: Config, r: nat, next: Snapshot, stop: nat,
                                         keepConfig: bool, keepMeta: bool, keepBackup: bool, initial: Option<Config>)
    requires Lawful(k) && k.valid(next.desired) && r > 0
    requires d.config.durable == d.config.latest && LoadedConfig(k, d, initial) == Ok(c)
    requires d.meta == Cell(Some(Meta(r, k.digest(c))), Some(Meta(r, k.digest(c))))
    requires next.revision == r + 1 && next.digest == k.digest(k.norm(next.desired))
    ensures var crashed := PowerLoss(Interrupted(d, PersistOps(d, next), stop), keepConfig, keepMeta, keepBackup);
      var s := OpenSpec(k, crashed, initial, 2).1;
      && s.Ok?
      && s.value.desired in {c, k.norm(next.desired)}
      && s.value.revision >= r
      && (s.value.desired != c ==> s.value.revision > r)
      && (stop >= |PersistOps(d, next)| ==> s.value.desired == k.norm(next.desired) && s.value.revision == r + 1)
  {
    PersistOutcome(d, next, stop);
  }

  /** Recovery is idempotent: opening what an open left serves the same snapshot and writes
      nothing. */
  lemma {:induction false} ReopenChangesNothing(k: Codec, d: Disk, initial: Option<Config>, again: nat)
    requires Lawful(k) && OpenSpec(k, d, initial, 2).1.Ok?
    ensures var (d', s) := OpenSpec(k, d, initial, 2);
      OpenSpec(k, d', initial, again) == (d', s)
  {
    var c := LoadedConfig(k, d, initial).value;
    RunOpsTwo(d, RenameMeta(LoadedMeta(k, d, c)), SyncDirectory);
  }

  // ---------------------------------------------------------------- rolling back

  /** One completed apply and two completed rollbacks. */
  function ThereAndBack(revision: nat, b: Config, effective: Option<Config>, stop: nat): seq<Step>
  {
    [Apply(revision, Some(b), effective, false, stop), Rollback(revision + 1, stop), Rollback(revision + 2, stop)]
  }

  lemma ThreeSteps(k: Codec, w: World, x: Step, y: Step, z: Step)
    ensures Exec(k, w, [x, y]) == Next(k, Next(k, w, x), y)
    ensures Exec(k, w, [x, y, z]) == Next(k, Next(k, Next(k, w, x), y), z)
  {
    hide Next;
    assert [x, y, z][..2] == [x, y] && [x, y][..1] == [x] && [x][..0] == [];
    assert Exec(k, w, [x]) == Next(k, w, x);
  }

  lemma CompleteApply(k: Codec, w: World, b: Config, effective: Option<Config>, stop: nat)
    requires w.mem.Some? && stop >= 7 && k.valid(b) && (effective.Some? ==> k.valid(effective.value))
    requires k.digest(k.norm(b)) != w.mem.value.digest || effective.Some?
    requires w.disk.config.latest.Some?
    ensures var v := Next(k, w, Apply(w.mem.value.revision, Some(b), effective, false, stop));
      && v.mem == Some(Snapshot(w.mem.value.revision + 1, k.digest(k.norm(b)), b, if effective.Some? then effective.value else w.mem.value.effective))
      && v.served == w.served + [v.mem.value]
      && v.disk.config.latest == Some(b) && v.disk.backup.latest == w.disk.config.latest
  {
    PersistInstalls(w.disk, Snapshot(w.mem.value.revision + 1, k.digest(k.norm(b)), b, if effective.Some? then effective.value else w.mem.value.effective));
  }

  lemma CompleteRollback(k: Codec, w: World, stop: nat)
    requires w.mem.Some? && stop >= 7 && w.disk.config.latest.Some?
    requires w.disk.backup.latest.Some? && k.valid(w.disk.backup.latest.value)
    ensures var v := Next(k, w, Rollback(w.mem.value.revision, stop)); var c := k.norm(w.disk.backup.latest.value);
      && v.mem == Some(Snapshot(w.mem.value.revision + 1, k.digest(c), c, w.mem.value.effective))
      && v.served == w.served + [v.mem.value]
      && v.disk.config.latest == Some(c) && v.disk.backup.latest == w.disk.config.latest
  {
    var c := k.norm(w.disk.backup.latest.value);
    PersistInstalls(w.disk, Snapshot(w.mem.value.revision + 1, k.digest(c), c, w.mem.value.effective));
  }

  /** Rolling back undoes an apply, and rolling back again redoes it: from a state that serves `a` and has
      it on disk, applying another `b` and rolling back serves `a` again two revisions on, with the
      effective configuration as the apply left it; a second rollback serves `b`. */
  lemma {:induction false} RollbackUndoesApply(k: Codec, w: World, b: Config, effective: Option<Config>, stop: nat)
    requires Lawful(k) && Inv(k, w) && w.mem.Some? && stop >= 7
    requires k.valid(b) && k.norm(b) != k.norm(w.mem.value.desired) && (effective.Some? ==> k.valid(effective.value))
    requires w.disk.config.latest.Some? && k.valid(w.disk.config.latest.value)
    requires k.norm(w.disk.config.latest.value) == k.norm(w.mem.value.desired)
    ensures var a := w.mem.value; var steps := ThereAndBack(a.revision, b, effective, stop);
      var e := if effective.Some? then effective.value else a.effective;
      var back, again := Exec(k, w, steps[..2]), Exec(k, w, steps);
      && back.mem == Some(Snapshot(a.revision + 2, k.digest(k.norm(a.desired)), k.norm(a.desired), e))
      && again.mem == Some(Snapshot(a.revision + 3, k.digest(k.norm(b)), k.norm(b), e))
      && again.served == w.served + [Snapshot(a.revision + 1, k.digest(k.norm(b)), b, e), back.mem.value, again.mem.value]
  {
    var a, steps := w.mem.value, ThereAndBack(w.mem.value.revision, b, effective, stop);
    assert steps[..2] == [steps[0], steps[1]];
    ThreeSteps(k, w, steps[0], steps[1], steps[2]);
    assert a.digest == k.digest(k.norm(a.desired)) && k.valid(a.desired);
    hide Inv, Next, Exec;
    CompleteApply(k, w, b, effective, stop);
    CompleteRollback(k, Next(k, w, steps[0]), stop);
    CompleteRollback(k, Next(k, Next(k, w, steps[0]), steps[1]), stop);
  }
}
