/**
 * Revisioned, crash-safe configuration (internal/state/manager.go, internal/state/persistence.go).
 *
 * Configurations and digests are numbers, and the validator is three functions on them: which
 * configurations it accepts, how it normalises one it accepts, and the digest. The directory is
 * three cells, each with the content a directory sync made durable and the content a rename
 * made visible since. An interrupted operation runs a prefix of its disk operations.
 */
module ConfigState {
  import opened Common

  type Config = nat
  type Digest = nat

  datatype Codec = Codec(valid: Config -> bool, norm: Config -> Config, digest: Config -> Digest)

  /** Normalising twice is normalising once, and digests tell normalised configurations apart. */
  ghost predicate Lawful(k: Codec)
  {
    && (forall c :: k.valid(c) ==> k.valid(k.norm(c)) && k.norm(k.norm(c)) == k.norm(c))
    && (forall a, b :: k.valid(a) && k.valid(b) && k.digest(k.norm(a)) == k.digest(k.norm(b)) ==> k.norm(a) == k.norm(b))
  }

  // ---------------------------------------------------------------- the directory

  datatype Cell<T> = Cell(durable: T, latest: T)

  datatype Meta = Meta(revision: nat, digest: Digest)

  datatype Disk = Disk(config: Cell<Option<Config>>, meta: Cell<Option<Meta>>, backup: Cell<Option<Config>>)

  datatype DiskOp =
    | CopyConfigToBackup
    | CopyMetaToBackup
    | RenameConfig(config: Config)
    | RenameMeta(meta: Meta)
    | SyncDirectory

  function Synced<T>(cell: Cell<T>): Cell<T>
  {
    Cell(cell.latest, cell.latest)
  }

  function RunOp(d: Disk, op: DiskOp): Disk
  {
    match op
    case CopyConfigToBackup => d.(backup := Cell(d.backup.durable, d.config.latest))
    case CopyMetaToBackup => d                       // that copy is never read back
    case RenameConfig(c) => d.(config := Cell(d.config.durable, Some(c)))
    case RenameMeta(m) => d.(meta := Cell(d.meta.durable, Some(m)))
    case SyncDirectory => Disk(Synced(d.config), Synced(d.meta), Synced(d.backup))
  }

  function RunOps(d: Disk, ops: seq<DiskOp>): Disk
    decreases |ops|
  {
    if ops == [] then d else RunOps(RunOp(d, ops[0]), ops[1..])
  }

  /** What is left when the first `stop` operations ran and the next one failed. */
  function Interrupted(d: Disk, ops: seq<DiskOp>, stop: nat): Disk
  {
    RunOps(d, if stop < |ops| then ops[..stop] else ops)
  }

  /** A power loss keeps or loses each rename since the last sync, file by file. */
  function PowerLoss(d: Disk, keepConfig: bool, keepMeta: bool, keepBackup: bool): Disk
  {
    var c := if keepConfig then d.config.latest else d.config.durable;
    var m := if keepMeta then d.meta.latest else d.meta.durable;
    var b := if keepBackup then d.backup.latest else d.backup.durable;
    Disk(Cell(c, c), Cell(m, m), Cell(b, b))
  }

  // ---------------------------------------------------------------- snapshots and decisions

  datatype Snapshot = Snapshot(revision: nat, digest: Digest, desired: Config, effective: Config)

  datatype Error = Closed | Conflict(expected: nat, current: nat) | Invalid | NoBackup | MissingConfig | PersistFailed

  /** What an operation does once its arguments are checked: refuse, answer without writing, or
      persist and adopt a new snapshot. */
  datatype Decision = Refuse(error: Error) | Answer(snapshot: Snapshot) | Persist(next: Snapshot)

  function DecideApply(k: Codec, mem: Snapshot, expected: nat, desired: Option<Config>,
                       effective: Option<Config>, dryRun: bool): Decision
  {
    if expected != mem.revision then Refuse(Conflict(expected, mem.revision))
    else if desired.None? || !k.valid(desired.value) then Refuse(Invalid)
    else if effective.Some? && !k.valid(effective.value) then Refuse(Invalid)
    else
      // the digest is of the normalised clone; what is stored is the request as it came
      var digest := k.digest(k.norm(desired.value));
      var next := Snapshot(mem.revision + 1, digest, desired.value,
                           if effective.Some? then effective.value else mem.effective);
      if dryRun then Answer(next)
      else if digest == mem.digest && effective.None? then Answer(mem)
      else Persist(next)
  }

  function DecideRollback(k: Codec, mem: Snapshot, backup: Option<Config>, expected: nat): Decision
  {
    if expected != mem.revision then Refuse(Conflict(expected, mem.revision))
    else if backup.None? then Refuse(NoBackup)
    else if !k.valid(backup.value) then Refuse(Invalid)
    else
      var c := k.norm(backup.value);
      Persist(Snapshot(mem.revision + 1, k.digest(c), c, mem.effective))
  }

  function DecideSetEffective(k: Codec, mem: Snapshot, expected: nat, effective: Option<Config>): Decision
  {
    if expected != mem.revision then Refuse(Conflict(expected, mem.revision))
    else if effective.None? || !k.valid(effective.value) then Refuse(Invalid)
    else Persist(mem.(revision := mem.revision + 1, effective := k.norm(effective.value)))
  }

  /** persist: back up what is there, rename the configuration, rename the metadata, sync. */
  function PersistOps(d: Disk, next: Snapshot): seq<DiskOp>
  {
    (if d.config.latest.Some? then [CopyConfigToBackup, SyncDirectory] else []) +
    (if d.meta.latest.Some? then [CopyMetaToBackup, SyncDirectory] else []) +
    [RenameConfig(next.desired), RenameMeta(Meta(next.revision, next.digest)), SyncDirectory]
  }

  /** load: what it reads, and the metadata writes it needs. */
  function LoadedConfig(k: Codec, d: Disk, initial: Option<Config>): Result<Config, Error>
  {
    var found := if d.config.latest.Some? then d.config.latest else initial;
    if found.None? then Err(MissingConfig)
    else if !k.valid(found.value) then Err(Invalid)
    else Ok(k.norm(found.value))
  }

  function LoadedMeta(k: Codec, d: Disk, c: Config): Meta
  {
    match d.meta.latest
    case None => Meta(1, k.digest(c))
    case Some(m) => if m.digest == k.digest(c) then m else Meta(m.revision + 1, k.digest(c))
  }

  function LoadOps(k: Codec, d: Disk, c: Config): seq<DiskOp>
  {
    var m := LoadedMeta(k, d, c);
    if d.meta.latest == Some(m) then [] else [RenameMeta(m), SyncDirectory]
  }

  /** Open: the directory it leaves and the snapshot it serves. A stored revision 0 is served as
      1 without being rewritten. */
  function OpenSpec(k: Codec, d: Disk, initial: Option<Config>, stop: nat): (r: (Disk, Result<Snapshot, Error>))
  {
    match LoadedConfig(k, d, initial)
    case Err(e) => (d, Err(e))
    case Ok(c) =>
      var m := LoadedMeta(k, d, c);
      var ops := LoadOps(k, d, c);
      (Interrupted(d, ops, stop),
       if stop < |ops| then Err(PersistFailed)
       else Ok(Snapshot(if m.revision == 0 then 1 else m.revision, k.digest(c), c, c)))
  }

  /** Carry out a decision: directory, snapshot in memory, and what the caller gets. */
  function Carry(d: Disk, mem: Snapshot, decision: Decision, stop: nat): (Disk, Snapshot, Result<Snapshot, Error>)
  {
    match decision
    case Refuse(e) => (d, mem, Err(e))
    case Answer(s) => (d, mem, Ok(s))
    case Persist(next) =>
      var ops := PersistOps(d, next);
      if stop < |ops| then (Interrupted(d, ops, stop), mem, Err(PersistFailed))
      else (RunOps(d, ops), next, Ok(next))
  }

  lemma {:induction false} RunOpsAppend(d: Disk, a: seq<DiskOp>, b: seq<DiskOp>)
    ensures RunOps(d, a + b) == RunOps(RunOps(d, a), b)
    decreases |a|
  {
    if a == [] {
      assert a + b == b;
    } else {
      assert (a + b)[1..] == a[1..] + b;
      RunOpsAppend(RunOp(d, a[0]), a[1..], b);
    }
  }

  lemma RunOpsTwo(d: Disk, a: DiskOp, b: DiskOp)
    ensures RunOps(d, [a]) == RunOp(d, a)
    ensures RunOps(d, [a, b]) == RunOp(RunOp(d, a), b)
  {
    RunOpsAppend(d, [a], [b]);
  }

  /** A complete persist installs its snapshot durably and keeps the configuration it replaces as backup. */
  lemma PersistInstalls(d: Disk, next: Snapshot)
    ensures var d' := RunOps(d, PersistOps(d, next));
      && d'.config == Cell(Some(next.desired), Some(next.desired))
      && d'.meta == Cell(Some(Meta(next.revision, next.digest)), Some(Meta(next.revision, next.digest)))
      && d'.backup == if d.config.latest.Some? then Cell(d.config.latest, d.config.latest) else Synced(d.backup)
  {
    var a := if d.config.latest.Some? then [CopyConfigToBackup, SyncDirectory] else [];
    var b := if d.meta.latest.Some? then [CopyMetaToBackup, SyncDirectory] else [];
    var c := [RenameConfig(next.desired), RenameMeta(Meta(next.revision, next.digest)), SyncDirectory];
    assert PersistOps(d, next) == a + b + c;
    RunOpsAppend(d, a + b, c);
    RunOpsAppend(d, a, b);
    RunOpsTwo(d, CopyConfigToBackup, SyncDirectory);
    var d1 := RunOps(d, a);
    RunOpsTwo(d1, CopyMetaToBackup, SyncDirectory);
    var d2 := RunOps(d1, b);
    assert c == [c[0]] + [c[1], c[2]];
    RunOpsAppend(d2, [c[0]], [c[1], c[2]]);
    RunOpsTwo(d2, c[0], c[1]);
    RunOpsTwo(RunOp(d2, c[0]), c[1], c[2]);
  }

  // ---------------------------------------------------------------- the manager

  class Manager {
    const codec: Codec
    var disk: Disk
    var snapshot: Snapshot
    var closed: bool

    constructor (codec: Codec, disk: Disk, snapshot: Snapshot)
      ensures this.codec == codec && this.disk == disk && this.snapshot == snapshot && !closed
    {
      this.codec, this.disk, this.snapshot, this.closed := codec, disk, snapshot, false;
    }

    /** One disk operation of persist; `left` counts how many more succeed before a fault. */
    method Effect(op: DiskOp, left: nat) returns (ok: bool, rest: nat)
      modifies this`disk
      ensures ok == (left > 0) && rest == (if ok then left - 1 else 0)
      ensures disk == if ok then RunOp(old(disk), op) else old(disk)
    {
      if left == 0 {
        return false, 0;
      }
      match op {
        case CopyConfigToBackup => disk := disk.(backup := Cell(disk.backup.durable, disk.config.latest));
        case CopyMetaToBackup =>
        case RenameConfig(c) => disk := disk.(config := Cell(disk.config.durable, Some(c)));
        case RenameMeta(m) => disk := disk.(meta := Cell(disk.meta.durable, Some(m)));
        case SyncDirectory => disk := Disk(Synced(disk.config), Synced(disk.meta), Synced(disk.backup));
      }
      return true, left - 1;
    }

    /** persist: the operations in order, stopping at the first that fails. */
    method PersistSnapshot(next: Snapshot, stop: nat) returns (ok: bool)
      modifies this`disk
      ensures ok == (stop >= |PersistOps(old(disk), next)|)
      ensures disk == Interrupted(old(disk), PersistOps(old(disk), next), stop)
    {
      var ops := PersistOps(disk, next);
      var left := stop;
      for n := 0 to |ops|
        invariant left == stop - n
        invariant disk == RunOps(old(disk), ops[..n])
      {
        RunOpsAppend(old(disk), ops[..n], [ops[n]]);
        assert ops[..n + 1] == ops[..n] + [ops[n]];
        ok, left := Effect(ops[n], left);
        if !ok {
          return;
        }
      }
      assert ops[..|ops|] == ops;
      ok := true;
    }

    /** load, on an existing directory. */
    method Load(initial: Option<Config>, stop: nat) returns (ok: bool)
      modifies this`disk, this`snapshot
      ensures (disk, ok) == (OpenSpec(codec, old(disk), initial, stop).0, OpenSpec(codec, old(disk), initial, stop).1.Ok?)
      ensures ok ==> OpenSpec(codec, old(disk), initial, stop).1 == Ok(snapshot)
      ensures !ok ==> snapshot == old(snapshot)
    {
      var found := if disk.config.latest.Some? then disk.config.latest else initial;
      if found.None? || !codec.valid(found.value) {
        return false;
      }
      var c := codec.norm(found.value);
      var digest := codec.digest(c);
      var meta := if disk.meta.latest.Some? then disk.meta.latest.value else Meta(1, digest);
      var left := stop;
      if disk.meta.latest.None? || meta.digest != digest {
        if disk.meta.latest.Some? {
          meta := Meta(meta.revision + 1, digest);
        }
        ghost var ops := [RenameMeta(meta), SyncDirectory];
        assert LoadOps(codec, disk, c) == ops;
        assert ops[..0] == [] && ops[..1] == [RenameMeta(meta)];
        RunOpsTwo(disk, RenameMeta(meta), SyncDirectory);
        ok, left := Effect(RenameMeta(meta), left);
        if !ok {
          return;
        }
        ok, left := Effect(SyncDirectory, left);
        if !ok {
          return;
        }
      }
      snapshot := Snapshot(if meta.revision == 0 then 1 else meta.revision, digest, c, c);
      ok := true;
    }

    /** Carry out a decision under the manager's mutex. */
    method Execute(decision: Decision, stop: nat) returns (r: Result<Snapshot, Error>)
      modifies this`disk, this`snapshot
      ensures (disk, snapshot, r) == Carry(old(disk), old(snapshot), decision, stop)
    {
      match decision {
        case Refuse(e) => return Err(e);
        case Answer(s) => return Ok(s);
        case Persist(next) =>
          var ok := PersistSnapshot(next, stop);
          if !ok {
            return Err(PersistFailed);
          }
          snapshot := next;
          return Ok(next);
      }
    }

    method Apply(expected: nat, desired: Option<Config>, effective: Option<Config>, dryRun: bool, stop: nat)
        returns (r: Result<Snapshot, Error>)
      modifies this`disk, this`snapshot
      ensures closed ==> r == Err(Closed) && disk == old(disk) && snapshot == old(snapshot)
      ensures !closed ==>
                var decision := DecideApply(codec, old(snapshot), expected, desired, effective, dryRun);
                (disk, snapshot, r) == Carry(old(disk), old(snapshot), decision, stop)
      // a stale revision changes nothing
      ensures expected != old(snapshot).revision ==> r.Err? && disk == old(disk) && snapshot == old(snapshot)
      // a request that is stored is in force as it came, one revision on; a preview or a repetition stores nothing
      ensures r.Ok? && !dryRun && snapshot != old(snapshot) ==>
                && r.value == snapshot && snapshot.revision == expected + 1
                && Some(snapshot.desired) == desired && snapshot.digest == codec.digest(codec.norm(snapshot.desired))
                && snapshot.effective == (if effective.Some? then effective.value else old(snapshot).effective)
                && disk.config == Cell(desired, desired)
      ensures r.Ok? && dryRun ==> disk == old(disk) && snapshot == old(snapshot)
      ensures r.Ok? && !dryRun && snapshot == old(snapshot) ==>
                codec.digest(codec.norm(desired.value)) == old(snapshot).digest && effective.None?
    {
      if closed {
        return Err(Closed);
      }
      if desired.Some? {
        PersistInstalls(disk, Snapshot(snapshot.revision + 1, codec.digest(codec.norm(desired.value)), desired.value,
                                       if effective.Some? then effective.value else snapshot.effective));
      }
      r := Execute(DecideApply(codec, snapshot, expected, desired, effective, dryRun), stop);
    }

    method Rollback(expected: nat, stop: nat) returns (r: Result<Snapshot, Error>)
      modifies this`disk, this`snapshot
      ensures closed ==> r == Err(Closed) && disk == old(disk) && snapshot == old(snapshot)
      ensures !closed ==>
                var decision := DecideRollback(codec, old(snapshot), old(disk).backup.latest, expected);
                (disk, snapshot, r) == Carry(old(disk), old(snapshot), decision, stop)
      ensures expected != old(snapshot).revision ==> r.Err? && disk == old(disk) && snapshot == old(snapshot)
      // what is stored is the backup, and what it replaces becomes the backup
      ensures r.Ok? ==>
                && r.value == snapshot && snapshot.revision == expected + 1
                && old(disk).backup.latest.Some? && snapshot.desired == codec.norm(old(disk).backup.latest.value)
                && snapshot.digest == codec.digest(snapshot.desired) && snapshot.effective == old(snapshot).effective
                && disk.config == Cell(Some(snapshot.desired), Some(snapshot.desired))
    {
      if closed {
        return Err(Closed);
      }
      if !disk.backup.latest.None? {
        PersistInstalls(disk, Snapshot(snapshot.revision + 1, codec.digest(codec.norm(disk.backup.latest.value)),
                                       codec.norm(disk.backup.latest.value), snapshot.effective));
      }
      r := Execute(DecideRollback(codec, snapshot, disk.backup.latest, expected), stop);
    }

    /** Unlike its neighbours this operation does not look at `closed`. */
    method SetEffective(expected: nat, effective: Option<Config>, stop: nat) returns (r: Result<Snapshot, Error>)
      modifies this`disk, this`snapshot
      ensures (disk, snapshot, r) ==
                Carry(old(disk), old(snapshot), DecideSetEffective(codec, old(snapshot), expected, effective), stop)
      ensures expected != old(snapshot).revision ==> r.Err? && disk == old(disk) && snapshot == old(snapshot)
      ensures r.Ok? ==>
                && r.value == snapshot && snapshot.revision == expected + 1
                && effective.Some? && snapshot.effective == codec.norm(effective.value)
                && snapshot.desired == old(snapshot).desired && snapshot.digest == old(snapshot).digest
    {
      r := Execute(DecideSetEffective(codec, snapshot, expected, effective), stop);
    }
  }
}
