/**
 * The operation store as the daemon runs it (internal/operation/store.go): records live in heap
 * cells that are changed in place, and a checkpoint of deep copies undoes a failed persist.
 * Every method is tied to the value operations of `Operations`.
 */
module OperationStore {
  import opened Common
  import opened Operations
  import opened OperationRuns

  datatype Error = NotFound | InvalidTransition | IdempotencyConflict | Capacity | PersistFailed | InvalidRequest

  class EntryCell {
    var entry: Entry

    constructor (entry: Entry)
      ensures this.entry == entry
    {
      this.entry := entry;
    }
  }

  method SortedIds(s: set<ID>) returns (ids: seq<ID>)
    ensures forall id :: id in ids <==> id in s
    ensures forall i, j :: 0 <= i < j < |ids| ==> ids[i] < ids[j]
  {
    ids := [];
    var rest := s;
    while rest != {}
      invariant rest <= s
      invariant forall id :: id in ids <==> id in s - rest
      invariant forall i, j :: 0 <= i < j < |ids| ==> ids[i] < ids[j]
      invariant forall i, id :: 0 <= i < |ids| && id in rest ==> ids[i] < id
      decreases |rest|
    {
      var _ := HasMinimum(rest);
      var id :| id in rest && forall other :: other in rest ==> id <= other;
      ids := ids + [id];
      rest := rest - {id};
    }
  }

  lemma {:induction false} HasMinimum(s: set<ID>) returns (id: ID)
    requires s != {}
    ensures id in s && forall other :: other in s ==> id <= other
    decreases |s|
  {
    var some :| some in s;
    id := some;
    if s - {some} != {} {
      var least := HasMinimum(s - {some});
      id := if least < some then least else some;
    }
    forall other | other in s ensures id <= other {
      assert other == some || other in s - {some};
    }
  }

  predicate Separate(cells: map<ID, EntryCell>)
  {
    forall a, b :: a in cells && b in cells && cells[a] == cells[b] ==> a == b
  }

  function Entries(cells: map<ID, EntryCell>): map<ID, Entry>
    reads cells.Values
  {
    map id | id in cells :: cells[id].entry
  }

  class LiveStore {
    const limits: Limits
    var operations: map<ID, EntryCell>
    var events: seq<Event>
    var nextSequence: nat
    var disk: Store

    /** Distinct operations have distinct cells. */
    ghost predicate Valid()
      reads this
    {
      Separate(operations)
    }

    /** The value of the store, through every cell. */
    ghost function Deep(): Store
      reads this, operations.Values
    {
      Store(Entries(operations), events, nextSequence)
    }

    /** The store as read from its file. */
    constructor FromFile(file: Store, limits: Limits)
      ensures Valid() && this.limits == limits && disk == file
      ensures Deep() == file && forall id :: id in operations ==> fresh(operations[id])
    {
      this.limits, events, nextSequence, disk := limits, file.events, file.nextSequence, file;
      operations := map[];
      new;
      var rest := file.ops.Keys;
      while rest != {}
        invariant rest <= file.ops.Keys && operations.Keys == file.ops.Keys - rest
        invariant Separate(operations) && this.limits == limits && disk == file
        invariant events == file.events && nextSequence == file.nextSequence
        invariant forall id :: id in operations ==> fresh(operations[id]) && operations[id].entry == file.ops[id]
        decreases |rest|
      {
        var id :| id in rest;
        var cell := new EntryCell(file.ops[id]);
        operations := operations[id := cell];
        rest := rest - {id};
      }
      assert Deep().ops == file.ops;
    }

    /** Open: recover and prune what was read, and write it back if that changed anything. The
        operation limit holds afterwards whatever the file contained. */
    method Start(now: Time, write: Write) returns (ok: bool, ghost ids: seq<ID>, ghost keep: set<ID>)
      requires Valid()
      modifies this, operations.Values
      ensures Valid() && Enumerates(ids, old(Deep()).ops)
      ensures MayKeep(Recovered(old(Deep()), limits, ids, now), limits, now, keep)
      ensures Deep() == Kept(Recovered(old(Deep()), limits, ids, now), keep)
      ensures |operations.Keys| <= limits.maxOperations
      // what changed is written back, and nothing else is
      ensures disk == if Deep() == old(Deep()) || write == FailedOld then old(disk) else Deep()
      ensures ok <==> Deep() == old(Deep()) || write == Saved
    {
      hide Recovered, MayKeep, Kept, Enumerates;
      ghost var file := Deep();
      var recovered, pruned;
      recovered, ids := Recover(now);
      ghost var middle := Deep();
      pruned := Prune(now);
      keep := operations.Keys;
      KeptDiffers(middle, keep);
      ok := true;
      if recovered || pruned {
        ok := Persist(write);
      }
      RecoveryFits(file, limits, ids, now, keep);
    }

    /** Events: what the log holds after a cursor. */
    method EventsSince(cursor: nat) returns (result: seq<Event>)
      ensures result == EventsAfter(events, cursor)
    {
      result := [];
      for n := 0 to |events|
        invariant result == EventsAfter(events[..n], cursor)
      {
        assert events[..n + 1][..n] == events[..n];
        if events[n].sequence > cursor {
          result := result + [events[n]];
        }
      }
      assert events[..|events|] == events;
    }

    /** checkpointLocked: fresh copies of every record. */
    method Checkpoint() returns (copies: map<ID, EntryCell>)
      requires Valid()
      ensures Separate(copies) && forall id :: id in copies ==> fresh(copies[id])
      ensures Entries(copies) == Deep().ops
    {
      copies := map[];
      var rest := operations.Keys;
      while rest != {}
        invariant rest <= operations.Keys && copies.Keys == operations.Keys - rest
        invariant Separate(copies)
        invariant forall id :: id in copies ==> fresh(copies[id]) && copies[id].entry == operations[id].entry
        decreases |rest|
      {
        var id :| id in rest;
        var copy := new EntryCell(operations[id].entry);
        copies := copies[id := copy];
        rest := rest - {id};
      }
    }

    /** restoreLocked: the copies become the store. */
    method Restore(copies: map<ID, EntryCell>, events: seq<Event>, nextSequence: nat)
      requires Separate(copies)
      modifies this`operations, this`events, this`nextSequence
      ensures Valid() && operations == copies
      ensures Deep() == Store(Entries(copies), events, nextSequence)
    {
      this.operations, this.events, this.nextSequence := copies, events, nextSequence;
    }

    /** persistLocked, with what the file system did. */
    method Persist(write: Write) returns (ok: bool)
      modifies this`disk
      ensures ok == (write == Saved)
      ensures disk == if write == FailedOld then old(disk) else Deep()
    {
      if write != FailedOld {
        disk := Store(Entries(operations), events, nextSequence);
      }
      return write == Saved;
    }

    /** The in-place part every mutation shares: number an event, append it to the bounded log and
        store the changed record in its cell. */
    method Emit(id: ID, entry: Entry, now: Time) returns (event: Event)
      requires Valid() && id in operations
      modifies this`events, this`nextSequence, operations[id]
      ensures Valid() && operations == old(operations)
      ensures event == EventOf(old(Deep()), id, entry.record.state, now)
      ensures Deep() == Emitted(old(Deep()), limits, id, entry, now)
    {
      nextSequence := nextSequence + 1;
      event := Event(nextSequence, id, entry.record.state, now);
      operations[id].entry := entry.(record := entry.record.(sequence := event.sequence));
      events := events + [event];
      if |events| > limits.maxEvents {
        events := events[|events| - limits.maxEvents..];
      }
      assert Deep().ops == Emitted(old(Deep()), limits, id, entry, now).ops;
    }

    /** Change one record under a checkpoint: persist it, or roll everything back. */
    method Mutate(id: ID, entry: Entry, now: Time, write: Write) returns (ok: bool, event: Event)
      requires Valid() && id in operations
      modifies this, operations[id]
      ensures Valid() && ok == (write == Saved)
      ensures operations == old(operations) || forall a :: a in operations ==> fresh(operations[a])
      ensures event == EventOf(old(Deep()), id, entry.record.state, now)
      ensures Deep() == if ok then Emitted(old(Deep()), limits, id, entry, now) else old(Deep())
      ensures disk == if write == FailedOld then old(disk) else Emitted(old(Deep()), limits, id, entry, now)
    {
      var copies := Checkpoint();
      var savedEvents, savedSequence := events, nextSequence;
      event := Emit(id, entry, now);
      ok := Persist(write);
      if !ok {
        Restore(copies, savedEvents, savedSequence);
      }
    }

    /** The part Transition and UpdateProgress share: the answer is the stored record. */
    method Change(id: ID, entry: Entry, now: Time, write: Write) returns (r: Result<Record, Error>, published: seq<Event>)
      requires Valid() && id in operations
      modifies this, operations[id]
      ensures Valid()
      ensures var s' := Emitted(old(Deep()), limits, id, entry, now);
              && Deep() == (if write == Saved then s' else old(Deep()))
              && disk == (if write == FailedOld then old(disk) else s')
              && id in s'.ops && s'.ops[id].record.state == entry.record.state
              && r == (if write == Saved then Ok(s'.ops[id].record) else Err(PersistFailed))
      ensures published == if write == Saved then [EventOf(old(Deep()), id, entry.record.state, now)] else []
    {
      var ok, event := Mutate(id, entry, now, write);
      if !ok {
        return Err(PersistFailed), [];
      }
      return Ok(entry.record.(sequence := event.sequence)), [event];
    }

    method Transition(id: ID, next: State, progress: int, result: map<string, string>, failure: Option<string>,
                      now: Time, write: Write) returns (r: Result<Record, Error>, published: seq<Event>)
      requires Valid()
      modifies this, operations.Values
      ensures Valid()
      ensures !CanTransition(old(Deep()), id, next) ==> r.Err? && published == [] && Deep() == old(Deep()) && disk == old(disk)
      ensures CanTransition(old(Deep()), id, next) ==>
                var s' := Transitioned(old(Deep()), limits, id, next, progress, result, failure, now);
                && Deep() == (if write == Saved then s' else old(Deep()))
                && disk == (if write == FailedOld then old(disk) else s')
                && published == (if write == Saved then [EventOf(old(Deep()), id, next, now)] else [])
                && r == (if write == Saved then Ok(s'.ops[id].record) else Err(PersistFailed))
    {
      hide AllowedTransition, Emitted, EventOf;
      if id !in operations {
        return Err(NotFound), [];
      }
      var entry := operations[id].entry;
      if !AllowedTransition(entry.record.state, next) {
        return Err(InvalidTransition), [];
      }
      var clamped := if progress < 0 then 0 else if progress > 100 then 100 else progress;
      var record := entry.record.(state := next, progress := clamped, updated := now, result := result, failure := failure);
      r, published := Change(id, entry.(record := record), now, write);
    }

    method UpdateProgress(id: ID, progress: int, result: Option<map<string, string>>, now: Time, write: Write)
        returns (r: Result<Record, Error>, published: seq<Event>)
      requires Valid()
      modifies this, operations.Values
      ensures Valid()
      ensures !CanProgress(old(Deep()), id) ==> r.Err? && published == [] && Deep() == old(Deep()) && disk == old(disk)
      ensures CanProgress(old(Deep()), id) ==>
                var s' := Progressed(old(Deep()), limits, id, progress, result, now);
                && Deep() == (if write == Saved then s' else old(Deep()))
                && disk == (if write == FailedOld then old(disk) else s')
                && published == (if write == Saved then [EventOf(old(Deep()), id, s'.ops[id].record.state, now)] else [])
                && r == (if write == Saved then Ok(s'.ops[id].record) else Err(PersistFailed))
    {
      hide Emitted, EventOf;
      if id !in operations {
        return Err(NotFound), [];
      }
      var entry := operations[id].entry;
      if entry.record.state.Terminal() {
        return Err(InvalidTransition), [];
      }
      var clamped := if progress < 0 then 0 else if progress > 100 then 100 else progress;
      var record := entry.record.(progress := clamped, updated := now,
                                  result := if result.Some? then result.value else entry.record.result);
      r, published := Change(id, entry.(record := record), now, write);
    }

    /** pruneLocked: retention first, then the oldest terminal operations beyond capacity. */
    method Prune(now: Time) returns (changed: bool)
      requires Valid()
      modifies this`operations
      ensures Valid() && operations.Values <= old(operations.Values)
      ensures MayKeep(old(Deep()), limits, now, operations.Keys)
      ensures Deep() == Kept(old(Deep()), operations.Keys)
      ensures changed <==> operations.Keys != old(operations.Keys)
    {
      var keep := PrunedIds(Store(Entries(operations), events, nextSequence), limits, now);
      changed := keep != operations.Keys;
      Drop(keep);
    }

    /** Create: prune, replay or refuse a known idempotency key, refuse at capacity, or add a
        pending operation. Anything but a success leaves the store as it was. */
    method Create(request: Request, id: ID, now: Time, write: Write)
        returns (r: Result<Record, Error>, published: seq<Event>, ghost keep: set<ID>)
      requires Valid() && id !in operations && UniqueHashes(Deep())
      modifies this
      ensures Valid()
      ensures r.Err? ==> Deep() == old(Deep()) && published == []
      ensures !request.valid ==> r == Err(InvalidRequest) && disk == old(disk)
      ensures request.valid ==>
                var pruned := Kept(old(Deep()), keep);
                && MayKeep(old(Deep()), limits, now, keep)
                && CreateAnswer(pruned, pruned != old(Deep()), limits, request, id, now, write, r, published, old(disk), disk, Deep())
    {
      if !request.valid {
        return Err(InvalidRequest), [], {};
      }
      r, published, keep := CreateValid(request, id, now, write);
    }

    method CreateValid(request: Request, id: ID, now: Time, write: Write)
        returns (r: Result<Record, Error>, published: seq<Event>, ghost keep: set<ID>)
      requires Valid() && id !in operations && UniqueHashes(Deep()) && request.valid
      modifies this
      ensures Valid()
      ensures MayKeep(old(Deep()), limits, now, keep)
      ensures r.Err? ==> Deep() == old(Deep()) && published == []
      ensures var pruned := Kept(old(Deep()), keep);
              CreateAnswer(pruned, pruned != old(Deep()), limits, request, id, now, write, r, published, old(disk), disk, Deep())
    {
      hide CreateAnswer, MayKeep, Kept, UniqueHashes;
      var copies := Checkpoint();
      var savedEvents, savedSequence := events, nextSequence;
      label saved:
      assert Entries(copies) == old(Deep()).ops;
      r, published, keep := PruneAndCreate(request, id, now, write);
      if r.Err? {
        ghost var after := Deep();
        Restore(copies, savedEvents, savedSequence);
        assert Entries(copies) == old@saved(Entries(copies));
        ghost var pruned := Kept(old(Deep()), keep);
        ErrorAnswer(pruned, pruned != old(Deep()), limits, request, id, now, write, r, published, old(disk), disk, after, Deep());
      }
    }

    /** Create without the checkpoint around it. */
    method PruneAndCreate(request: Request, id: ID, now: Time, write: Write)
        returns (r: Result<Record, Error>, published: seq<Event>, ghost keep: set<ID>)
      requires Valid() && id !in operations && UniqueHashes(Deep())
      modifies this
      ensures Valid()
      ensures MayKeep(old(Deep()), limits, now, keep)
      ensures var pruned := Kept(old(Deep()), keep);
              CreateAnswer(pruned, pruned != old(Deep()), limits, request, id, now, write, r, published, old(disk), disk, Deep())
      ensures r.Err? ==> published == []
    {
      var changed := Prune(now);
      keep := operations.Keys;
      PruningShows(old(Deep()), keep);
      r, published := CreateInPruned(request, id, now, write, changed);
    }

    /** The rest of Create, before any rollback; `changed` says whether pruning removed anything. */
    method CreateInPruned(request: Request, id: ID, now: Time, write: Write, changed: bool)
        returns (r: Result<Record, Error>, published: seq<Event>)
      requires Valid() && id !in operations && UniqueHashes(Deep())
      modifies this
      ensures Valid()
      ensures CreateAnswer(old(Deep()), changed, limits, request, id, now, write, r, published, old(disk), disk, Deep())
      ensures r.Err? ==> published == []
    {
      var verdict := Decide(request);
      r, published := Err(PersistFailed), [];
      match verdict {
        case Conflict => r := Err(IdempotencyConflict);
        case Full => r := Err(Capacity);
        case Replay(twin) =>
          var ok := true;
          if changed {
            ok := Persist(write);
          }
          if ok {
            r := Ok(operations[twin].entry.record);
          }
        case Room =>
          var event, record := AddPending(request, id, now);
          var ok := Persist(write);
          if ok {
            r, published := Ok(record), [event];
          }
      }
    }

    /** The checks of Create on the pruned store. */
    method Decide(request: Request) returns (verdict: Verdict)
      requires Valid() && UniqueHashes(Deep())
      ensures verdict == CreateVerdict(Deep(), limits, request)
      ensures verdict.Replay? ==> verdict.twin in operations
    {
      var twin := FindTwin(Entries(operations), request.hash);
      if twin.Some? {
        assert Matches(Deep(), twin.value, request.hash);
        verdict := if operations[twin.value].entry.digest != request.digest then Conflict else Replay(twin.value);
      } else {
        assert Deep().ops.Keys == operations.Keys;
        verdict := if |operations| >= limits.maxOperations then Full else Room;
      }
    }

    /** The new record and its creation event. */
    method AddPending(request: Request, id: ID, now: Time) returns (event: Event, record: Record)
      requires Valid() && id !in operations
      modifies this`operations, this`events, this`nextSequence
      ensures Valid()
      ensures event == EventOf(old(Deep()), id, Pending, now)
      ensures Deep() == Created(old(Deep()), limits, id, request, now)
      ensures record == Deep().ops[id].record
    {
      record := Record(id, Pending, 0, request.cancelable, request.expireOnRecovery, now, now, request.expires, 0, None, map[]);
      var entry := Entry(record, request.hash, request.digest);
      var cell := new EntryCell(entry);
      operations := operations[id := cell];
      event := Emit(id, entry, now);
      record := record.(sequence := event.sequence);
      assert Deep().ops == Created(old(Deep()), limits, id, request, now).ops;
    }

    /** recoverLocked: end every operation a restart interrupted, in ID order. */
    method Recover(now: Time) returns (changed: bool, ghost ids: seq<ID>)
      requires Valid()
      modifies this`events, this`nextSequence, operations.Values
      ensures Valid() && operations == old(operations)
      ensures Enumerates(ids, old(Deep()).ops) && Deep() == Recovered(old(Deep()), limits, ids, now)
      ensures changed <==> nextSequence > old(nextSequence)
      ensures !changed ==> Deep() == old(Deep())
    {
      changed := false;
      var order := SortedIds(operations.Keys);
      for n := 0 to |order|
        invariant Valid() && operations == old(operations)
        invariant Deep() == Recovered(old(Deep()), limits, order[..n], now)
        invariant (changed <==> nextSequence > old(nextSequence)) && (!changed ==> Deep() == old(Deep()))
        invariant nextSequence >= old(nextSequence)
      {
        assert order[..n + 1][..n] == order[..n];
        var id := order[n];
        var entry := operations[id].entry;
        if !entry.record.state.Terminal() {
          changed := true;
          var record := if entry.record.expires <= now || entry.record.expireOnRecovery
                        then entry.record.(state := Expired, failure := Some("operation_expired"), updated := now)
                        else entry.record.(state := Failed, failure := Some("operation_interrupted"), updated := now);
          var _ := Emit(id, entry.(record := record), now);
        }
      }
      assert order[..|order|] == order;
      ids := order;
    }

    /** Delete every operation outside `keep` from the table. */
    method Drop(keep: set<ID>)
      requires Valid() && keep <= operations.Keys
      modifies this`operations
      ensures Valid() && operations.Keys == keep && operations.Values <= old(operations.Values)
      ensures Deep() == Kept(old(Deep()), keep)
    {
      operations := map id | id in operations && id in keep :: operations[id];
      assert operations.Keys == keep;
      assert Deep().ops == Kept(old(Deep()), keep).ops;
    }
  }

  method PrunedIds(s: Store, limits: Limits, now: Time) returns (keep: set<ID>)
    ensures MayKeep(s, limits, now, keep) && keep <= s.ops.Keys
  {
    var retained := WithinRetention(s.ops, limits, now);
    keep := WithinCapacity(s.ops, limits, retained);
    PruneMayKeep(s, limits, now, retained, keep);
  }

  /** What Create answers and leaves, given the pruned store; `changed` says whether pruning
      removed anything. */
  ghost predicate CreateAnswer(
      pruned: Store, changed: bool, limits: Limits, request: Request, id: ID, now: Time, write: Write,
      r: Result<Record, Error>, published: seq<Event>, before: Store, disk: Store, after: Store)
  {
    match CreateVerdict(pruned, limits, request)
    case Conflict => r == Err(IdempotencyConflict) && disk == before
    case Full => r == Err(Capacity) && disk == before
    case Replay(twin) =>
      && r == (if write == Saved || !changed then Ok(pruned.ops[twin].record) else Err(PersistFailed))
      && disk == (if changed && write != FailedOld then pruned else before)
      && (r.Ok? ==> after == pruned && published == [])
    case Room =>
      var s' := Created(pruned, limits, id, request, now);
      && r == (if write == Saved then Ok(s'.ops[id].record) else Err(PersistFailed))
      && disk == (if write == FailedOld then before else s')
      && (r.Ok? ==> after == s' && published == [EventOf(pruned, id, Pending, now)])
  }

  /** Pruning shows in the table and leaves the numbering alone. */
  lemma KeptDiffers(s: Store, keep: set<ID>)
    requires keep <= s.ops.Keys
    ensures Kept(s, keep).nextSequence == s.nextSequence
    ensures Kept(s, keep) == s <==> keep == s.ops.Keys
    ensures Kept(s, keep).ops.Keys == keep
  {
    assert Kept(s, keep).ops.Keys == keep;
    if keep == s.ops.Keys {
      assert Kept(s, keep).ops == s.ops;
    }
  }

  lemma PruningShows(s: Store, keep: set<ID>)
    requires keep <= s.ops.Keys
    ensures Kept(s, keep) != s <==> keep != s.ops.Keys
  {
    assert Kept(s, keep).ops.Keys == keep;
  }

  /** An answer that is an error does not speak about the store it leaves. */
  lemma ErrorAnswer(
      pruned: Store, changed: bool, limits: Limits, request: Request, id: ID, now: Time, write: Write,
      r: Result<Record, Error>, published: seq<Event>, before: Store, disk: Store, after: Store, restored: Store)
    requires CreateAnswer(pruned, changed, limits, request, id, now, write, r, published, before, disk, after) && r.Err?
    ensures CreateAnswer(pruned, changed, limits, request, id, now, write, r, published, before, disk, restored)
  {
  }

  /** Create's search for an operation with the same idempotency hash. */
  method FindTwin(ops: map<ID, Entry>, hash: string) returns (twin: Option<ID>)
    ensures twin.Some? ==> hash != "" && twin.value in ops && ops[twin.value].hash == hash
    ensures twin.None? ==> hash == "" || forall id :: id in ops ==> ops[id].hash != hash
  {
    if hash == "" {
      return None;
    }
    var rest := ops.Keys;
    while rest != {}
      invariant rest <= ops.Keys && forall id :: id in ops && id !in rest ==> ops[id].hash != hash
      decreases |rest|
    {
      var id :| id in rest;
      if ops[id].hash == hash {
        return Some(id);
      }
      rest := rest - {id};
    }
    return None;
  }

  /** The first loop of pruneLocked. */
  method WithinRetention(ops: map<ID, Entry>, limits: Limits, now: Time) returns (keep: set<ID>)
    ensures keep <= ops.Keys
    ensures forall id :: id in ops ==> (id in keep <==> !Outlived(ops[id].record, limits, now))
  {
    keep := ops.Keys;
    var rest := ops.Keys;
    while rest != {}
      invariant rest <= keep <= ops.Keys
      invariant forall id :: id in ops && id !in rest ==> (id in keep <==> !Outlived(ops[id].record, limits, now))
      decreases |rest|
    {
      var id :| id in rest;
      if Outlived(ops[id].record, limits, now) {
        keep := keep - {id};
      }
      rest := rest - {id};
    }
  }

  /** `keep` is what remains of `all` after removing its oldest terminal members. */
  ghost predicate OldestRemoved(ops: map<ID, Entry>, all: set<ID>, keep: set<ID>)
  {
    && keep <= all <= ops.Keys
    && (forall id :: id in all && id !in keep ==> ops[id].record.state.Terminal())
    && (forall a, b :: a in all && a !in keep && b in keep ==>
          ops[b].record.state.Terminal() ==> ops[a].record.updated <= ops[b].record.updated)
  }

  /** The second loop of pruneLocked. */
  method WithinCapacity(ops: map<ID, Entry>, limits: Limits, all: set<ID>) returns (keep: set<ID>)
    requires all <= ops.Keys
    ensures OldestRemoved(ops, all, keep)
    ensures keep == all || |keep| >= limits.maxOperations
    ensures |keep| > limits.maxOperations ==> forall id :: id in keep ==> !ops[id].record.state.Terminal()
  {
    keep := all;
    var terminal := set id | id in all && ops[id].record.state.Terminal();
    while |keep| > limits.maxOperations && terminal != {}
      invariant OldestRemoved(ops, all, keep)
      invariant forall id :: id in terminal <==> id in keep && ops[id].record.state.Terminal()
      invariant keep == all || |keep| >= limits.maxOperations
      decreases |terminal|
    {
      HasOldest(terminal, ops);
      var id :| id in terminal && forall other :: other in terminal ==> ops[id].record.updated <= ops[other].record.updated;
      keep := keep - {id};
      terminal := terminal - {id};
    }
  }

  lemma PruneMayKeep(s: Store, limits: Limits, now: Time, retained: set<ID>, keep: set<ID>)
    requires forall id :: id in s.ops ==> (id in retained <==> !Outlived(s.ops[id].record, limits, now))
    requires OldestRemoved(s.ops, retained, keep) && (keep == retained || |keep| >= limits.maxOperations)
    requires |keep| > limits.maxOperations ==> forall id :: id in keep ==> !s.ops[id].record.state.Terminal()
    ensures MayKeep(s, limits, now, keep)
  {
  }

  lemma {:induction false} HasOldest(s: set<ID>, ops: map<ID, Entry>)
    requires s != {} && s <= ops.Keys
    ensures exists id :: id in s && forall other :: other in s ==> ops[id].record.updated <= ops[other].record.updated
    decreases |s|
  {
    var some :| some in s;
    if s == {some} {
      assert forall other :: other in s ==> ops[some].record.updated <= ops[other].record.updated;
    } else {
      assert s - {some} != {};
      HasOldest(s - {some}, ops);
      var least :| least in s - {some} &&
        forall other :: other in s - {some} ==> ops[least].record.updated <= ops[other].record.updated;
      var id := if ops[some].record.updated < ops[least].record.updated then some else least;
      forall other | other in s ensures ops[id].record.updated <= ops[other].record.updated {
        assert other == some || other in s - {some};
      }
    }
  }
}
