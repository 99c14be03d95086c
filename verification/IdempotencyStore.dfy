/** IdempotencyStore as an object (internal/control/idempotency.go). */
module IdempotencyStore {
  import opened Common
  import opened Idempotency

  /** idempotencyEntry; `ready` is closed exactly when there is a response. */
  class Entry {
    const digest: string
    const created: Time
    ghost const key: string
    ghost const id: nat
    var response: Option<Response>

    constructor (ghost id: nat, ghost key: string, digest: string, created: Time)
      ensures this.id == id && this.key == key && this.digest == digest && this.created == created && response == None
    {
      this.id, this.key, this.digest, this.created, response := id, key, digest, created, None;
    }

    ghost function Value(): Cell
      reads this
    {
      Cell(key, digest, created, response)
    }
  }

  ghost function IdsOf(entries: map<string, Entry>): (r: map<string, nat>)
    ensures r.Keys == entries.Keys && forall k :: k in entries ==> r[k] == entries[k].id
  {
    map k | k in entries :: entries[k].id
  }

  ghost function CellsOf(made: seq<Entry>): (r: seq<Cell>)
    reads made
    ensures |r| == |made| && forall i :: 0 <= i < |made| ==> r[i] == made[i].Value()
  {
    seq(|made|, i requires 0 <= i < |made| reads made => made[i].Value())
  }

  /** Entries are numbered as they are made, and those retained are among them under their keys. */
  ghost predicate Listed(entries: map<string, Entry>, made: seq<Entry>)
  {
    && (forall i :: 0 <= i < |made| ==> made[i].id == i)
    && (forall k :: k in entries ==> entries[k].id < |made| && made[entries[k].id] == entries[k] && entries[k].key == k)
  }

  ghost function TableOf(entries: map<string, Entry>, made: seq<Entry>): (t: Table)
    requires Listed(entries, made)
    reads made
    ensures t.Valid() && t.entries.Keys == entries.Keys && |t.cells| == |made|
  {
    Table(IdsOf(entries), CellsOf(made))
  }

  lemma Looked(entries: map<string, Entry>, made: seq<Entry>, k: string)
    requires Listed(entries, made) && k in entries
    ensures var t := TableOf(entries, made);
            && (Finished(t, k) <==> entries[k].response.Some?) && Created(t, k) == entries[k].created
  {
  }

  lemma KeptIsCleaned(entries: map<string, Entry>, kept: map<string, Entry>, made: seq<Entry>, threshold: Time)
    requires Listed(entries, made) && kept.Keys <= entries.Keys
    requires forall k :: k in kept ==> kept[k] == entries[k]
    requires forall k :: k in entries ==> (k in kept <==> !(entries[k].created < threshold && entries[k].response.Some?))
    ensures Listed(kept, made) && TableOf(kept, made) == Cleaned(TableOf(entries, made), threshold)
  {
    forall k | k in entries ensures k in kept <==> k in Cleaned(TableOf(entries, made), threshold).entries {
      Looked(entries, made, k);
    }
    assert TableOf(kept, made).entries == Cleaned(TableOf(entries, made), threshold).entries;
  }

  lemma OldestMayGo(entries: map<string, Entry>, made: seq<Entry>, victim: Option<string>)
    requires Listed(entries, made)
    requires victim.Some? ==> victim.value in entries && entries[victim.value].response.Some?
    requires forall k :: k in entries && entries[k].response.Some? ==>
               victim.Some? && entries[victim.value].created <= entries[k].created
    ensures MayEvict(TableOf(entries, made), victim)
    ensures victim.Some? ==> Listed(entries - {victim.value}, made)
    ensures victim.Some? ==> TableOf(entries - {victim.value}, made) == Evicted(TableOf(entries, made), victim)
  {
    forall k | k in entries ensures Looks(entries, made, k) {
      Looked(entries, made, k);
    }
    hide TableOf, CellsOf, IdsOf;
    if victim.Some? {
      WithoutKey(entries, made, victim.value);
    }
  }

  ghost predicate Looks(entries: map<string, Entry>, made: seq<Entry>, k: string)
    requires Listed(entries, made) && k in entries
    reads made
  {
    var t := TableOf(entries, made);
    && (Finished(t, k) <==> made[entries[k].id].response.Some?) && Created(t, k) == entries[k].created
  }

  lemma WithoutKey(entries: map<string, Entry>, made: seq<Entry>, key: string)
    requires Listed(entries, made) && key in entries
    ensures Listed(entries - {key}, made)
    ensures TableOf(entries - {key}, made) == Table(TableOf(entries, made).entries - {key}, TableOf(entries, made).cells)
  {
    assert IdsOf(entries - {key}) == IdsOf(entries) - {key};
  }

  lemma WithEntry(entries: map<string, Entry>, made: seq<Entry>, key: string, entry: Entry)
    requires Listed(entries, made) && entry.id == |made| && entry.key == key
    ensures Listed(entries[key := entry], made + [entry])
    ensures TableOf(entries[key := entry], made + [entry]) ==
              Table(TableOf(entries, made).entries[key := entry.id], TableOf(entries, made).cells + [entry.Value()])
  {
    assert IdsOf(entries[key := entry]) == IdsOf(entries)[key := entry.id];
    assert CellsOf(made + [entry]) == CellsOf(made) + [entry.Value()];
  }

  ghost function AnswerOf(entry: Entry, owner: bool, conflict: bool): Answer
  {
    if owner then Own(entry.id) else if conflict then Conflict(entry.id) else Wait(entry.id)
  }

  /** NewIdempotencyStore: the limits actually used. */
  function Limit(maxEntries: int): (r: nat)
    ensures r >= 1
  {
    if maxEntries < 1 then 2048 else maxEntries
  }

  class Store {
    const maxEntries: nat
    const ttl: int
    var entries: map<string, Entry>
    ghost var made: seq<Entry>

    ghost predicate Valid()
      reads this
    {
      Listed(entries, made)
    }

    ghost function Value(): (t: Table)
      reads this, made
      requires Valid()
      ensures t.Valid()
    {
      TableOf(entries, made)
    }

    constructor (maxEntries: int, ttl: int)
      ensures Valid() && Value() == EMPTY.table && this.maxEntries == Limit(maxEntries)
    {
      this.maxEntries := if maxEntries < 1 then 2048 else maxEntries;
      this.ttl := if ttl <= 0 then 86400 else ttl;
      entries, made := map[], [];
    }

    /** The loop of cleanupLocked. */
    method Sweep(threshold: Time)
      modifies this`entries
      ensures forall k :: k in entries <==>
                k in old(entries) && !(old(entries)[k].created < threshold && old(entries)[k].response.Some?)
      ensures forall k :: k in entries ==> entries[k] == old(entries)[k]
    {
      var rest := entries.Keys;
      ghost var all := entries;
      ghost var stale := set k | k in entries && entries[k].created < threshold && entries[k].response.Some?;
      while rest != {}
        invariant rest <= all.Keys && entries == all - (stale - rest)
        decreases |rest|
      {
        var key :| key in rest;
        if entries[key].created < threshold && entries[key].response.Some? {
          entries := entries - {key};
        }
        rest := rest - {key};
      }
    }

    /** cleanupLocked. */
    method Cleanup(now: Time)
      requires Valid()
      modifies this`entries
      ensures Valid() && Value() == Cleaned(old(Value()), now - ttl)
    {
      hide TableOf, Cleaned, Listed;
      Sweep(now - ttl);
      KeptIsCleaned(old(entries), entries, made, now - ttl);
    }

    /** evictOldestLocked. */
    method EvictOldest() returns (victim: Option<string>)
      requires Valid()
      modifies this`entries
      ensures Valid() && MayEvict(old(Value()), victim) && Value() == Evicted(old(Value()), victim)
      ensures victim.None? ==> entries == old(entries) && forall k :: k in entries ==> entries[k].response.None?
      ensures victim.Some? ==>
                && victim.value in old(entries) && old(entries)[victim.value].response.Some?
                && entries == old(entries) - {victim.value}
                && forall k :: k in old(entries) && old(entries)[k].response.Some? ==>
                     old(entries)[victim.value].created <= old(entries)[k].created
    {
      hide TableOf;
      victim := None;
      var rest := entries.Keys;
      while rest != {}
        invariant rest <= entries.Keys && entries == old(entries)
        invariant victim.Some? ==> victim.value in entries && entries[victim.value].response.Some?
        invariant forall k :: k in entries && k !in rest && entries[k].response.Some? ==>
                    victim.Some? && entries[victim.value].created <= entries[k].created
        decreases |rest|
      {
        var key :| key in rest;
        if entries[key].response.Some? {
          if victim.None? || entries[key].created < entries[victim.value].created {
            victim := Some(key);
          }
        }
        rest := rest - {key};
      }
      OldestMayGo(entries, made, victim);
      if victim.Some? {
        entries := entries - {victim.value};
      }
    }

    /** begin. */
    method Begin(key: string, digest: string, now: Time, stamp: Time)
        returns (entry: Entry, owner: bool, conflict: bool, ghost victim: Option<string>)
      requires Valid()
      modifies this
      ensures Valid() && MayEvict(Cleaned(old(Value()), now - ttl), victim)
      ensures Value() == Begun(old(Value()), maxEntries, key, digest, now - ttl, stamp, victim).0
      ensures Begun(old(Value()), maxEntries, key, digest, now - ttl, stamp, victim).1 == AnswerOf(entry, owner, conflict)
      ensures made == if owner then old(made) + [entry] else old(made)
    {
      hide MayEvict, TableOf, Cleaned, Placed, Listed;
      Cleanup(now);
      entry, owner, conflict, victim := Place(key, digest, stamp);
    }

    /** The rest of begin. */
    method Place(key: string, digest: string, stamp: Time)
        returns (entry: Entry, owner: bool, conflict: bool, ghost victim: Option<string>)
      requires Valid()
      modifies this
      ensures Valid() && MayEvict(old(Value()), victim)
      ensures Value() == Placed(old(Value()), maxEntries, key, digest, stamp, victim).0
      ensures Placed(old(Value()), maxEntries, key, digest, stamp, victim).1 == AnswerOf(entry, owner, conflict)
      ensures made == if owner then old(made) + [entry] else old(made)
    {
      hide MayEvict, TableOf, Listed;
      SameSize(entries, Value().entries);
      victim := AnyVictim(Value());
      if key in entries {
        entry, owner := entries[key], false;
        conflict := entry.digest != digest;
        Found(entries, made, key);
        return;
      }
      if |entries| >= maxEntries {
        victim := EvictOldest();
      }
      entry := Insert(key, digest, stamp);
      owner, conflict := true, false;
    }

    method Insert(key: string, digest: string, stamp: Time) returns (entry: Entry)
      requires Valid()
      modifies this
      ensures Valid() && fresh(entry) && entry.id == old(|made|) && made == old(made) + [entry]
      ensures Value() == Table(old(Value()).entries[key := entry.id], old(Value()).cells + [Cell(key, digest, stamp, None)])
    {
      hide TableOf;
      entry := new Entry(|made|, key, digest, stamp);
      WithEntry(entries, made, key, entry);
      entries := entries[key := entry];
      made := made + [entry];
    }

    /** complete. */
    method Complete(key: string, entry: Entry, response: Response)
      requires Valid() && entry.id < |made| && made[entry.id] == entry
      modifies entry
      ensures Valid() && Value() == Completed(old(Value()), key, entry.id, response)
    {
      if key !in entries || entries[key] != entry {
        return;
      }
      entry.response := Some(response);
      assert Value().entries == old(Value()).entries;
      assert Value().cells == Completed(old(Value()), key, entry.id, response).cells;
    }
  }

  lemma Found(entries: map<string, Entry>, made: seq<Entry>, key: string)
    requires Listed(entries, made) && key in entries
    ensures entries[key].id < |made| && made[entries[key].id] == entries[key]
    ensures var t := TableOf(entries, made);
            t.entries[key] == entries[key].id && t.cells[t.entries[key]].digest == entries[key].digest
  {
  }

  lemma SameSize(a: map<string, Entry>, b: map<string, nat>)
    requires a.Keys == b.Keys
    ensures |a| == |b|
  {
    assert |a| == |a.Keys| && |b| == |b.Keys|;
  }

  /** There is always something, or nothing, to evict. */
  lemma {:induction false} AnyVictimOf(t: Table, keys: set<string>) returns (victim: Option<string>)
    requires t.Valid() && keys <= t.entries.Keys
    ensures victim.None? ==> forall k :: k in keys ==> !Finished(t, k)
    ensures victim.Some? ==> victim.value in keys && Finished(t, victim.value)
    ensures victim.Some? ==> forall k :: k in keys && Finished(t, k) ==> Created(t, victim.value) <= Created(t, k)
    decreases |keys|
  {
    victim := None;
    if keys != {} {
      var key :| key in keys;
      victim := AnyVictimOf(t, keys - {key});
      if Finished(t, key) && (victim.None? || Created(t, key) < Created(t, victim.value)) {
        victim := Some(key);
      }
    }
  }

  lemma AnyVictim(t: Table) returns (victim: Option<string>)
    requires t.Valid()
    ensures MayEvict(t, victim)
  {
    victim := AnyVictimOf(t, t.entries.Keys);
  }
}
