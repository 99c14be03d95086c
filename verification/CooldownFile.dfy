/**
 * The persisted cooldowns (internal/routing/cooldown.go): the file lists the holds in a fixed order,
 * and reopening reads no more than its first 4096.
 */
module CooldownFile {
  import opened Common
  import opened Names
  import opened Cooldowns

  // ---------------------------------------------------------------- the order of the file

  predicate Less(a: string, b: string)
  {
    b != "" && (a == "" || a[0] < b[0] || (a[0] == b[0] && Less(a[1..], b[1..])))
  }

  lemma {:induction false} LessIsOrder(a: string, b: string, c: string)
    ensures !Less(a, a)
    ensures Less(a, b) || a == b || Less(b, a)
    ensures Less(a, b) && Less(b, c) ==> Less(a, c)
  {
    if a != "" {
      LessIsOrder(a[1..], if b == "" then b else b[1..], if c == "" then c else c[1..]);
      if b != "" && a[0] == b[0] && a[1..] == b[1..] {
        assert a == [a[0]] + a[1..] && b == [b[0]] + b[1..];
      }
    }
  }

  /** By provider, then capability, then folded model. */
  predicate Before(a: Key, b: Key)
  {
    || Less(a.provider, b.provider)
    || (a.provider == b.provider && Less(a.capability, b.capability))
    || (a.provider == b.provider && a.capability == b.capability && Less(a.model, b.model))
  }

  lemma BeforeIsOrder(a: Key, b: Key, c: Key)
    ensures !Before(a, a)
    ensures Before(a, b) || a == b || Before(b, a)
    ensures Before(a, b) && Before(b, c) ==> Before(a, c)
  {
    hide Less;
    LessIsOrder(a.provider, b.provider, c.provider);
    LessIsOrder(a.capability, b.capability, c.capability);
    LessIsOrder(a.model, b.model, c.model);
  }

  predicate IsFirst(keys: set<Key>, k: Key)
  {
    k in keys && forall other :: other in keys && other != k ==> Before(k, other)
  }

  lemma {:induction false} FirstExists(keys: set<Key>)
    requires keys != {}
    ensures exists k :: IsFirst(keys, k)
    decreases |keys|
  {
    hide Before;
    var some :| some in keys;
    var first := some;
    if keys != {some} {
      FirstExists(keys - {some});
      var k :| IsFirst(keys - {some}, k);
      BeforeIsOrder(k, some, some);
      first := if Before(k, some) then k else some;
      forall other | other in keys && other != first ensures Before(first, other) {
        BeforeIsOrder(some, k, other);
      }
    }
    assert IsFirst(keys, first);
  }

  function First(keys: set<Key>): (k: Key)
    requires keys != {}
    ensures IsFirst(keys, k)
  {
    FirstExists(keys);
    OnlyFirst(keys);
    var k :| k in keys && IsFirst(keys, k);
    k
  }

  lemma OnlyFirst(keys: set<Key>)
    ensures forall a, b :: IsFirst(keys, a) && IsFirst(keys, b) ==> a == b
  {
    forall a, b | IsFirst(keys, a) && IsFirst(keys, b) ensures a == b {
      BeforeIsOrder(a, b, a);
    }
  }

  function SortedKeys(keys: set<Key>): seq<Key>
    decreases |keys|
  {
    if keys == {} then [] else [First(keys)] + SortedKeys(keys - {First(keys)})
  }

  /** The keys that come before `k`. */
  function Ahead(keys: set<Key>, k: Key): set<Key>
  {
    set other | other in keys && Before(other, k)
  }

  function Take<T>(s: seq<T>, n: nat): seq<T>
  {
    if |s| > n then s[..n] else s
  }

  /** A key is among the first `n` exactly when fewer than `n` keys come before it. */
  lemma {:induction false} RankIsPosition(keys: set<Key>, k: Key, n: nat)
    ensures k in Take(SortedKeys(keys), n) <==> k in keys && |Ahead(keys, k)| < n
    decreases |keys|
  {
    hide Before;
    if keys != {} && n > 0 {
      var first := First(keys);
      var rest := SortedKeys(keys - {first});
      RankIsPosition(keys - {first}, k, n - 1);
      assert Take(SortedKeys(keys), n) == [first] + Take(rest, n - 1);
      if k == first {
        FirstHasNoneAhead(keys, first);
      } else if k in keys {
        assert Ahead(keys, k) == Ahead(keys - {first}, k) + {first};
      }
    }
  }

  lemma FirstHasNoneAhead(keys: set<Key>, first: Key)
    requires IsFirst(keys, first)
    ensures Ahead(keys, first) == {}
  {
    hide Before;
    forall other | other in keys ensures !Before(other, first) {
      BeforeIsOrder(first, other, first);
    }
  }

  lemma {:induction false} SortedKeysListAll(keys: set<Key>)
    ensures |SortedKeys(keys)| == |keys| && forall k :: k in SortedKeys(keys) <==> k in keys
    decreases |keys|
  {
    hide Before, IsFirst;
    if keys != {} {
      SortedKeysListAll(keys - {First(keys)});
    }
  }

  // ---------------------------------------------------------------- writing and reopening

  /** The file written for `entries`. */
  function File(entries: Entries): (items: seq<Entry>)
  {
    Listed(entries, SortedKeys(entries.Keys))
  }

  function Listed(entries: Entries, keys: seq<Key>): (items: seq<Entry>)
    ensures |items| <= |keys|
  {
    if keys == [] then []
    else
      var k := keys[|keys| - 1];
      Listed(entries, keys[..|keys| - 1]) + if k in entries then [entries[k]] else []
  }

  lemma {:induction false} ListedAt(entries: Entries, keys: seq<Key>)
    requires forall k :: k in keys ==> k in entries
    ensures |Listed(entries, keys)| == |keys|
    ensures forall i :: 0 <= i < |keys| ==> Listed(entries, keys)[i] == entries[keys[i]]
  {
    if keys != [] {
      ListedAt(entries, keys[..|keys| - 1]);
    }
  }

  /** persistLocked: collect the entries and sort them. */
  method Persist(entries: Entries) returns (items: seq<Entry>)
    ensures items == File(entries)
    ensures Keyed(entries) ==> |items| == |entries|
    ensures Keyed(entries) ==> forall i, j :: 0 <= i < j < |items| ==>
              var a, b := items[i], items[j];
              || Less(a.provider, b.provider)
              || (a.provider == b.provider && Less(a.capability, b.capability))
              || (a.provider == b.provider && a.capability == b.capability && Less(Normal(a.model), Normal(b.model)))
  {
    items := Collect(entries);
    if Keyed(entries) {
      FileIsSorted(entries);
    }
  }

  /** The entries by ascending key. */
  method Collect(entries: Entries) returns (items: seq<Entry>)
    ensures items == File(entries)
  {
    hide Before, IsFirst;
    items := [];
    var rest := entries.Keys;
    ghost var done: seq<Key> := [];
    assert [] + SortedKeys(rest) == SortedKeys(rest);
    while rest != {}
      invariant rest <= entries.Keys
      invariant SortedKeys(entries.Keys) == done + SortedKeys(rest)
      invariant items == Listed(entries, done)
      decreases |rest|
    {
      var k := First(rest);
      assert k in rest by { FirstIsMember(rest); }
      assert (done + [k])[..|done|] == done;
      assert done + ([k] + SortedKeys(rest - {k})) == done + [k] + SortedKeys(rest - {k});
      items := items + [entries[k]];
      done := done + [k];
      rest := rest - {k};
    }
    assert done + [] == done;
  }

  lemma {:induction false} SortedInOrder(keys: set<Key>)
    ensures forall i, j :: 0 <= i < j < |SortedKeys(keys)| ==> Before(SortedKeys(keys)[i], SortedKeys(keys)[j])
    decreases |keys|
  {
    hide Before;
    if keys != {} {
      var first := First(keys);
      var rest := SortedKeys(keys - {first});
      SortedInOrder(keys - {first});
      SortedKeysListAll(keys - {first});
      forall j | 0 <= j < |rest| ensures Before(first, rest[j]) {
        assert rest[j] in rest;
      }
      assert SortedKeys(keys) == [first] + rest;
    }
  }

  lemma FileIsSorted(entries: Entries)
    requires Keyed(entries)
    ensures |File(entries)| == |entries|
    ensures forall i, j :: 0 <= i < j < |File(entries)| ==>
              var a, b := File(entries)[i], File(entries)[j];
              || Less(a.provider, b.provider)
              || (a.provider == b.provider && Less(a.capability, b.capability))
              || (a.provider == b.provider && a.capability == b.capability && Less(Normal(a.model), Normal(b.model)))
  {
    var keys := SortedKeys(entries.Keys);
    SortedKeysListAll(entries.Keys);
    SortedInOrder(entries.Keys);
    ListedAt(entries, keys);
    hide SortedKeys, Listed, Less, Normal;
    assert |entries| == |entries.Keys|;
    forall i, j | 0 <= i < j < |keys| ensures Before(keys[i], keys[j]) && Spells(entries, keys[i]) && Spells(entries, keys[j]) {
      assert keys[i] in keys && keys[j] in keys;
    }
  }

  /** An entry spells out its own key. */
  ghost predicate Spells(entries: Entries, k: Key)
  {
    k in entries && k.provider == entries[k].provider && k.capability == entries[k].capability && k.model == Normal(entries[k].model)
  }

  lemma FirstIsMember(keys: set<Key>)
    requires keys != {}
    ensures First(keys) in keys
  {
  }

  /** Every entry can be written and read back. */
  ghost predicate Storable(entries: Entries)
  {
    Keyed(entries) && forall k :: k in entries ==> Canonical(entries[k])
  }

  /** Exactly which holds a restart finds again: those in the file with fewer than 4096 others before
      them that have not expired. */
  lemma {:induction false} ReopenedExactly(entries: Entries, now: Time, k: Key)
    requires Storable(entries)
    ensures var again := Loaded(Take(File(entries), MAX_PERSISTED), now);
      && (k in again <==> k in entries && entries[k].until > now && |Ahead(entries.Keys, k)| < 4096)
      && (k in again ==> again[k] == entries[k])
  {
    var keys := SortedKeys(entries.Keys);
    var items := Take(File(entries), MAX_PERSISTED);
    SortedKeysListAll(entries.Keys);
    ListedAt(entries, keys);
    hide Before, SortedKeys, Ahead, Listed, Trim, Lower, Loaded, Normal, WellFormed;
    var taken := Take(keys, MAX_PERSISTED);
    assert |items| == |taken|;
    forall i | 0 <= i < |items| ensures items[i] == entries[taken[i]] && taken[i] in entries {
      assert keys[i] in keys;
    }
    forall i | 0 <= i < |items|
      ensures && Canonical(items[i]) && KeyOf(items[i].provider, items[i].model, items[i].capability) == taken[i] {
      assert taken[i] in entries;
    }
    LoadedAre(items, entries, now, k);
    RankIsPosition(entries.Keys, k, MAX_PERSISTED);
    if k in entries && entries[k] in items {
      var i :| 0 <= i < |items| && items[i] == entries[k];
      assert k == KeyOf(entries[k].provider, entries[k].model, entries[k].capability) == taken[i];
    }
    if k in taken {
      var i :| 0 <= i < |taken| && taken[i] == k;
      assert items[i] == entries[k];
    }
  }

  /** So a registry of at most 4096 holds loses none of them. */
  lemma {:induction false} SmallRegistryIsKept(entries: Entries, now: Time)
    requires Storable(entries) && |entries| <= MAX_PERSISTED
    ensures Loaded(Take(File(entries), MAX_PERSISTED), now) == Unexpired(entries, now)
  {
    hide Loaded, File, Take, Ahead, Storable;
    var again := Loaded(Take(File(entries), MAX_PERSISTED), now);
    forall k ensures k in again <==> k in Unexpired(entries, now) ensures k in again ==> again[k] == entries[k] {
      ReopenedExactly(entries, now, k);
      if k in entries {
        FewerAhead(entries.Keys, k);
        assert |entries| == |entries.Keys|;
      }
    }
  }

  lemma FewerAhead(keys: set<Key>, k: Key)
    requires k in keys
    ensures |Ahead(keys, k)| < |keys|
  {
    BeforeIsOrder(k, k, k);
    hide Before;
    var rest := keys - Ahead(keys, k);
    assert k in rest && keys == Ahead(keys, k) + rest;
    assert |Ahead(keys, k) + rest| == |Ahead(keys, k)| + |rest|;
  }
}
