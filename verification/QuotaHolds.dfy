/**
 * Quota holds over the life of the daemon (internal/routing/cooldown.go): outcomes, purges, writes that
 * may fail, and restarts that read what was last written.
 */
module QuotaHolds {
  import opened Common
  import opened Names
  import opened Cooldowns
  import opened CooldownFile
  import opened Availability

  /** The registry in memory, and what it was when its file was last replaced. With no state path
      nothing is ever stored. */
  datatype Holds = Holds(entries: Entries, stored: Entries)

  /** What can happen while requests are served. `saved` tells whether the file was replaced, if the
      event writes it: a failure to do so is only logged. */
  datatype Event =
    | Outcome(target: string, capability: string, status: int, err: Failure, retryAfter: Duration, now: Time, saved: bool)
    | Purge(provider: string, now: Time, saved: bool)     // a router builds an availability snapshot
    | Restart(now: Time)                                  // the daemon opens its file again

  function EntriesAfter(entries: Entries, ev: Event): Entries
    requires !ev.Restart?
  {
    match ev
    case Outcome(target, capability, status, err, retryAfter, now, _) =>
      AfterOutcome(entries, target, capability, status, err, retryAfter, now)
    case Purge(provider, now, _) => Purged(entries, provider, now)
  }

  /** The event replaces the file: a record does, a clear or a purge only if it removes something. */
  predicate Writes(entries: Entries, ev: Event)
  {
    match ev
    case Outcome(target, capability, status, err, retryAfter, _, _) =>
      && Strip(target).Some?
      && var t := Strip(target).value;
         if Succeeds(status, err) then KeyOf(t.provider, t.model, capability) in entries
         else Policy(status, err, retryAfter).Some? && Recordable(t.provider, t.model, capability)
    case Purge(provider, now, _) => Purged(entries, provider, now) != entries
    case Restart(_) => false
  }

  function Reopened(stored: Entries, now: Time): Entries
  {
    Loaded(Take(File(stored), MAX_PERSISTED), now)
  }

  function After(st: Holds, ev: Event): Holds
  {
    if ev.Restart? then Holds(Reopened(st.stored, ev.now), st.stored)
    else
      var entries := EntriesAfter(st.entries, ev);
      Holds(entries, if Writes(st.entries, ev) && ev.saved then entries else st.stored)
  }

  function AfterAll(st: Holds, events: seq<Event>): Holds
  {
    if events == [] then st else After(AfterAll(st, events[..|events| - 1]), events[|events| - 1])
  }

  /** A successful response of the very target that is held. */
  predicate Clears(ev: Event, key: Key)
  {
    && ev.Outcome? && Succeeds(ev.status, ev.err)
    && Strip(ev.target).Some?
    && KeyOf(Strip(ev.target).value.provider, Strip(ev.target).value.model, ev.capability) == key
  }

  /** Before the deadline, no success of the held target, and a capability as the gateway spells them. */
  predicate Ordinary(ev: Event, key: Key, deadline: Time)
  {
    ev.now < deadline && !Clears(ev, key) && (ev.Outcome? ==> Trimmed(ev.capability))
  }

  /** A restart finds the hold again: it was stored, and fewer than 4096 stored holds come before it. */
  predicate Reopens(stored: Entries, key: Key, deadline: Time)
  {
    Held(stored, key, deadline) && |Ahead(stored.Keys, key)| < MAX_PERSISTED
  }

  ghost predicate Sound(st: Holds)
  {
    Storable(st.entries) && Storable(st.stored)
  }

  // ---------------------------------------------------------------- every event

  lemma StripIsTrimmed(target: string)
    ensures Strip(target).Some? ==> Trimmed(Strip(target).value.provider)
  {
  }

  lemma RecordedIsStorable(entries: Entries, target: string, capability: string, reason: Reason, hint: Duration, now: Time)
    requires Storable(entries) && Strip(target).Some? && Trimmed(capability)
    ensures Storable(Recorded(entries, Strip(target).value.provider, Strip(target).value.model, capability, reason, hint, now))
  {
    var t := Strip(target).value;
    StripIsTrimmed(target);
    RecordedIsKeyed(entries, t.provider, t.model, capability, reason, hint, now);
    TrimIsIdempotent(t.model);
    hide Trim, Lower, Strip, HoldFor, KeyOf;
  }

  lemma FewerAreStorable(entries: Entries, fewer: Entries)
    requires Storable(entries) && forall k :: k in fewer ==> k in entries && fewer[k] == entries[k]
    ensures Storable(fewer)
  {
    hide KeyOf, Canonical, WellFormed;
  }

  lemma AfterIsSound(st: Holds, ev: Event)
    requires Sound(st) && (ev.Outcome? ==> Trimmed(ev.capability))
    ensures Sound(After(st, ev))
  {
    hide Storable, Trim, Lower, Strip, KeyOf, Recorded;
    match ev
    case Outcome(target, capability, status, err, retryAfter, now, _) =>
      if Strip(target).Some? && Succeeds(status, err) {
        var t := Strip(target).value;
        FewerAreStorable(st.entries, st.entries - {KeyOf(t.provider, t.model, capability)});
      } else if Strip(target).Some? && Policy(status, err, retryAfter).Some? {
        RecordedIsStorable(st.entries, target, capability, Policy(status, err, retryAfter).value, retryAfter, now);
      }
    case Purge(provider, now, _) => FewerAreStorable(st.entries, Purged(st.entries, provider, now));
    case Restart(now) =>
      forall k | k in Reopened(st.stored, now) ensures k in st.stored && Reopened(st.stored, now)[k] == st.stored[k] {
        ReopenedExactly(st.stored, now, k);
      }
      FewerAreStorable(st.stored, Reopened(st.stored, now));
  }

  /** Exactly what ends a hold before its deadline, short of a success: a restart that does not find it. */
  lemma StepKeepsHold(st: Holds, ev: Event, key: Key, deadline: Time)
    requires Sound(st) && Held(st.entries, key, deadline) && Ordinary(ev, key, deadline)
    ensures Held(After(st, ev).entries, key, deadline) <==> (ev.Restart? ==> Reopens(st.stored, key, deadline))
  {
    hide Trim, Lower, HoldFor, Strip, KeyOf;
    if ev.Restart? {
      ReopenedExactly(st.stored, ev.now, key);
      RestartEarly(st, ev.now, key, deadline);
    } else {
      assert !Clears(ev, key);
    }
  }

  lemma RestartEarly(st: Holds, now: Time, key: Key, deadline: Time)
    requires Sound(st) && now < deadline
    ensures Held(Reopened(st.stored, now), key, deadline) <==> Reopens(st.stored, key, deadline)
  {
    ReopenedExactly(st.stored, now, key);
    hide Loaded, File, Ahead, Storable;
  }

  // ---------------------------------------------------------------- every run

  lemma {:induction false} RunIsSound(st: Holds, events: seq<Event>)
    requires Sound(st) && forall i :: 0 <= i < |events| && events[i].Outcome? ==> Trimmed(events[i].capability)
    ensures Sound(AfterAll(st, events))
  {
    hide Sound, After;
    if events != [] {
      RunIsSound(st, events[..|events| - 1]);
      AfterIsSound(AfterAll(st, events[..|events| - 1]), events[|events| - 1]);
    }
  }

  /** The hold stands after every prefix of the run. */
  ghost predicate AlwaysHeld(st: Holds, events: seq<Event>, key: Key, deadline: Time)
  {
    forall n :: 0 <= n <= |events| ==> Held(AfterAll(st, events[..n]).entries, key, deadline)
  }

  /** Every restart of the run finds the hold in the file. */
  ghost predicate AlwaysReopens(st: Holds, events: seq<Event>, key: Key, deadline: Time)
  {
    forall n :: 0 <= n < |events| && events[n].Restart? ==> Reopens(AfterAll(st, events[..n]).stored, key, deadline)
  }

  /** Whatever else is reported, purged, stored, lost or restarted, a hold stands throughout a run exactly
      when every restart finds it among the first 4096 entries of the file. */
  lemma {:induction false} HoldSurvivesExactly(st: Holds, events: seq<Event>, key: Key, deadline: Time)
    requires Sound(st) && Held(st.entries, key, deadline)
    requires forall i :: 0 <= i < |events| ==> Ordinary(events[i], key, deadline)
    ensures AlwaysHeld(st, events, key, deadline) <==> AlwaysReopens(st, events, key, deadline)
  {
    if events == [] {
      assert forall n :: 0 <= n <= |events| ==> events[..n] == [];
    } else {
      var init, last := events[..|events| - 1], events[|events| - 1];
      HoldSurvivesExactly(st, init, key, deadline);
      RunIsSound(st, init);
      var before := AfterAll(st, init);
      AlwaysSnoc(st, events, key, deadline);
      hide AlwaysHeld, AlwaysReopens, After, Held, Reopens, Sound, Ordinary;
      if AlwaysHeld(st, init, key, deadline) {
        HeldAtEnd(st, init, key, deadline);
        StepKeepsHold(before, last, key, deadline);
      }
    }
  }

  lemma HeldAtEnd(st: Holds, events: seq<Event>, key: Key, deadline: Time)
    requires AlwaysHeld(st, events, key, deadline)
    ensures Held(AfterAll(st, events).entries, key, deadline)
  {
    assert events[..|events|] == events;
  }

  lemma AlwaysSnoc(st: Holds, events: seq<Event>, key: Key, deadline: Time)
    requires events != []
    ensures var init, last := events[..|events| - 1], events[|events| - 1];
      && (AlwaysHeld(st, events, key, deadline) <==>
            AlwaysHeld(st, init, key, deadline) && Held(After(AfterAll(st, init), last).entries, key, deadline))
      && (AlwaysReopens(st, events, key, deadline) <==>
            AlwaysReopens(st, init, key, deadline) && (last.Restart? ==> Reopens(AfterAll(st, init).stored, key, deadline)))
  {
    hide After, Held, Reopens;
    var init := events[..|events| - 1];
    assert events[..|events|] == events;
    assert forall n :: 0 <= n <= |init| ==> init[..n] == events[..n];
    assert AfterAll(st, events) == After(AfterAll(st, init), events[|events| - 1]);
    if AlwaysHeld(st, events, key, deadline) {
      forall n | 0 <= n <= |init| ensures Held(AfterAll(st, init[..n]).entries, key, deadline) {
        assert Held(AfterAll(st, events[..n]).entries, key, deadline);
      }
      assert Held(AfterAll(st, events[..|events|]).entries, key, deadline);
    }
    if AlwaysHeld(st, init, key, deadline) && Held(After(AfterAll(st, init), events[|events| - 1]).entries, key, deadline) {
      forall n | 0 <= n <= |events| ensures Held(AfterAll(st, events[..n]).entries, key, deadline) {
        if n <= |init| {
          assert Held(AfterAll(st, init[..n]).entries, key, deadline);
        }
      }
    }
    if AlwaysReopens(st, events, key, deadline) {
      forall n | 0 <= n < |init| && init[n].Restart? ensures Reopens(AfterAll(st, init[..n]).stored, key, deadline) {
        assert events[n].Restart?;
      }
    }
  }

  lemma StepKeepsStored(st: Holds, ev: Event, key: Key, deadline: Time)
    requires Held(st.stored, key, deadline) && Held(After(st, ev).entries, key, deadline)
    ensures Held(After(st, ev).stored, key, deadline)
  {
  }

  /** At every restart of the run fewer than 4096 stored holds come before `key`. */
  ghost predicate Uncrowded(st: Holds, events: seq<Event>, key: Key)
  {
    forall n :: 0 <= n < |events| && events[n].Restart? ==>
      |Ahead(AfterAll(st, events[..n]).stored.Keys, key)| < MAX_PERSISTED
  }

  lemma UncrowdedSnoc(st: Holds, events: seq<Event>, key: Key)
    requires events != [] && Uncrowded(st, events, key)
    ensures var init, last := events[..|events| - 1], events[|events| - 1];
      && Uncrowded(st, init, key)
      && (last.Restart? ==> |Ahead(AfterAll(st, init).stored.Keys, key)| < MAX_PERSISTED)
  {
    hide AfterAll, Ahead;
    var init := events[..|events| - 1];
    forall n | 0 <= n < |init| && init[n].Restart? ensures |Ahead(AfterAll(st, init[..n]).stored.Keys, key)| < MAX_PERSISTED {
      assert init[..n] == events[..n] && events[n].Restart?;
    }
    assert events[..|init|] == init;
  }

  /** A hold that is in the file as well stays there through every later write, so restarts can lose it
      only by the limit. */
  lemma {:induction false} StoredHoldReopens(st: Holds, events: seq<Event>, key: Key, deadline: Time)
    requires Sound(st) && Held(st.entries, key, deadline) && Held(st.stored, key, deadline)
    requires forall i :: 0 <= i < |events| ==> Ordinary(events[i], key, deadline)
    requires Uncrowded(st, events, key)
    ensures AlwaysReopens(st, events, key, deadline)
    ensures Held(AfterAll(st, events).stored, key, deadline) && Held(AfterAll(st, events).entries, key, deadline)
  {
    if events != [] {
      var init, last := events[..|events| - 1], events[|events| - 1];
      RunIsSound(st, init);
      hide Sound, Ordinary, After, Held, Uncrowded, AlwaysReopens, Ahead;
      UncrowdedSnoc(st, events, key);
      AlwaysSnoc(st, events, key, deadline);
      StoredHoldReopens(st, init, key, deadline);
      var before := AfterAll(st, init);
      StepKeepsHold(before, last, key, deadline);
      StepKeepsStored(before, last, key, deadline);
    }
  }

  // ---------------------------------------------------------------- quota failures

  /** After a quota failure at time `t`, whatever else is reported, purged or stored before `t` + 24 h short
      of a success of that very target, and through every restart that finds the hold in the file, no
      selection made before `t` + 24 h picks the target, nor any other spelling of it. */
  lemma {:induction false} QuotaHoldIsRespected(
      st: Holds, quota: Event, events: seq<Event>, snap: Snapshot, views: seq<ProviderView>, readAt: Time,
      again: string, exclude: set<string>)
    requires Sound(st) && quota.Outcome? && ExhaustsQuota(quota.status, quota.err, quota.retryAfter)
    requires Strip(quota.target).Some? && Trim(Strip(quota.target).value.model) != ""
    requires quota.capability != "" && Trimmed(quota.capability)
    requires var key := KeyOf(Strip(quota.target).value.provider, Strip(quota.target).value.model, quota.capability);
      var deadline := quota.now + QUOTA;
      && (forall i :: 0 <= i < |events| ==> Ordinary(events[i], key, deadline))
      && AlwaysReopens(After(st, quota), events, key, deadline)
      && Strip(Trim(again)).Some?
      && KeyOf(Strip(Trim(again)).value.provider, Strip(Trim(again)).value.model, quota.capability) == key
      && snap.builtAt < deadline && readAt < deadline
      && BuiltFrom(snap, views, AfterAll(After(st, quota), events).entries, readAt)
    ensures !Judge(snap, again, quota.capability, exclude).Routable?
  {
    var key := KeyOf(Strip(quota.target).value.provider, Strip(quota.target).value.model, quota.capability);
    var deadline := quota.now + QUOTA;
    var held := After(st, quota);
    QuotaIsHeld(st.entries, quota.target, quota.capability, quota.status, quota.err, quota.retryAfter, quota.now);
    AfterIsSound(st, quota);
    assert Held(held.entries, key, deadline);
    hide AfterOutcome, Trim, Lower, Strip, KeyOf, After, Ordinary, AlwaysReopens, AlwaysHeld, Held, BuiltFrom, Judge;
    HoldSurvivesExactly(held, events, key, deadline);
    HeldAtEnd(held, events, key, deadline);
    RunIsSoundIfOrdinary(held, events, key, deadline);
    HeldIsNotRoutable(snap, views, AfterAll(held, events).entries, key, deadline, readAt, again, exclude);
  }

  lemma RunIsSoundIfOrdinary(st: Holds, events: seq<Event>, key: Key, deadline: Time)
    requires Sound(st) && forall i :: 0 <= i < |events| ==> Ordinary(events[i], key, deadline)
    ensures Keyed(AfterAll(st, events).entries)
  {
    RunIsSound(st, events);
  }

  /** In particular a quota failure whose hold was stored, in a registry whose file never has 4096 entries
      before it, is respected through every restart. */
  lemma {:induction false} StoredQuotaReopens(st: Holds, quota: Event, events: seq<Event>)
    requires Sound(st) && quota.Outcome? && ExhaustsQuota(quota.status, quota.err, quota.retryAfter) && quota.saved
    requires Strip(quota.target).Some? && Trim(Strip(quota.target).value.model) != ""
    requires quota.capability != "" && Trimmed(quota.capability)
    requires var key := KeyOf(Strip(quota.target).value.provider, Strip(quota.target).value.model, quota.capability);
      && (forall i :: 0 <= i < |events| ==> Ordinary(events[i], key, quota.now + QUOTA))
      && Uncrowded(After(st, quota), events, key)
    ensures var key := KeyOf(Strip(quota.target).value.provider, Strip(quota.target).value.model, quota.capability);
      AlwaysReopens(After(st, quota), events, key, quota.now + QUOTA)
  {
    var key := KeyOf(Strip(quota.target).value.provider, Strip(quota.target).value.model, quota.capability);
    QuotaIsHeld(st.entries, quota.target, quota.capability, quota.status, quota.err, quota.retryAfter, quota.now);
    QuotaPolicyExactly(quota.status, quota.err, quota.retryAfter);
    AfterIsSound(st, quota);
    hide Trim, Lower, Strip, AfterOutcome, Ordinary, Sound, KeyOf;
    assert Writes(st.entries, quota);
    StoredHoldReopens(After(st, quota), events, key, quota.now + QUOTA);
  }

  // ---------------------------------------------------------------- lost holds

  /** A hold whose write failed is gone after a restart, unless an earlier one was stored. */
  lemma {:induction false} UnsavedHoldIsLost(st: Holds, quota: Event, now: Time)
    requires Sound(st) && quota.Outcome? && !quota.saved && Strip(quota.target).Some?
    requires KeyOf(Strip(quota.target).value.provider, Strip(quota.target).value.model, quota.capability) !in st.stored
    ensures KeyOf(Strip(quota.target).value.provider, Strip(quota.target).value.model, quota.capability)
              !in After(After(st, quota), Restart(now)).entries
  {
    hide AfterOutcome, Trim, Lower, KeyOf, Strip;
    ReopenedExactly(st.stored, now, KeyOf(Strip(quota.target).value.provider, Strip(quota.target).value.model, quota.capability));
  }

  function As(n: nat): string
  {
    seq(n, i => 'a')
  }

  function CrowdKey(n: nat): Key
  {
    Key("codex", "chat", As(n))
  }

  /** `n` stored quota holds, on models of 1 to `n` letters. */
  function Crowd(n: nat, until: Time): Entries
  {
    if n == 0 then map[] else Crowd(n - 1, until)[CrowdKey(n) := Entry("codex", As(n), "chat", until, QuotaExhausted, 1)]
  }

  lemma AsIsNormal(n: nat)
    requires n > 0
    ensures Trimmed(As(n)) && Trim(As(n)) == As(n) && Normal(As(n)) == As(n) && As(n) != ""
  {
    TrimIsIdempotent(As(n));
    assert Lower(As(n)) == As(n);
  }

  lemma {:induction false} AsGrow(m: nat, n: nat)
    requires m < n
    ensures Less(As(m), As(n)) && !Less(As(n), As(m))
  {
    LessIsOrder(As(m), As(n), As(m));
    if m > 0 {
      assert As(m)[1..] == As(m - 1) && As(n)[1..] == As(n - 1);
      AsGrow(m - 1, n - 1);
    }
  }

  lemma {:induction false} CrowdIsStorable(n: nat, until: Time)
    ensures Storable(Crowd(n, until))
  {
    hide Trim, Lower;
    if n > 0 {
      CrowdIsStorable(n - 1, until);
      AsIsNormal(n);
      NamesAreTrimmed();
    }
  }

  lemma NamesAreTrimmed()
    ensures Trimmed("codex") && Trimmed("chat")
  {
  }

  lemma {:induction false} CrowdIsAhead(n: nat, until: Time, m: nat)
    requires n < m
    ensures |Ahead(Crowd(n, until).Keys, CrowdKey(m))| == n && CrowdKey(m) !in Crowd(n, until)
  {
    hide Less;
    if n > 0 {
      CrowdIsAhead(n - 1, until, m);
      CrowdIsAhead(n - 1, until, n);
      AsGrow(n, m);
      LessIsOrder("codex", "codex", "codex");
      LessIsOrder(As(n), As(m), As(n));
      var fewer := Crowd(n - 1, until).Keys;
      assert Crowd(n, until).Keys == fewer + {CrowdKey(n)};
      assert Ahead(fewer + {CrowdKey(n)}, CrowdKey(m)) == Ahead(fewer, CrowdKey(m)) + {CrowdKey(n)};
    }
  }

  /** The 4097th hold of a crowded registry is stored, has not expired, and is gone after a restart. */
  lemma {:induction false} CrowdedHoldIsLost(until: Time, now: Time)
    requires now < until
    ensures var st := Holds(Crowd(MAX_PERSISTED + 1, until), Crowd(MAX_PERSISTED + 1, until));
      && Sound(st) && Held(st.stored, CrowdKey(MAX_PERSISTED + 1), until)
      && CrowdKey(MAX_PERSISTED + 1) !in After(st, Restart(now)).entries
  {
    var n := MAX_PERSISTED + 1;
    var crowd := Crowd(n, until);
    CrowdIsStorable(n, until);
    CrowdIsAhead(n - 1, until, n);
    SelfIsNotAhead(CrowdKey(n));
    assert crowd == Crowd(n - 1, until)[CrowdKey(n) := Entry("codex", As(n), "chat", until, QuotaExhausted, 1)];
    hide Crowd, Before, As, Storable;
    assert crowd.Keys == Crowd(n - 1, until).Keys + {CrowdKey(n)};
    assert Ahead(crowd.Keys, CrowdKey(n)) == Ahead(Crowd(n - 1, until).Keys, CrowdKey(n));
    ReopenedExactly(crowd, now, CrowdKey(n));
  }

  lemma SelfIsNotAhead(k: Key)
    ensures !Before(k, k)
  {
    BeforeIsOrder(k, k, k);
  }

  // ---------------------------------------------------------------- what is written

  /** As long as every write succeeds the file holds what the registry holds, and what changes nothing is
      not written. */
  lemma {:induction false} FileFollowsMemory(st: Holds, ev: Event)
    requires !ev.Restart?
    ensures ev.saved && st.stored == st.entries ==> After(st, ev).stored == After(st, ev).entries
    ensures !ev.saved ==> After(st, ev).stored == st.stored
    ensures (ev.Purge? || Succeeds(ev.status, ev.err)) && After(st, ev).entries == st.entries ==> After(st, ev).stored == st.stored
  {
    hide Trim, Lower, Strip, KeyOf, Recorded;
    if ev.Outcome? && Strip(ev.target).Some? && !Succeeds(ev.status, ev.err) && Policy(ev.status, ev.err, ev.retryAfter).Some?
      && !Writes(st.entries, ev) {
      var t := Strip(ev.target).value;
      NotRecorded(st.entries, t.provider, t.model, ev.capability, Policy(ev.status, ev.err, ev.retryAfter).value, ev.retryAfter, ev.now);
    }
  }

  lemma NotRecorded(entries: Entries, provider: string, model: string, capability: string, reason: Reason, hint: Duration, now: Time)
    requires !Recordable(provider, model, capability)
    ensures Recorded(entries, provider, model, capability, reason, hint, now) == entries
  {
  }
}
