/**
 * Target cooldowns (internal/routing/cooldown.go): how long a failure holds a target, the
 * registry, and its persisted form. Times and durations are in nanoseconds.
 */
module Cooldowns {
  import opened Common
  import opened Names

  type Time = int
  type Duration = int

  const SECOND: Duration := 1_000_000_000
  const BASE: Duration := 15 * SECOND
  const MAX: Duration := 300 * SECOND
  const QUOTA: Duration := 24 * 3600 * SECOND
  const MAX_PERSISTED := 4096

  datatype Reason = RateLimited | EntitlementDenied | AuthRequired | Transient | Timeout | QuotaExhausted

  /** What a provider call can fail with, as far as cooldowns look at it. */
  datatype Failure = NoError | Canceled | DeadlineExceeded | OtherError

  // ---------------------------------------------------------------- durations

  function Doubled(n: nat): Duration
  {
    if n == 0 then BASE else 2 * Doubled(n - 1)
  }

  lemma {:induction false} DoubledGrows(m: nat, n: nat)
    requires m <= n
    ensures BASE <= Doubled(m) <= Doubled(n)
    decreases n - m, m
  {
    if m < n {
      DoubledGrows(m, n - 1);
    } else if m > 0 {
      DoubledGrows(m - 1, m - 1);
    }
  }

  function Power(base: nat, n: nat): nat
  {
    if n == 0 then 1 else base * Power(base, n - 1)
  }

  lemma {:induction false} DoubledIsPower(n: nat)
    ensures Doubled(n) == Power(2, n) * 15 * SECOND
  {
    if n > 0 {
      DoubledIsPower(n - 1);
    }
  }

  /** The closed form: 15 s doubled per earlier failure and a server hint, each capped at 5 min,
      whichever is longer; a quota hold is 24 h or a longer hint. */
  function HoldFor(reason: Reason, failures: int, hint: Duration): Duration
  {
    if reason.QuotaExhausted? then Max(QUOTA, hint)
    else Max(Min(MAX, Doubled(Max(failures - 1, 0))), Min(Max(hint, 0), MAX))
  }

  /** A hold is never shorter than the first one. */
  lemma HoldGrows(reason: Reason, failures: nat, hint: Duration)
    requires failures >= 1
    ensures HoldFor(reason, failures, hint) >= HoldFor(reason, 1, hint)
  {
    DoubledGrows(0, failures - 1);
  }

  /** cooldownDuration. */
  method CooldownDuration(reason: Reason, failures: int, hint: Duration) returns (duration: Duration)
    ensures duration == HoldFor(reason, failures, hint)
    ensures reason == QuotaExhausted ==> duration == if hint > 86_400 * SECOND then hint else 86_400 * SECOND
    ensures reason != QuotaExhausted ==>
              duration == Max(Min(300 * SECOND, Power(2, Max(failures - 1, 0)) * 15 * SECOND), Min(Max(hint, 0), 300 * SECOND))
  {
    DoubledIsPower(Max(failures - 1, 0));
    if reason.QuotaExhausted? {
      duration := QUOTA;
      if hint > duration {
        duration := hint;
      }
      return;
    }
    duration := BASE;
    var step := 1;
    while step < failures && duration < MAX
      invariant 1 <= step && (step <= failures || step == 1)
      invariant duration == Doubled(step - 1)
      decreases failures - step
    {
      duration := duration * 2;
      step := step + 1;
    }
    DoubledGrows(step - 1, Max(failures - 1, 0));
    if duration > MAX {
      duration := MAX;
    }
    if hint > 0 {
      var capped := hint;
      if capped > MAX {
        capped := MAX;
      }
      if capped > duration {
        duration := capped;
      }
    }
  }

  // ---------------------------------------------------------------- policy

  function ReasonFor(status: int, err: Failure): Option<Reason>
  {
    if err.Canceled? then None
    else if err.DeadlineExceeded? || status == 408 || status == 504 then Some(Timeout)
    else if status == 429 then Some(RateLimited)
    else if status == 401 then Some(AuthRequired)
    else if status == 402 || status == 403 then Some(EntitlementDenied)
    else if status >= 500 || !err.NoError? then Some(Transient)
    else None
  }

  /** cooldownPolicy: which hold, if any, an outcome earns. */
  function Policy(status: int, err: Failure, retryAfter: Duration): Option<Reason>
  {
    var reason := ReasonFor(status, err);
    if reason.None? then None
    else if status == 402 || status == 403 then Some(QuotaExhausted)
    else if status == 429 then
      if 0 < retryAfter <= MAX then Some(RateLimited) else Some(QuotaExhausted)
    else reason
  }

  /** The outcomes that exhaust a quota. */
  predicate ExhaustsQuota(status: int, err: Failure, retryAfter: Duration)
  {
    !err.Canceled? && (status == 402 || status == 403 || (status == 429 && !(0 < retryAfter <= MAX)))
  }

  lemma {:induction false} QuotaPolicyExactly(status: int, err: Failure, retryAfter: Duration)
    ensures Policy(status, err, retryAfter) == Some(QuotaExhausted) <==> ExhaustsQuota(status, err, retryAfter)
  {
  }

  predicate Succeeds(status: int, err: Failure)
  {
    200 <= status < 300 && err.NoError?
  }

  /** A 64-bit signed product, as the machine computes it. */
  function Wrapped(x: int): (r: int)
    ensures -0x8000_0000_0000_0000 <= r < 0x8000_0000_0000_0000
    ensures -0x8000_0000_0000_0000 <= x < 0x8000_0000_0000_0000 ==> r == x
  {
    (x + 0x8000_0000_0000_0000) % 0x1_0000_0000_0000_0000 - 0x8000_0000_0000_0000
  }

  /** retryAfterDuration: whole seconds, capped at 5 min; anything else is no hint. */
  function RetryAfter(seconds: Option<int>): (d: Duration)
    ensures d <= MAX
    ensures seconds.None? || seconds.value <= 0 ==> d == 0
    ensures seconds.Some? && 0 < seconds.value <= 9_223_372_036 ==> d == Min(seconds.value * SECOND, MAX) && d > 0
  {
    if seconds.None? || seconds.value <= 0 then 0 else Min(Wrapped(seconds.value * SECOND), MAX)
  }

  /** A hint is what the header says, capped, exactly when its nanoseconds fit in 64 bits or happen to
      wrap to at least the cap. */
  lemma {:induction false} RetryAfterExactly(s: int)
    requires s > 0
    ensures RetryAfter(Some(s)) == Min(s * SECOND, MAX) <==> s <= 9_223_372_036 || Wrapped(s * SECOND) >= MAX
  {
    if s > 9_223_372_036 {
      Scales(9_223_372_037, s);
    }
  }

  lemma Scales(a: int, b: int)
    requires a <= b
    ensures a * SECOND <= b * SECOND
  {
  }

  /** A rate limit turns into an exhausted quota exactly when the product wraps to nothing or less. */
  lemma {:induction false} HintBecomesQuotaExactly(s: int)
    requires s > 0
    ensures Policy(429, NoError, RetryAfter(Some(s))) == Some(QuotaExhausted) <==> Wrapped(s * SECOND) <= 0
  {
    QuotaPolicyExactly(429, NoError, RetryAfter(Some(s)));
  }

  /** Both ways of going wrong: one second too many is held for 24 h as an exhausted quota, and a hint
      of almost six centuries is taken for 0.29 s. */
  lemma {:induction false} LongHintsOverflow()
    ensures RetryAfter(Some(9_223_372_037)) < 0
    ensures Policy(429, NoError, RetryAfter(Some(9_223_372_037))) == Some(QuotaExhausted)
    ensures RetryAfter(Some(18_446_744_074)) == 290_448_384
    ensures Policy(429, NoError, RetryAfter(Some(18_446_744_074))) == Some(RateLimited)
  {
    assert Wrapped(9_223_372_037 * SECOND) < 0;
  }

  // ---------------------------------------------------------------- the registry

  datatype Key = Key(provider: string, capability: string, model: string)

  datatype Entry = Entry(provider: string, model: string, capability: string, until: Time, reason: Reason, failures: nat)

  type Entries = map<Key, Entry>

  function KeyOf(provider: string, model: string, capability: string): Key
  {
    Key(provider, capability, Normal(model))
  }

  predicate Recordable(provider: string, model: string, capability: string)
  {
    provider != "" && Trim(model) != "" && capability != ""
  }

  function FailuresAfter(entries: Entries, key: Key, now: Time): nat
  {
    if key in entries && entries[key].until > now then entries[key].failures + 1 else 1
  }

  function UntilAfter(entries: Entries, key: Key, reason: Reason, hint: Duration, now: Time): Time
  {
    var until := now + HoldFor(reason, FailuresAfter(entries, key, now), hint);
    if key in entries then Max(until, entries[key].until) else until
  }

  function Recorded(entries: Entries, provider: string, model: string, capability: string,
                    reason: Reason, hint: Duration, now: Time): Entries
  {
    var key := KeyOf(provider, model, capability);
    if !Recordable(provider, model, capability) then entries
    else entries[key := Entry(provider, Trim(model), capability,
                              UntilAfter(entries, key, reason, hint, now), reason, FailuresAfter(entries, key, now))]
  }

  function Purged(entries: Entries, provider: string, now: Time): Entries
  {
    map k | k in entries && !(entries[k].provider == provider && entries[k].until <= now) :: entries[k]
  }

  function Unexpired(entries: Entries, now: Time): Entries
  {
    map k | k in entries && entries[k].until > now :: entries[k]
  }

  /** RecordOutcome. The prefix is taken from the target as configured, not from its trimmed form. */
  function AfterOutcome(entries: Entries, target: string, capability: string, status: int, err: Failure,
                        retryAfter: Duration, now: Time): Entries
  {
    match Strip(target)
    case None => entries
    case Some(t) =>
      if Succeeds(status, err) then entries - {KeyOf(t.provider, t.model, capability)}
      else
        match Policy(status, err, retryAfter)
        case None => entries
        case Some(reason) => Recorded(entries, t.provider, t.model, capability, reason, retryAfter, now)
  }

  /** Every entry sits under its own key. */
  ghost predicate Keyed(entries: Entries)
  {
    forall k :: k in entries ==> k == KeyOf(entries[k].provider, entries[k].model, entries[k].capability) && WellFormed(entries[k])
  }

  predicate WellFormed(e: Entry)
  {
    Recordable(e.provider, e.model, e.capability) && Trimmed(e.model) && e.failures > 0
  }

  lemma RecordedIsKeyed(entries: Entries, provider: string, model: string, capability: string,
                        reason: Reason, hint: Duration, now: Time)
    requires Keyed(entries)
    ensures Keyed(Recorded(entries, provider, model, capability, reason, hint, now))
  {
    NormalIsStable(model);
    TrimIsIdempotent(model);
  }

  /** `active` lists the entries under `keys` that belong to the provider and have not expired. */
  ghost predicate Standing(active: seq<Entry>, entries: Entries, keys: set<Key>, provider: string, now: Time)
  {
    && (forall k :: k in keys && k in entries && entries[k].provider == provider && entries[k].until > now ==> entries[k] in active)
    && (forall i :: 0 <= i < |active| ==> active[i].provider == provider && active[i].until > now && active[i] in entries.Values)
  }

  class Registry {
    var entries: Entries

    constructor ()
      ensures entries == map[]
    {
      entries := map[];
    }

    /** Record: extend or start a hold; it never ends earlier than before. */
    method Record(provider: string, model: string, capability: string, reason: Reason, hint: Duration, now: Time)
        returns (until: Time, entered: bool)
      requires Keyed(entries)
      modifies this
      ensures Keyed(entries) && entered == Recordable(provider, model, capability)
      ensures entries == Recorded(old(entries), provider, model, capability, reason, hint, now)
      ensures entered ==>
                var key := KeyOf(provider, model, capability);
                && key in entries && entries[key].until == until
                && until >= now + HoldFor(reason, 1, hint)
                && (key in old(entries) ==> until >= old(entries)[key].until)
    {
      hide Trim, Lower, Normal, KeyOf, HoldFor, WellFormed;
      if provider == "" || Trim(model) == "" || capability == "" {
        return 0, false;
      }
      var key := KeyOf(provider, model, capability);
      var failures := 1;
      if key in entries && entries[key].until > now {
        failures := entries[key].failures + 1;
      }
      var duration := CooldownDuration(reason, failures, hint);
      HoldGrows(reason, failures, hint);
      until := now + duration;
      if key in entries && entries[key].until > until {
        until := entries[key].until;
      }
      RecordedIsKeyed(entries, provider, model, capability, reason, hint, now);
      entries := entries[key := Entry(provider, Trim(model), capability, until, reason, failures)];
      entered := true;
    }

    method Clear(provider: string, model: string, capability: string) returns (cleared: bool)
      requires Keyed(entries)
      modifies this
      ensures Keyed(entries) && entries == old(entries) - {KeyOf(provider, model, capability)}
      ensures cleared <==> KeyOf(provider, model, capability) in old(entries)
    {
      var key := KeyOf(provider, model, capability);
      cleared := key in entries;
      entries := entries - {key};
    }

    /** RecordOutcome: a success clears the target, a failure may hold it. */
    method RecordOutcome(target: string, capability: string, status: int, err: Failure, retryAfter: Duration, now: Time)
      requires Keyed(entries)
      modifies this
      ensures Keyed(entries) && entries == AfterOutcome(old(entries), target, capability, status, err, retryAfter, now)
      // a success forgets the target and nothing else
      ensures 200 <= status < 300 && err.NoError? && Strip(target).Some? ==>
                var key := KeyOf(Strip(target).value.provider, Strip(target).value.model, capability);
                && key !in entries && entries.Keys == old(entries).Keys - {key}
                && forall k :: k in entries ==> entries[k] == old(entries)[k]
    {
      hide Trim, Lower, KeyOf, WellFormed;
      var stripped := Strip(target);
      if stripped.None? {
        return;
      }
      var t := stripped.value;
      if 200 <= status < 300 && err.NoError? {
        var _ := Clear(t.provider, t.model, capability);
        return;
      }
      var reason := Policy(status, err, retryAfter);
      if reason.Some? {
        var _, _ := Record(t.provider, t.model, capability, reason.value, retryAfter, now);
      }
    }

    /** Cooldowns: the holds of one provider that still stand; the others are dropped. */
    method Active(provider: string, now: Time) returns (active: seq<Entry>)
      requires Keyed(entries)
      modifies this
      ensures Keyed(entries) && entries == Purged(old(entries), provider, now)
      ensures forall k :: k in entries <==> k in old(entries) && (old(entries)[k].provider != provider || old(entries)[k].until > now)
      ensures forall k :: k in entries ==> entries[k] == old(entries)[k]
      ensures Standing(active, old(entries), old(entries).Keys, provider, now)
    {
      hide Trim, Lower, KeyOf, WellFormed;
      active := [];
      var rest := entries.Keys;
      while rest != {}
        invariant rest <= entries.Keys <= old(entries).Keys
        invariant forall k :: k in entries ==> entries[k] == old(entries)[k]
        invariant forall k :: k in old(entries) && k !in rest ==>
                    (k in entries <==> !(old(entries)[k].provider == provider && old(entries)[k].until <= now))
        invariant Standing(active, old(entries), old(entries).Keys - rest, provider, now)
        decreases |rest|
      {
        var key :| key in rest;
        var entry := entries[key];
        if entry.provider == provider {
          if entry.until > now {
            active := active + [entry];
          } else {
            entries := entries - {key};
          }
        }
        rest := rest - {key};
      }
      assert entries == Purged(old(entries), provider, now);
    }
  }

  // ---------------------------------------------------------------- persistence

  /** The stored list: every entry once. */
  ghost predicate Lists(items: seq<Entry>, entries: Entries)
  {
    && |items| == |entries|
    && (forall k :: k in entries ==> entries[k] in items)
    && (forall i :: 0 <= i < |items| ==>
          var k := KeyOf(items[i].provider, items[i].model, items[i].capability); k in entries && entries[k] == items[i])
  }

  /** decodePersistedCooldown. */
  function Decoded(item: Entry, now: Time): Option<Entry>
  {
    var provider, model, capability := Trim(item.provider), Trim(item.model), Trim(item.capability);
    if provider == "" || model == "" || capability == "" || item.until <= now then None
    else Some(Entry(provider, model, capability, item.until, item.reason, Max(item.failures, 1)))
  }

  /** OpenCooldownRegistry on a well-formed file. */
  method Reopen(items: seq<Entry>, now: Time) returns (entries: Entries)
    ensures entries == Loaded(if |items| > MAX_PERSISTED then items[..MAX_PERSISTED] else items, now)
  {
    hide Trim, Lower;
    entries := map[];
    ghost var kept := if |items| > MAX_PERSISTED then items[..MAX_PERSISTED] else items;
    var index := 0;
    while index < |items| && index < MAX_PERSISTED
      invariant 0 <= index <= |kept|
      invariant entries == Loaded(kept[..index], now)
    {
      assert kept[..index + 1][..index] == kept[..index];
      var decoded := Decoded(items[index], now);
      if decoded.Some? {
        var e := decoded.value;
        entries := entries[KeyOf(e.provider, e.model, e.capability) := e];
      }
      index := index + 1;
    }
    assert kept[..index] == kept;
  }

  function Loaded(items: seq<Entry>, now: Time): Entries
  {
    if items == [] then map[]
    else
      var before := Loaded(items[..|items| - 1], now);
      match Decoded(items[|items| - 1], now)
      case None => before
      case Some(e) => before[KeyOf(e.provider, e.model, e.capability) := e]
  }

  /** A provider and capability without padding survive the round trip; the registry only ever
      gets such names. */
  predicate Canonical(e: Entry)
  {
    WellFormed(e) && Trimmed(e.provider) && Trimmed(e.capability)
  }

  lemma {:induction false} LoadedAre(items: seq<Entry>, entries: Entries, now: Time, k: Key)
    requires Keyed(entries)
    requires forall i :: 0 <= i < |items| ==>
      && Canonical(items[i])
      && KeyOf(items[i].provider, items[i].model, items[i].capability) in entries
      && entries[KeyOf(items[i].provider, items[i].model, items[i].capability)] == items[i]
    ensures k in Loaded(items, now) <==> k in entries && entries[k] in items && entries[k].until > now
    ensures k in Loaded(items, now) ==> Loaded(items, now)[k] == entries[k]
  {
    hide Trim, Lower;
    if items != [] {
      var init, last := items[..|items| - 1], items[|items| - 1];
      LoadedAre(init, entries, now, k);
      TrimIsIdempotent(last.provider);
      TrimIsIdempotent(last.model);
      TrimIsIdempotent(last.capability);
      assert items == init + [last];
    }
  }

  /** Writing the registry and reopening it yields exactly the holds that have not expired, as
      long as the file is not truncated. */
  lemma {:induction false} RestartKeepsHolds(items: seq<Entry>, entries: Entries, now: Time)
    requires Keyed(entries) && Lists(items, entries) && |entries| <= MAX_PERSISTED
    requires forall k :: k in entries ==> Canonical(entries[k])
    ensures Loaded(items, now) == Unexpired(entries, now)
  {
    forall k ensures k in Loaded(items, now) <==> k in Unexpired(entries, now)
      ensures k in Loaded(items, now) ==> Loaded(items, now)[k] == entries[k]
    {
      LoadedAre(items, entries, now, k);
    }
  }

  // ---------------------------------------------------------------- what an outcome earns

  /** Whether an outcome earns a hold at all: a cancelled request never, any other error always, and
      otherwise the statuses that tell of authentication, payment, permission, time, rate or the server. */
  lemma {:induction false} EarnsHoldExactly(status: int, err: Failure, retryAfter: Duration)
    ensures Policy(status, err, retryAfter).Some? <==>
      && err != Canceled
      && (err != NoError || status == 401 || status == 402 || status == 403 || status == 408 || status == 429 || status >= 500)
  {
  }

  /** Which one: the status decides over the error where it speaks of money, permission or rate; running out
      of time is named as such. */
  lemma {:induction false} HoldIsNamed(status: int, err: Failure, retryAfter: Duration)
    requires err != Canceled
    ensures status == 402 || status == 403 ==> Policy(status, err, retryAfter) == Some(QuotaExhausted)
    ensures status == 429 && 0 < retryAfter <= 300 * SECOND ==> Policy(status, err, retryAfter) == Some(RateLimited)
    ensures status == 429 && !(0 < retryAfter <= 300 * SECOND) ==> Policy(status, err, retryAfter) == Some(QuotaExhausted)
    ensures status == 408 || status == 504 ==> Policy(status, err, retryAfter) == Some(Timeout)
    ensures err == DeadlineExceeded && status != 402 && status != 403 && status != 429 ==> Policy(status, err, retryAfter) == Some(Timeout)
    ensures status == 401 && err != DeadlineExceeded ==> Policy(status, err, retryAfter) == Some(AuthRequired)
    ensures status >= 500 && status != 504 && err != DeadlineExceeded ==> Policy(status, err, retryAfter) == Some(Transient)
  {
  }

  /** The registry after failures of one target at the given times. */
  function RecordedAll(entries: Entries, provider: string, model: string, capability: string, reason: Reason, hint: Duration, times: seq<Time>): Entries
  {
    if times == [] then entries
    else
      Recorded(RecordedAll(entries, provider, model, capability, reason, hint, times[..|times| - 1]),
               provider, model, capability, reason, hint, times[|times| - 1])
  }

  /** Failures escalate: the n-th failure in a row, each before the hold of the one before has run out, is
      counted as the n-th and held accordingly; the first one after a hold has run out counts as the first. */
  lemma {:induction false} FailuresEscalate(entries: Entries, provider: string, model: string, capability: string,
                                            reason: Reason, hint: Duration, times: seq<Time>)
    requires Recordable(provider, model, capability) && times != []
    requires var key := KeyOf(provider, model, capability); key in entries ==> entries[key].until <= times[0]
    requires forall n :: 0 < n < |times| ==>
      var before := RecordedAll(entries, provider, model, capability, reason, hint, times[..n]);
      KeyOf(provider, model, capability) in before ==> times[n] < before[KeyOf(provider, model, capability)].until
    ensures var after := RecordedAll(entries, provider, model, capability, reason, hint, times);
      var key := KeyOf(provider, model, capability);
      && key in after && after[key].failures == |times|
      && after[key].until >= times[|times| - 1] + HoldFor(reason, |times|, hint)
      && forall k :: k in entries && k != key ==> k in after && after[k] == entries[k]
  {
    hide KeyOf, HoldFor, Trim;
    var init := times[..|times| - 1];
    if |times| == 1 {
      assert RecordedAll(entries, provider, model, capability, reason, hint, init) == entries;
    } else {
      forall n | 0 < n < |init| ensures
        var before := RecordedAll(entries, provider, model, capability, reason, hint, init[..n]);
        KeyOf(provider, model, capability) in before ==> init[n] < before[KeyOf(provider, model, capability)].until {
        assert init[..n] == times[..n];
      }
      FailuresEscalate(entries, provider, model, capability, reason, hint, init);
      assert times[..|times| - 1] == init;
    }
  }
}
