/**
 * Which targets are routable (internal/availability/availability.go) and which one a virtual
 * model picks (internal/routing/selector.go).
 */
module Availability {
  import opened Common
  import opened Names
  import opened Cooldowns

  datatype ProviderView = ProviderView(
    id: string, disabled: bool, ready: bool, capabilities: seq<string>,
    allowed: seq<string>, catalog: Option<seq<string>>, cooldowns: seq<Entry>)

  datatype ProviderEntry = ProviderEntry(
    disabled: bool, ready: bool, capabilities: set<string>,
    allowed: Option<set<string>>, models: Option<set<string>>, cooldowns: map<(string, string), Entry>)

  datatype Snapshot = Snapshot(builtAt: Time, providers: map<string, ProviderEntry>)

  datatype Verdict =
    | Routable | NotRegistered | Disabled | NotReady | CapabilityUnsupported
    | OnCooldown(until: Time) | Disallowed | NotInCatalog | AlreadyAttempted

  // ---------------------------------------------------------------- building a snapshot

  function Normals(models: seq<string>): set<string>
  {
    set m | m in models :: Normal(m)
  }

  /** The cooldowns still running at `builtAt`, by normal model and capability; later ones win. */
  function CooldownMap(cooldowns: seq<Entry>, builtAt: Time): map<(string, string), Entry>
  {
    if cooldowns == [] then map[]
    else
      var before := CooldownMap(cooldowns[..|cooldowns| - 1], builtAt);
      var e := cooldowns[|cooldowns| - 1];
      if e.until > builtAt then before[(Normal(e.model), e.capability) := e] else before
  }

  function EntryOf(view: ProviderView, builtAt: Time): ProviderEntry
  {
    ProviderEntry(view.disabled, view.ready, set c | c in view.capabilities,
                  if view.allowed == [] then None else Some(Normals(view.allowed)),
                  if view.catalog.Some? then Some(Normals(view.catalog.value)) else None,
                  CooldownMap(view.cooldowns, builtAt))
  }

  /** One entry per provider; a later view of the same provider replaces an earlier one. */
  function Providers(views: seq<ProviderView>, builtAt: Time): map<string, ProviderEntry>
  {
    if views == [] then map[]
    else
      var last := views[|views| - 1];
      Providers(views[..|views| - 1], builtAt)[last.id := EntryOf(last, builtAt)]
  }

  /** NewSnapshot. */
  method NewSnapshot(builtAt: Time, views: seq<ProviderView>) returns (snap: Snapshot)
    ensures snap == Snapshot(builtAt, Providers(views, builtAt))
  {
    hide Normal;
    var providers: map<string, ProviderEntry> := map[];
    for n := 0 to |views|
      invariant providers == Providers(views[..n], builtAt)
    {
      assert views[..n + 1][..n] == views[..n];
      var view := views[n];
      var cooldowns := RunningCooldowns(view.cooldowns, builtAt);
      var entry := ProviderEntry(view.disabled, view.ready, set c | c in view.capabilities,
                                 if view.allowed == [] then None else Some(Normals(view.allowed)),
                                 if view.catalog.Some? then Some(Normals(view.catalog.value)) else None,
                                 cooldowns);
      providers := providers[view.id := entry];
    }
    assert views[..|views|] == views;
    snap := Snapshot(builtAt, providers);
  }

  /** Every provider of a snapshot stands for one of its views, and every view is represented. */
  lemma {:induction false} ProvidersAreViews(views: seq<ProviderView>, builtAt: Time, p: string)
    ensures p in Providers(views, builtAt) <==> exists i :: 0 <= i < |views| && views[i].id == p
    ensures p in Providers(views, builtAt) ==>
              exists i :: 0 <= i < |views| && views[i].id == p && Providers(views, builtAt)[p] == EntryOf(views[i], builtAt)
  {
    hide EntryOf;
    if views != [] {
      var init, n := views[..|views| - 1], |views| - 1;
      ProvidersAreViews(init, builtAt, p);
      if views[n].id == p {
        assert Providers(views, builtAt)[p] == EntryOf(views[n], builtAt);
      } else if p in Providers(init, builtAt) {
        var i :| 0 <= i < |init| && init[i].id == p && Providers(init, builtAt)[p] == EntryOf(init[i], builtAt);
        assert views[i] == init[i];
      }
    }
  }

  /** The cooldown loop of NewSnapshot. */
  method RunningCooldowns(cooldowns: seq<Entry>, builtAt: Time) returns (running: map<(string, string), Entry>)
    ensures running == CooldownMap(cooldowns, builtAt)
  {
    hide Normal;
    running := map[];
    for n := 0 to |cooldowns|
      invariant running == CooldownMap(cooldowns[..n], builtAt)
    {
      assert cooldowns[..n + 1][..n] == cooldowns[..n];
      if cooldowns[n].until > builtAt {
        running := running[(Normal(cooldowns[n].model), cooldowns[n].capability) := cooldowns[n]];
      }
    }
    assert cooldowns[..|cooldowns|] == cooldowns;
  }

  // ---------------------------------------------------------------- evaluating a target

  function CooldownUntil(entry: ProviderEntry, model: string, capability: string): Option<Time>
  {
    var k := (Normal(model), capability);
    if k in entry.cooldowns then Some(entry.cooldowns[k].until) else None
  }

  /** Evaluate: the first condition that fails. */
  function Evaluate(snap: Snapshot, provider: string, model: string, capability: string): Verdict
  {
    if provider !in snap.providers then NotRegistered
    else
      var entry := snap.providers[provider];
      var until := CooldownUntil(entry, model, capability);
      if entry.disabled then Disabled
      else if !entry.ready then NotReady
      else if capability !in entry.capabilities then CapabilityUnsupported
      else if until.Some? && until.value > snap.builtAt then OnCooldown(until.value)
      else if entry.allowed.Some? && Normal(model) !in entry.allowed.value then Disallowed
      else if entry.models.None? || Normal(model) !in entry.models.value then NotInCatalog
      else Routable
  }

  /** The view of a provider that counts: the last one given. */
  function LastView(views: seq<ProviderView>, provider: string): Option<ProviderView>
  {
    if views == [] then None
    else if views[|views| - 1].id == provider then Some(views[|views| - 1])
    else LastView(views[..|views| - 1], provider)
  }

  lemma {:induction false} ProvidersAreLastViews(views: seq<ProviderView>, builtAt: Time, p: string)
    ensures p in Providers(views, builtAt) <==> LastView(views, p).Some?
    ensures p in Providers(views, builtAt) ==> Providers(views, builtAt)[p] == EntryOf(LastView(views, p).value, builtAt)
  {
    hide EntryOf;
    if views != [] {
      ProvidersAreLastViews(views[..|views| - 1], builtAt, p);
    }
  }

  /** A cooldown of the model for the capability that is still running. */
  ghost predicate Running(cooldowns: seq<Entry>, model: string, capability: string, builtAt: Time)
  {
    exists i :: 0 <= i < |cooldowns| && Normal(cooldowns[i].model) == Normal(model)
      && cooldowns[i].capability == capability && cooldowns[i].until > builtAt
  }

  lemma {:induction false} CooldownMapHolds(cooldowns: seq<Entry>, model: string, capability: string, builtAt: Time)
    ensures var k, m := (Normal(model), capability), CooldownMap(cooldowns, builtAt);
      && (k in m <==> Running(cooldowns, model, capability, builtAt))
      && (k in m ==> m[k].until > builtAt)
  {
    hide Normal;
    if cooldowns != [] {
      var init, n := cooldowns[..|cooldowns| - 1], |cooldowns| - 1;
      CooldownMapHolds(init, model, capability, builtAt);
      if Running(init, model, capability, builtAt) {
        var i :| 0 <= i < |init| && Normal(init[i].model) == Normal(model) && init[i].capability == capability && init[i].until > builtAt;
        assert cooldowns[i] == init[i];
      }
      if i :| 0 <= i < n && Normal(cooldowns[i].model) == Normal(model) && cooldowns[i].capability == capability && cooldowns[i].until > builtAt {
        assert init[i] == cooldowns[i];
      }
    }
  }

  /** The name is listed, up to padding and case. */
  ghost predicate Mentions(models: seq<string>, model: string)
  {
    exists i :: 0 <= i < |models| && Normal(models[i]) == Normal(model)
  }

  /** Exactly which targets are routable, said of the providers as they reported themselves: enabled, ready,
      capable, not cooling down for this model and capability, allowed to serve the model, and known to
      have it. */
  lemma {:induction false} RoutableExactly(views: seq<ProviderView>, builtAt: Time, provider: string, model: string, capability: string)
    ensures Evaluate(Snapshot(builtAt, Providers(views, builtAt)), provider, model, capability).Routable? <==>
      && LastView(views, provider).Some?
      && var v := LastView(views, provider).value;
         && !v.disabled && v.ready && capability in v.capabilities
         && !Running(v.cooldowns, model, capability, builtAt)
         && (v.allowed == [] || Mentions(v.allowed, model))
         && v.catalog.Some? && Mentions(v.catalog.value, model)
  {
    ProvidersAreLastViews(views, builtAt, provider);
    hide Normal, CooldownMap, Providers, LastView;
    if LastView(views, provider).Some? {
      var v := LastView(views, provider).value;
      CooldownMapHolds(v.cooldowns, model, capability, builtAt);
      NormalsName(v.allowed, model);
      if v.catalog.Some? {
        NormalsName(v.catalog.value, model);
      }
    }
  }

  lemma NormalsName(models: seq<string>, model: string)
    ensures Normal(model) in Normals(models) <==> Mentions(models, model)
  {
    hide Normal;
    if Mentions(models, model) {
      var i :| 0 <= i < |models| && Normal(models[i]) == Normal(model);
      assert models[i] in models;
    }
  }

  /** What the selector makes of one configured target. */
  function Judge(snap: Snapshot, target: string, capability: string, exclude: set<string>): Verdict
  {
    if Trim(target) in exclude then AlreadyAttempted
    else
      match Strip(Trim(target))
      case None => NotRegistered
      case Some(t) => Evaluate(snap, t.provider, t.model, capability)
  }

  /** SelectPriorityTargetExcluding: the first routable target that is not excluded, and why each
      earlier one was passed over. */
  method Select(targets: seq<string>, capability: string, snap: Snapshot, exclude: set<string>)
      returns (index: Option<nat>, skipped: seq<Verdict>)
    ensures index.Some? ==>
              && index.value < |targets| && Judge(snap, targets[index.value], capability, exclude).Routable?
              && |skipped| == index.value
    ensures index.None? ==> |skipped| == |targets|
    ensures forall i :: 0 <= i < |skipped| ==>
              skipped[i] == Judge(snap, targets[i], capability, exclude) && !skipped[i].Routable?
  {
    hide Trim, Normal;
    skipped := [];
    for n := 0 to |targets|
      invariant |skipped| == n
      invariant forall i :: 0 <= i < n ==> skipped[i] == Judge(snap, targets[i], capability, exclude) && !skipped[i].Routable?
    {
      var trimmed := Trim(targets[n]);
      if trimmed in exclude {
        skipped := skipped + [AlreadyAttempted];
        continue;
      }
      var stripped := Strip(trimmed);
      if stripped.None? {
        skipped := skipped + [NotRegistered];
        continue;
      }
      var verdict := Evaluate(snap, stripped.value.provider, stripped.value.model, capability);
      if verdict.Routable? {
        return Some(n), skipped;
      }
      skipped := skipped + [verdict];
    }
    index := None;
  }

  // ---------------------------------------------------------------- quota holds

  /** The registry holds `key` at least until `deadline`. */
  predicate Held(entries: Entries, key: Key, deadline: Time)
  {
    key in entries && entries[key].until >= deadline
  }

  /** A snapshot whose views carry what the registry said of their provider at `readAt`. */
  ghost predicate BuiltFrom(snap: Snapshot, views: seq<ProviderView>, entries: Entries, readAt: Time)
  {
    && snap.providers == Providers(views, snap.builtAt)
    && forall i :: 0 <= i < |views| ==> Standing(views[i].cooldowns, entries, entries.Keys, views[i].id, readAt)
  }

  lemma {:induction false} CooldownMapFinds(cooldowns: seq<Entry>, entries: Entries, key: Key, builtAt: Time)
    requires forall i :: 0 <= i < |cooldowns| ==> cooldowns[i].provider == key.provider && cooldowns[i] in entries.Values
    requires Keyed(entries) && key in entries && entries[key] in cooldowns && entries[key].until > builtAt
    ensures (key.model, key.capability) in CooldownMap(cooldowns, builtAt)
    ensures CooldownMap(cooldowns, builtAt)[(key.model, key.capability)] == entries[key]
  {
    hide Trim, Lower;
    var n := |cooldowns| - 1;
    var last := cooldowns[n];
    var k :| k in entries && entries[k] == last;
    assert k == KeyOf(last.provider, last.model, last.capability);
    if k != key {
      assert entries[key] != last;
      assert entries[key] in cooldowns[..n];
      CooldownMapFinds(cooldowns[..n], entries, key, builtAt);
    }
  }

  /** While a hold stands, no snapshot built from the registry routes to its target. */
  lemma {:induction false} HeldIsNotRoutable(snap: Snapshot, views: seq<ProviderView>, entries: Entries, key: Key, deadline: Time,
                          readAt: Time, target: string, exclude: set<string>)
    requires Keyed(entries) && Held(entries, key, deadline) && snap.builtAt < deadline && readAt < deadline
    requires BuiltFrom(snap, views, entries, readAt)
    requires Strip(Trim(target)).Some?
    requires KeyOf(Strip(Trim(target)).value.provider, Strip(Trim(target)).value.model, key.capability) == key
    ensures !Judge(snap, target, key.capability, exclude).Routable?
  {
    hide Trim, Lower;
    if key.provider in snap.providers {
      ProvidersAreViews(views, snap.builtAt, key.provider);
      var i :| 0 <= i < |views| && views[i].id == key.provider && snap.providers[key.provider] == EntryOf(views[i], snap.builtAt);
      assert entries[key].provider == key.provider;
      CooldownMapFinds(views[i].cooldowns, entries, key, snap.builtAt);
    }
  }

  lemma {:induction false} QuotaIsHeld(entries: Entries, target: string, capability: string, status: int, err: Failure, retryAfter: Duration, t: Time)
    requires ExhaustsQuota(status, err, retryAfter) && Strip(target).Some?
    requires Trim(Strip(target).value.model) != "" && capability != ""
    ensures Held(AfterOutcome(entries, target, capability, status, err, retryAfter, t),
                 KeyOf(Strip(target).value.provider, Strip(target).value.model, capability), t + QUOTA)
  {
    hide Trim, Lower;
    QuotaPolicyExactly(status, err, retryAfter);
  }

  /** Exactly which configured spellings a quota failure holds: those that start with a provider
      prefix as written. The selector trims a target first and RecordOutcome does not. */
  lemma {:induction false} HoldExactly(entries: Entries, target: string, capability: string, status: int, err: Failure, retryAfter: Duration, t: Time)
    requires ExhaustsQuota(status, err, retryAfter) && capability != ""
    requires Strip(Trim(target)).Some? && Trim(Strip(Trim(target)).value.model) != ""
    ensures var key := KeyOf(Strip(Trim(target)).value.provider, Strip(Trim(target)).value.model, capability);
      Held(AfterOutcome(entries, target, capability, status, err, retryAfter, t), key, t + QUOTA) <==>
      Strip(target).Some? || Held(entries, key, t + QUOTA)
  {
    if Strip(target).Some? {
      StripIgnoresRightPadding(target);
      NormalIsBlankTogether(Strip(target).value.model, Strip(Trim(target)).value.model);
      QuotaIsHeld(entries, target, capability, status, err, retryAfter, t);
    }
  }

  lemma NormalIsBlankTogether(a: string, b: string)
    requires Normal(a) == Normal(b) && Trim(b) != ""
    ensures Trim(a) != ""
  {
    assert |Normal(a)| == |Trim(a)| && |Normal(b)| == |Trim(b)|;
  }

  /** A target with a space in front is routable wherever its provider serves the model, and a quota
      failure leaves it so: nothing is held. */
  lemma {:induction false} PaddedTargetEscapes(entries: Entries, t: Time, snap: Snapshot)
    requires "codex" in snap.providers
    requires var p := snap.providers["codex"];
      && !p.disabled && p.ready && "chat" in p.capabilities && p.cooldowns == map[] && p.allowed.None?
      && p.models.Some? && Normal("gpt") in p.models.value
    ensures Judge(snap, " codex/gpt", "chat", {}).Routable?
    ensures AfterOutcome(entries, " codex/gpt", "chat", 402, NoError, 0, t) == entries
  {
    assert TrimLeft(" codex/gpt") == "codex/gpt";
    assert Trim(" codex/gpt") == "codex/gpt";
    assert Strip("codex/gpt") == Some(Target("codex", "gpt")) by {
      assert "codex/gpt"[6..] == "gpt";
    }
  }
}
