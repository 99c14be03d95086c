/** Virtual models: validation (internal/config/validate.go) and the order in which their targets
    are tried (internal/routing/router.go). */
module VirtualModels {
  import opened Common
  import opened Names

  datatype VirtualModel = VirtualModel(strategy: string, targets: seq<string>)

  datatype Routing = Routing(virtualModels: map<string, VirtualModel>, modelMap: set<string>)

  const PRIORITY := "priority"
  const QUOTA_PRIORITY := "quota_priority"

  /** KnownPrefixes. */
  const KNOWN_PREFIXES: seq<string> := ["github/", "codex/", "kilo/"]

  predicate Prefixed(id: string, prefixes: seq<string>)
  {
    exists i :: 0 <= i < |prefixes| && prefixes[i] != "" && prefixes[i] <= id
  }

  predicate Distinct(targets: seq<string>)
  {
    forall i, j :: 0 <= i < j < |targets| ==> Trim(targets[i]) != Trim(targets[j])
  }

  /** Targets name a provider each, none is another virtual model, and none is listed twice. */
  predicate TargetsFit(r: Routing, targets: seq<string>, prefixes: seq<string>)
  {
    && Distinct(targets)
    && forall i :: 0 <= i < |targets| ==>
         Trim(targets[i]) != "" && Trim(targets[i]) !in r.virtualModels && Prefixed(Trim(targets[i]), prefixes)
  }

  predicate ModelFits(r: Routing, id: string, prefixes: seq<string>)
    requires id in r.virtualModels
  {
    && Trim(id) != "" && !Prefixed(id, prefixes) && id !in r.modelMap
    && r.virtualModels[id].strategy in {PRIORITY, QUOTA_PRIORITY}
    && r.virtualModels[id].targets != []
    && TargetsFit(r, r.virtualModels[id].targets, prefixes)
  }

  predicate WellFormed(r: Routing, prefixes: seq<string>)
  {
    forall id :: id in r.virtualModels ==> ModelFits(r, id, prefixes)
  }

  /** matchKnownPrefix. */
  method MatchKnownPrefix(id: string, prefixes: seq<string>) returns (matched: bool)
    ensures matched <==> Prefixed(id, prefixes)
  {
    for n := 0 to |prefixes|
      invariant forall i :: 0 <= i < n ==> !(prefixes[i] != "" && prefixes[i] <= id)
    {
      if prefixes[n] != "" && prefixes[n] <= id {
        return true;
      }
    }
    return false;
  }

  /** The inner loop of ValidateVirtualModels. */
  method ValidateTargets(r: Routing, targets: seq<string>, prefixes: seq<string>) returns (ok: bool)
    ensures ok <==> TargetsFit(r, targets, prefixes)
  {
    hide Trim, Prefixed;
    var seen: set<string> := {};
    for n := 0 to |targets|
      invariant TargetsFit(r, targets[..n], prefixes)
      invariant forall t :: t in seen <==> exists i :: 0 <= i < n && Trim(targets[i]) == t
    {
      var trimmed := Trim(targets[n]);
      if trimmed == "" || trimmed in seen || trimmed in r.virtualModels {
        return false;
      }
      seen := seen + {trimmed};
      var known := MatchKnownPrefix(trimmed, prefixes);
      if !known {
        return false;
      }
    }
    assert targets[..|targets|] == targets;
    return true;
  }

  /** A configuration is accepted exactly when every virtual model in it is well formed. */
  method ValidateVirtualModels(r: Routing, prefixes: seq<string>) returns (ok: bool)
    ensures ok <==> WellFormed(r, prefixes)
  {
    hide Trim, Prefixed, TargetsFit;
    var rest := r.virtualModels.Keys;
    while rest != {}
      invariant rest <= r.virtualModels.Keys
      invariant forall id :: id in r.virtualModels && id !in rest ==> ModelFits(r, id, prefixes)
      decreases |rest|
    {
      var id :| id in rest;
      var vm := r.virtualModels[id];
      var reserved := MatchKnownPrefix(id, prefixes);
      if Trim(id) == "" || reserved || id in r.modelMap {
        return false;
      }
      if vm.strategy != PRIORITY && vm.strategy != QUOTA_PRIORITY {
        return false;
      }
      if |vm.targets| == 0 {
        return false;
      }
      var fit := ValidateTargets(r, vm.targets, prefixes);
      if !fit {
        return false;
      }
      rest := rest - {id};
    }
    return true;
  }

  /** In a validated configuration every target resolves to a provider, and none resolves back to
      a virtual model: dispatch is one level deep. */
  lemma {:induction false} ValidatedTargetsResolve(r: Routing, id: string, i: nat)
    requires WellFormed(r, KNOWN_PREFIXES) && id in r.virtualModels && i < |r.virtualModels[id].targets|
    ensures Strip(Trim(r.virtualModels[id].targets[i])).Some?
    ensures Trim(r.virtualModels[id].targets[i]) !in r.virtualModels && Strip(id).None?
  {
    hide Trim;
    assert ModelFits(r, id, KNOWN_PREFIXES);
    var target := Trim(r.virtualModels[id].targets[i]);
    var j :| 0 <= j < |KNOWN_PREFIXES| && KNOWN_PREFIXES[j] != "" && KNOWN_PREFIXES[j] <= target;
    assert KNOWN_PREFIXES[0] == "github/" && KNOWN_PREFIXES[1] == "codex/" && KNOWN_PREFIXES[2] == "kilo/";
  }

  // ---------------------------------------------------------------- the preferred target first

  function Trims(targets: seq<string>): set<string>
  {
    set t | t in targets :: Trim(t)
  }

  /** The targets other than `name`, in their order. */
  function Others(targets: seq<string>, name: string): seq<string>
  {
    if targets == [] then []
    else
      var init, last := targets[..|targets| - 1], targets[|targets| - 1];
      if Trim(last) == Trim(name) then Others(init, name) else Others(init, name) + [last]
  }

  /** reorderVMTargets. */
  method ReorderTargets(targets: seq<string>, preferred: string) returns (ordered: seq<string>)
    ensures ordered == Ordered(targets, preferred)
  {
    hide Trim;
    var found := false;
    for n := 0 to |targets|
      invariant found <==> Trim(preferred) in Trims(targets[..n])
    {
      assert targets[..n + 1] == targets[..n] + [targets[n]];
      if Trim(targets[n]) == Trim(preferred) {
        found := true;
        assert targets[n] in targets;
        assert targets[..|targets|] == targets;
        break;
      }
    }
    assert targets[..|targets|] == targets;
    if !found {
      return targets;
    }
    ordered := [preferred];
    for n := 0 to |targets|
      invariant ordered == [preferred] + Others(targets[..n], preferred)
    {
      assert targets[..n + 1][..n] == targets[..n];
      if Trim(targets[n]) != Trim(preferred) {
        ordered := ordered + [targets[n]];
      }
    }
  }

  function Ordered(targets: seq<string>, preferred: string): seq<string>
  {
    if Trim(preferred) in Trims(targets) then [preferred] + Others(targets, preferred) else targets
  }

  lemma TrimsSnoc(init: seq<string>, last: string)
    ensures Trims(init + [last]) == Trims(init) + {Trim(last)}
  {
    hide Trim;
    assert last in init + [last];
    assert forall t :: t in init ==> t in init + [last];
  }

  lemma {:induction false} OthersTrims(targets: seq<string>, name: string)
    ensures Trims(Others(targets, name)) == Trims(targets) - {Trim(name)}
  {
    hide Trim;
    if targets != [] {
      var init, last := targets[..|targets| - 1], targets[|targets| - 1];
      OthersTrims(init, name);
      assert targets == init + [last];
      TrimsSnoc(init, last);
      TrimsSnoc(Others(init, name), last);
    }
  }

  /** `others` stand in `targets` at the increasing positions `at`, which are all those whose target is not
      `name`. */
  ghost predicate PickedAt(at: seq<nat>, others: seq<string>, targets: seq<string>, name: string)
  {
    && |at| == |others|
    && (forall i, j :: 0 <= i < j < |at| ==> at[i] < at[j])
    && (forall i :: 0 <= i < |at| ==> at[i] < |targets| && others[i] == targets[at[i]])
    && (forall n: nat :: n < |targets| ==> (n in at <==> Trim(targets[n]) != Trim(name)))
  }

  lemma PickedNext(at: seq<nat>, others: seq<string>, init: seq<string>, last: string, name: string)
    requires PickedAt(at, others, init, name)
    ensures Trim(last) == Trim(name) ==> PickedAt(at, others, init + [last], name)
    ensures Trim(last) != Trim(name) ==> PickedAt(at + [|init|], others + [last], init + [last], name)
  {
    hide Trim;
    assert |init| !in at;
    var all := init + [last];
    assert all[|init|] == last && forall n :: 0 <= n < |init| ==> all[n] == init[n];
  }

  /** The other targets are picked off the configured list in order. */
  lemma {:induction false} OthersKeepOrder(targets: seq<string>, name: string) returns (at: seq<nat>)
    ensures PickedAt(at, Others(targets, name), targets, name)
  {
    at := [];
    if targets != [] {
      var init, last := targets[..|targets| - 1], targets[|targets| - 1];
      at := OthersKeepOrder(init, name);
      assert targets == init + [last];
      hide Trim, PickedAt;
      PickedNext(at, Others(init, name), init, last, name);
      at := if Trim(last) == Trim(name) then at else at + [|init|];
    }
  }

  lemma {:induction false} OthersAreDistinct(targets: seq<string>, name: string)
    requires Distinct(targets)
    ensures Distinct(Others(targets, name))
    ensures |Others(targets, name)| == |targets| - if Trim(name) in Trims(targets) then 1 else 0
  {
    hide Trim;
    if targets != [] {
      var init, last := targets[..|targets| - 1], targets[|targets| - 1];
      OthersAreDistinct(init, name);
      OthersTrims(init, name);
      assert targets == init + [last];
      assert Trim(last) !in Trims(init);
      forall t | t in Others(init, name) ensures Trim(t) != Trim(last) {
        assert Trim(t) in Trims(Others(init, name));
      }
    }
  }

  /** Trying the preferred target first loses no target, adds none and repeats none. */
  lemma {:induction false} ReorderingKeepsTargets(targets: seq<string>, preferred: string)
    requires Distinct(targets)
    ensures Distinct(Ordered(targets, preferred)) && |Ordered(targets, preferred)| == |targets|
    ensures Trims(Ordered(targets, preferred)) == Trims(targets)
    ensures Trim(preferred) in Trims(targets) ==> Ordered(targets, preferred)[0] == preferred
  {
    hide Trim;
    OrderedTrims(targets, preferred);
    OthersAreDistinct(targets, preferred);
    OthersTrims(targets, preferred);
    forall t | t in Others(targets, preferred) ensures Trim(t) != Trim(preferred) {
      assert Trim(t) in Trims(Others(targets, preferred));
    }
  }

  /** The same targets up to trimming, validated or not. */
  lemma OrderedTrims(targets: seq<string>, preferred: string)
    ensures Trims(Ordered(targets, preferred)) == Trims(targets)
  {
    hide Trim;
    OthersTrims(targets, preferred);
    if Trim(preferred) in Trims(targets) {
      var others := Others(targets, preferred);
      assert Trims([preferred] + others) == {Trim(preferred)} + Trims(others) by {
        assert preferred in [preferred] + others;
      }
    }
  }

  /** A validated model offers as many different targets as it lists, and at least one, under a strategy the
      router knows. */
  lemma {:induction false} ValidatedModelOffersTargets(r: Routing, id: string)
    requires WellFormed(r, KNOWN_PREFIXES) && id in r.virtualModels
    ensures var vm := r.virtualModels[id];
      && |Trims(vm.targets)| == |vm.targets| >= 1 && "" !in Trims(vm.targets)
      && (vm.strategy == "priority" || vm.strategy == "quota_priority") && Trim(id) != "" && id !in r.modelMap
  {
    hide Trim;
    assert ModelFits(r, id, KNOWN_PREFIXES);
    DistinctTrims(r.virtualModels[id].targets);
  }

  lemma {:induction false} DistinctTrims(targets: seq<string>)
    requires Distinct(targets)
    ensures |Trims(targets)| == |targets|
  {
    hide Trim;
    if targets != [] {
      var init, last := targets[..|targets| - 1], targets[|targets| - 1];
      DistinctTrims(init);
      assert targets == init + [last];
      TrimsSnoc(init, last);
      assert Trim(last) !in Trims(init);
    }
  }
}
