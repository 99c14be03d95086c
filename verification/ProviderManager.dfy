/**
 * The provider manager's lifecycle mutations (internal/provider/manager.go), each run to the
 * point where it releases the `mutations` mutex. What happens to the retired instances
 * afterwards is the drain protocol's business; the contracts below hand it exactly the
 * replacement (`Derived`, `Dropped`) its publication step expects.
 */
module ProviderManager {
  import opened Common
  import DrainProtocol

  type ID = nat
  type Instance = nat

  /** A digest or a caller's own fingerprint; neither is ever empty. */
  type Fingerprint = s: string | s != "" witness "0"

  /** One requested provider. `fingerprint` is None when the configuration cannot be encoded. */
  datatype Spec = Spec(id: ID, enabled: bool, fingerprint: Option<Fingerprint>, accountsValid: bool)

  datatype DesiredRecord = DesiredRecord(enabled: bool, fingerprint: string)

  datatype EffectiveRecord = EffectiveRecord(instance: Instance, generation: nat)

  /** What a factory does when asked to build. A rejected instance was constructed, failed
      validation, and was closed on the spot. */
  datatype BuildOutcome = Built(instance: Instance) | Rejected(instance: Instance) | Failed

  /** What a mutation reports. `Published` carries the instances to drain. */
  datatype Outcome =
    | Refused
    | BuildFailed
    | PublishFailed
    | Unchanged
    | Published(generation: nat, retired: seq<Instance>)

  function Stored(fingerprint: Option<Fingerprint>): string
  {
    if fingerprint.Some? then fingerprint.value else ""
  }

  function Instances(effective: map<ID, EffectiveRecord>): map<ID, Instance>
  {
    map id | id in effective :: effective[id].instance
  }

  /** Requested IDs are registered, pairwise different, and carry valid accounts. */
  predicate Acceptable(specs: seq<Spec>, factories: set<ID>)
  {
    && (forall n :: 0 <= n < |specs| ==> specs[n].accountsValid && specs[n].id in factories)
    && (forall m, n :: 0 <= m < n < |specs| ==> specs[m].id != specs[n].id)
  }

  /** The prior instance is kept: it was enabled and effective with an equal fingerprint. */
  predicate Reusable(id: ID, spec: Spec, desired: map<ID, DesiredRecord>, effective: map<ID, EffectiveRecord>)
  {
    && spec.fingerprint.Some?
    && id in desired && desired[id].enabled && desired[id].fingerprint == spec.fingerprint.value
    && id in effective
  }

  /** A provider that Reconcile has to build. */
  predicate NeedsBuild(id: ID, requested: map<ID, Spec>, desired: map<ID, DesiredRecord>, effective: map<ID, EffectiveRecord>)
  {
    id in requested && requested[id].enabled && !Reusable(id, requested[id], desired, effective)
  }

  /** A provider whose effective record the request changes. */
  predicate Differs(id: ID, requested: map<ID, Spec>, desired: map<ID, DesiredRecord>, effective: map<ID, EffectiveRecord>)
  {
    NeedsBuild(id, requested, desired, effective) || (id in effective && !(id in requested && requested[id].enabled))
  }

  /** The instances the factories return when the providers in `order` are built in turn. */
  function Returned(order: seq<ID>, requested: map<ID, Spec>, build: ID -> BuildOutcome,
                    desired: map<ID, DesiredRecord>, effective: map<ID, EffectiveRecord>): seq<Instance>
  {
    if order == [] then []
    else
      var init, last := order[..|order| - 1], order[|order| - 1];
      Returned(init, requested, build, desired, effective) +
      if NeedsBuild(last, requested, desired, effective) && !build(last).Failed? then [build(last).instance] else []
  }

  /** The first build that does not succeed is that of `order[n]`. */
  ghost predicate StopsAt(order: seq<ID>, n: nat, requested: map<ID, Spec>, build: ID -> BuildOutcome,
                          desired: map<ID, DesiredRecord>, effective: map<ID, EffectiveRecord>)
  {
    && n < |order| && NeedsBuild(order[n], requested, desired, effective) && !build(order[n]).Built?
    && forall m :: 0 <= m < n && NeedsBuild(order[m], requested, desired, effective) ==> build(order[m]).Built?
  }

  /** The instances of `records` in registration order. */
  function InOrder(order: seq<ID>, records: map<ID, EffectiveRecord>): seq<Instance>
  {
    if order == [] then []
    else
      var id := order[|order| - 1];
      InOrder(order[..|order| - 1], records) + if id in records then [records[id].instance] else []
  }

  /** Each of the records under `ids` is listed once. */
  lemma {:induction false} InOrderCounts(order: seq<ID>, records: map<ID, EffectiveRecord>, ids: set<ID>)
    requires forall m, n :: 0 <= m < n < |order| ==> order[m] != order[n]
    requires forall id :: id in ids <==> id in records && id in order
    ensures |InOrder(order, records)| == |ids|
  {
    if order != [] {
      var init, last := order[..|order| - 1], order[|order| - 1];
      assert order == init + [last];
      InOrderCounts(init, records, ids - {last});
    } else {
      assert ids == {};
    }
  }

  /** `i` is the instance of a record whose provider is in `order`. */
  ghost predicate Listed(order: seq<ID>, records: map<ID, EffectiveRecord>, i: Instance)
  {
    exists id :: id in order && id in records && records[id].instance == i
  }

  lemma {:induction false} InOrderLists(order: seq<ID>, records: map<ID, EffectiveRecord>, i: Instance)
    ensures i in InOrder(order, records) <==> Listed(order, records, i)
  {
    if order != [] {
      var init, last := order[..|order| - 1], order[|order| - 1];
      InOrderLists(init, records, i);
      assert order == init + [last];
      if Listed(init, records, i) {
        var id :| id in init && id in records && records[id].instance == i;
        assert id in order;
      }
      if last in records && records[last].instance == i {
        assert last in order;
      }
    }
  }

  /** Some provider of `order` has a record that the request changes. */
  predicate SomeDiffers(order: seq<ID>, requested: map<ID, Spec>, desired: map<ID, DesiredRecord>, effective: map<ID, EffectiveRecord>)
  {
    exists n :: 0 <= n < |order| && Differs(order[n], requested, desired, effective)
  }

  lemma SomeDiffersSnoc(order: seq<ID>, n: nat, requested: map<ID, Spec>, desired: map<ID, DesiredRecord>, effective: map<ID, EffectiveRecord>)
    requires n < |order|
    ensures SomeDiffers(order[..n + 1], requested, desired, effective) <==>
              SomeDiffers(order[..n], requested, desired, effective) || Differs(order[n], requested, desired, effective)
  {
    hide Differs;
    var more := order[..n + 1];
    assert more[n] == order[n];
    if SomeDiffers(order[..n], requested, desired, effective) {
      var m :| 0 <= m < n && Differs(order[..n][m], requested, desired, effective);
      assert more[m] == order[..n][m];
    }
  }

  /** Factories return instances that never existed before, one per ID. */
  ghost predicate FreshBuilder(build: ID -> BuildOutcome, known: set<Instance>)
  {
    && (forall id :: !build(id).Failed? ==> build(id).instance !in known)
    && (forall a, b :: !build(a).Failed? && !build(b).Failed? && build(a).instance == build(b).instance ==> a == b)
  }

  class Manager {
    var factoryOrder: seq<ID>
    var desired: map<ID, DesiredRecord>
    var effective: map<ID, EffectiveRecord>

    ghost predicate Valid()
      reads this
    {
      && (forall m, n :: 0 <= m < n < |factoryOrder| ==> factoryOrder[m] != factoryOrder[n])
      && (forall id :: id in effective ==> id in factoryOrder)
      && DrainProtocol.Injective(Instances(effective))
    }

    /** providersFromEffective: the instances in registration order, each exactly once. */
    method ProvidersInOrder(records: map<ID, EffectiveRecord>) returns (providers: seq<Instance>)
      requires Valid() && forall id :: id in records ==> id in factoryOrder
      ensures providers == InOrder(factoryOrder, records) && |providers| == |records|
      ensures forall i :: i in providers <==> i in Instances(records).Values
    {
      providers := [];
      for n := 0 to |factoryOrder|
        invariant providers == InOrder(factoryOrder[..n], records)
      {
        var id := factoryOrder[n];
        assert factoryOrder[..n + 1][..n] == factoryOrder[..n];
        if id in records {
          providers := providers + [records[id].instance];
        }
      }
      assert factoryOrder[..|factoryOrder|] == factoryOrder;
      InOrderCounts(factoryOrder, records, records.Keys);
      InstanceValues(records);
      forall i ensures i in providers <==> i in Instances(records).Values {
        InOrderLists(factoryOrder, records, i);
      }
    }

    /** The request check at the head of Reconcile. */
    method Index(specs: seq<Spec>) returns (ok: bool, requested: map<ID, Spec>)
      ensures ok <==> Acceptable(specs, set id | id in factoryOrder)
      ensures ok ==> requested == Requested(specs) && forall id :: id in requested ==> id in factoryOrder
    {
      requested := map[];
      for n := 0 to |specs|
        invariant Acceptable(specs[..n], set id | id in factoryOrder)
        invariant requested == Requested(specs[..n])
        invariant requested.Keys == set m | 0 <= m < n :: specs[m].id
      {
        assert specs[..n + 1][..n] == specs[..n];
        if specs[n].id in requested || !specs[n].accountsValid || specs[n].id !in factoryOrder {
          return false, requested;
        }
        requested := requested[specs[n].id := specs[n]];
      }
      assert specs[..|specs|] == specs;
      ok := true;
    }

    /** The build loop of Reconcile: reuse or build every enabled provider, in registration
        order, and stop at the first build that fails. */
    method Plan(requested: map<ID, Spec>, build: ID -> BuildOutcome)
        returns (ok: bool, next: map<ID, EffectiveRecord>, reused: set<ID>, returned: seq<Instance>, changed: bool)
      requires Valid()
      ensures ok ==> Planned(next, reused, returned, requested, factoryOrder, build, desired, effective)
      ensures ok ==> forall id :: id in next ==> id in factoryOrder
      ensures ok && !changed ==> returned == [] && next == effective
      ensures ok ==> forall n: nat :: !StopsAt(factoryOrder, n, requested, build, desired, effective)
      ensures ok ==> returned == Returned(factoryOrder, requested, build, desired, effective)
      ensures !ok ==> exists n: nat ::
                StopsAt(factoryOrder, n, requested, build, desired, effective) &&
                returned == Returned(factoryOrder[..n + 1], requested, build, desired, effective)
      ensures ok ==> (changed <==> SomeDiffers(factoryOrder, requested, desired, effective))
    {
      hide SomeDiffers, Planned;
      next, reused, returned, changed := map[], {}, [], false;
      assert Planned(next, reused, returned, requested, [], build, desired, effective) by {
        NothingPlanned(requested, build, desired, effective);
      }
      NothingDiffers(requested, desired, effective);
      for n := 0 to |factoryOrder|
        invariant Planned(next, reused, returned, requested, factoryOrder[..n], build, desired, effective)
        invariant !changed ==> returned == [] && next.Keys == reused
        invariant !changed ==> forall id :: id in effective && id in factoryOrder[..n] ==> id in next
        invariant returned == Returned(factoryOrder[..n], requested, build, desired, effective)
        invariant forall m :: 0 <= m < n && NeedsBuild(factoryOrder[m], requested, desired, effective) ==> build(factoryOrder[m]).Built?
        invariant changed <==> SomeDiffers(factoryOrder[..n], requested, desired, effective)
      {
        var id := factoryOrder[n];
        assert factoryOrder[..n + 1] == factoryOrder[..n] + [id];
        assert factoryOrder[..n + 1][..n] == factoryOrder[..n];
        SomeDiffersSnoc(factoryOrder, n, requested, desired, effective);
        PlannedSnoc(next, reused, returned, requested, factoryOrder[..n], id, build, desired, effective);
        if id !in requested || !requested[id].enabled {
          changed := changed || id in effective;
        } else if Reusable(id, requested[id], desired, effective) {
          next := next[id := effective[id]];
          reused := reused + {id};
        } else {
          var outcome := build(id);
          if !outcome.Built? {
            returned := if outcome.Rejected? then returned + [outcome.instance] else returned;
            assert StopsAt(factoryOrder, n, requested, build, desired, effective);
            return false, map[], {}, returned, changed;
          }
          changed := true;
          returned := returned + [outcome.instance];
          next := next[id := EffectiveRecord(outcome.instance, 0)];
        }
      }
      assert factoryOrder[..|factoryOrder|] == factoryOrder;
      NothingStops(next, reused, returned, requested, factoryOrder, build, desired, effective);
      ok := true;
    }

    /** Reconcile up to the release of the mutations mutex. `publish` is the publisher's answer;
        `returned` lists the instances the factories returned, `closed` those closed here. */
    method Reconcile(specs: seq<Spec>, build: ID -> BuildOutcome, publish: Option<nat>)
        returns (out: Outcome, returned: seq<Instance>, closed: seq<Instance>, published: seq<Instance>)
      requires Valid() && FreshBuilder(build, Instances(effective).Values)
      modifies this`desired, this`effective
      ensures Valid()
      // a failure, at a build or at the publication, leaves no trace but closed instances
      ensures out.Refused? || out.BuildFailed? || out.PublishFailed? ==>
                effective == old(effective) && desired == old(desired) && closed == returned
      ensures out.Refused? ==> returned == []
      ensures out.Refused? <==> !Acceptable(specs, set id | id in factoryOrder)
      // it stops at the first build that does not succeed, having closed what the factories returned
      ensures out.BuildFailed? ==> exists n: nat ::
                StopsAt(factoryOrder, n, Requested(specs), build, old(desired), old(effective)) &&
                returned == Returned(factoryOrder[..n + 1], Requested(specs), build, old(desired), old(effective))
      ensures out.PublishFailed? || out.Published? ==>
                returned == Returned(factoryOrder, Requested(specs), build, old(desired), old(effective))
      ensures out.PublishFailed? ==> publish.None?
      // a success makes exactly the enabled providers effective, reusing what did not change
      ensures out.Unchanged? || out.Published? ==> closed == [] && desired == NextDesired(specs)
      ensures out.Unchanged? ==> effective == old(effective) && returned == []
      // nothing is published only when nothing differs
      ensures out.Unchanged? ==> !SomeDiffers(factoryOrder, Requested(specs), old(desired), old(effective))
      ensures out.PublishFailed? || out.Published? ==>
                SomeDiffers(factoryOrder, Requested(specs), old(desired), old(effective))
      ensures out.Published? ==>
                publish == Some(out.generation) &&
                Reconciled(old(effective), old(desired), effective, Requested(specs), build, returned, out.generation)
      // what the drain protocol receives
      ensures out.Published? ==>
                Handover(Instances(old(effective)), Instances(effective), returned, out.retired, published)
    {
      hide SomeDiffers, Planned, Returned, StopsAt, Reconciled, Acceptable;
      hide DrainProtocol.Derived, DrainProtocol.Dropped, DrainProtocol.Injective, InOrder, NextDesired, Instances, FreshBuilder;
      var ok, requested := Index(specs);
      if !ok {
        return Refused, [], [], [];
      }
      var next, reused, changed;
      ok, next, reused, returned, changed := Plan(requested, build);
      if !ok {
        return BuildFailed, returned, returned, [];
      }
      if !changed {
        desired := NextDesired(specs);
        return Unchanged, [], [], [];
      }
      published := ProvidersInOrder(next);
      if publish.None? {
        return PublishFailed, returned, returned, [];
      }
      PlanReplaces(effective, next, reused, returned, requested, factoryOrder, build, desired);
      PlanReconciles(effective, next, reused, returned, requested, factoryOrder, build, desired, publish.value);
      var retired := Adopt(next, reused, publish.value);
      desired := NextDesired(specs);
      return Published(publish.value, retired), returned, [], published;
    }

    /** Make the published set effective and list what it leaves behind. */
    method Adopt(next: map<ID, EffectiveRecord>, reused: set<ID>, generation: nat) returns (retired: seq<Instance>)
      requires Valid() && DrainProtocol.Injective(Instances(next)) && forall id :: id in next ==> id in factoryOrder
      modifies this`effective
      ensures Valid() && effective == Renumbered(next, generation)
      ensures forall i :: i in retired <==>
                i in Instances(map id | id in old(effective) && id !in reused :: old(effective)[id]).Values
    {
      var leaving := map id | id in effective && id !in reused :: effective[id];
      retired := ProvidersInOrder(leaving);
      effective := Renumbered(next, generation);
    }

    /** Replace one provider, keeping the others, up to the release of the mutations mutex. */
    method Replace(id: ID, outcome: BuildOutcome, fingerprint: Option<Fingerprint>, publish: Option<nat>)
        returns (out: Outcome, returned: seq<Instance>, closed: seq<Instance>, published: seq<Instance>)
      requires Valid() && (outcome.Failed? || outcome.instance !in Instances(effective).Values)
      modifies this`desired, this`effective
      ensures Valid() && !out.Unchanged?
      ensures !out.Published? ==> effective == old(effective) && desired == old(desired) && closed == returned
      ensures out.Refused? <==> id !in factoryOrder
      ensures out.BuildFailed? <==> id in factoryOrder && !outcome.Built?
      ensures out.Published? <==> id in factoryOrder && outcome.Built? && publish.Some?
      ensures returned == if id in factoryOrder && !outcome.Failed? then [outcome.instance] else []
      ensures out.Published? ==>
                && closed == [] && publish == Some(out.generation) && outcome.Built?
                && effective == Renumbered(old(effective)[id := EffectiveRecord(outcome.instance, 0)], out.generation)
                && desired == old(desired)[id := DesiredRecord(true, Stored(fingerprint))]
                && Handover(Instances(old(effective)), Instances(effective), returned, out.retired, published)
    {
      if id !in factoryOrder {
        return Refused, [], [], [];
      }
      if !outcome.Built? {
        returned := if outcome.Rejected? then [outcome.instance] else [];
        return BuildFailed, returned, returned, [];
      }
      var next := effective[id := EffectiveRecord(outcome.instance, 0)];
      ReplaceKeeps(effective, next, id, outcome.instance);
      published := ProvidersInOrder(next);
      if publish.None? {
        return PublishFailed, [outcome.instance], [outcome.instance], [];
      }
      var retired := if id in effective then [effective[id].instance] else [];
      effective := Renumbered(next, publish.value);
      desired := desired[id := DesiredRecord(true, Stored(fingerprint))];
      return Published(publish.value, retired), [outcome.instance], [], published;
    }

    /** prepareRemoveLocked: publish without `id`; an inactive provider is only marked disabled. */
    method Remove(id: ID, publish: Option<nat>) returns (out: Outcome, published: seq<Instance>)
      requires Valid()
      modifies this`desired, this`effective
      ensures Valid() && !out.BuildFailed?
      ensures out.Refused? || out.PublishFailed? ==> effective == old(effective) && desired == old(desired)
      ensures out.Refused? <==> id !in factoryOrder
      ensures out.Unchanged? <==> id in factoryOrder && id !in old(effective)
      ensures out.Unchanged? ==> effective == old(effective)
      ensures out.PublishFailed? <==> id in factoryOrder && id in old(effective) && publish.None?
      ensures out.Unchanged? || out.Published? ==>
                desired == old(desired)[id := DesiredRecord(false, if id in old(desired) then old(desired)[id].fingerprint else "")]
      ensures out.Published? ==>
                && publish == Some(out.generation)
                && effective == Renumbered(old(effective) - {id}, out.generation)
                && Handover(Instances(old(effective)), Instances(effective), [], out.retired, published)
    {
      if id !in factoryOrder {
        return Refused, [];
      }
      var disabled := DesiredRecord(false, if id in desired then desired[id].fingerprint else "");
      if id !in effective {
        desired := desired[id := disabled];
        return Unchanged, [];
      }
      var next := effective - {id};
      RemoveKeeps(effective, id);
      published := ProvidersInOrder(next);
      if publish.None? {
        return PublishFailed, [];
      }
      var retired := [effective[id].instance];
      effective := Renumbered(next, publish.value);
      desired := desired[id := disabled];
      return Published(publish.value, retired), published;
    }
  }

  lemma ReplaceKeeps(prev: map<ID, EffectiveRecord>, next: map<ID, EffectiveRecord>, id: ID, i: Instance)
    requires next == prev[id := EffectiveRecord(i, 0)] && i !in Instances(prev).Values
    requires DrainProtocol.Injective(Instances(prev))
    ensures DrainProtocol.Injective(Instances(next))
    ensures DrainProtocol.Derived(Instances(prev), Instances(next), {i})
    ensures DrainProtocol.Dropped(Instances(prev), Instances(next)) ==
            if id in prev then {prev[id].instance} else {}
  {
    var p := Instances(prev);
    forall a | a in p ensures p[a] in p.Values && p[a] != i {}
    assert Instances(next) == p[id := i];
    assert id in prev ==> p[id] == prev[id].instance;
  }

  lemma RemoveKeeps(prev: map<ID, EffectiveRecord>, id: ID)
    requires id in prev && DrainProtocol.Injective(Instances(prev))
    ensures DrainProtocol.Injective(Instances(prev - {id}))
    ensures DrainProtocol.Derived(Instances(prev), Instances(prev - {id}), {})
    ensures DrainProtocol.Dropped(Instances(prev), Instances(prev - {id})) == {prev[id].instance}
  {
    assert Instances(prev)[id] == prev[id].instance;
    assert Instances(prev - {id}) == Instances(prev) - {id};
  }

  /** The state of the build loop after the IDs in `order`. */
  ghost predicate Planned(next: map<ID, EffectiveRecord>, reused: set<ID>, returned: seq<Instance>,
                          requested: map<ID, Spec>, order: seq<ID>, build: ID -> BuildOutcome,
                          desired: map<ID, DesiredRecord>, effective: map<ID, EffectiveRecord>)
  {
    && (forall id :: id in next <==> id in order && id in requested && requested[id].enabled)
    && (forall id :: id in reused <==> id in next && Reusable(id, requested[id], desired, effective))
    && (forall id :: id in reused ==> next[id] == effective[id])
    && (forall id :: id in next && id !in reused ==>
          build(id) == Built(next[id].instance) && next[id].instance in returned)
    && (forall i :: i in returned ==> exists id :: id in next && id !in reused && next[id].instance == i)
  }

  lemma NothingPlanned(requested: map<ID, Spec>, build: ID -> BuildOutcome, desired: map<ID, DesiredRecord>, effective: map<ID, EffectiveRecord>)
    ensures Planned(map[], {}, [], requested, [], build, desired, effective)
  {
  }

  /** A completed plan met no failing build; if all of it is reused, it is what was effective. */
  lemma NothingStops(next: map<ID, EffectiveRecord>, reused: set<ID>, returned: seq<Instance>,
                     requested: map<ID, Spec>, order: seq<ID>, build: ID -> BuildOutcome,
                     desired: map<ID, DesiredRecord>, effective: map<ID, EffectiveRecord>)
    requires Planned(next, reused, returned, requested, order, build, desired, effective)
    ensures forall n: nat :: !StopsAt(order, n, requested, build, desired, effective)
    ensures next.Keys == reused && (forall id :: id in effective ==> id in next) ==> next == effective
    ensures forall id :: id in next ==> id in order
  {
    forall n: nat ensures !StopsAt(order, n, requested, build, desired, effective) {
      if n < |order| {
        assert order[n] in order;
      }
    }
  }

  lemma NothingDiffers(requested: map<ID, Spec>, desired: map<ID, DesiredRecord>, effective: map<ID, EffectiveRecord>)
    ensures !SomeDiffers([], requested, desired, effective)
  {
  }

  /** One more provider: skipped, reused or built. */
  lemma PlannedSnoc(next: map<ID, EffectiveRecord>, reused: set<ID>, returned: seq<Instance>,
                    requested: map<ID, Spec>, order: seq<ID>, id: ID, build: ID -> BuildOutcome,
                    desired: map<ID, DesiredRecord>, effective: map<ID, EffectiveRecord>)
    requires Planned(next, reused, returned, requested, order, build, desired, effective) && id !in order
    ensures !(id in requested && requested[id].enabled) ==>
              Planned(next, reused, returned, requested, order + [id], build, desired, effective)
    ensures id in requested && requested[id].enabled && Reusable(id, requested[id], desired, effective) ==>
              Planned(next[id := effective[id]], reused + {id}, returned, requested, order + [id], build, desired, effective)
    ensures NeedsBuild(id, requested, desired, effective) && build(id).Built? ==>
              Planned(next[id := EffectiveRecord(build(id).instance, 0)], reused, returned + [build(id).instance],
                      requested, order + [id], build, desired, effective)
  {
    if NeedsBuild(id, requested, desired, effective) && build(id).Built? {
      PlannedBuilt(next, reused, returned, requested, order, id, build, desired, effective);
    }
  }

  lemma PlannedBuilt(next: map<ID, EffectiveRecord>, reused: set<ID>, returned: seq<Instance>,
                     requested: map<ID, Spec>, order: seq<ID>, id: ID, build: ID -> BuildOutcome,
                     desired: map<ID, DesiredRecord>, effective: map<ID, EffectiveRecord>)
    requires Planned(next, reused, returned, requested, order, build, desired, effective) && id !in order
    requires NeedsBuild(id, requested, desired, effective) && build(id).Built?
    ensures Planned(next[id := EffectiveRecord(build(id).instance, 0)], reused, returned + [build(id).instance],
                    requested, order + [id], build, desired, effective)
  {
    var made := next[id := EffectiveRecord(build(id).instance, 0)];
    assert made[id].instance == build(id).instance;
    forall i | i in returned ensures exists a :: a in made && a !in reused && made[a].instance == i {
      var a :| a in next && a !in reused && next[a].instance == i;
      assert made[a] == next[a];
    }
  }

  /** What a successful Reconcile makes effective. */
  ghost predicate Reconciled(prev: map<ID, EffectiveRecord>, prevDesired: map<ID, DesiredRecord>,
                             next: map<ID, EffectiveRecord>, requested: map<ID, Spec>,
                             build: ID -> BuildOutcome, returned: seq<Instance>, generation: nat)
  {
    && (forall id :: id in next <==> id in requested && requested[id].enabled)
    && (forall id :: id in next ==> next[id].generation == generation)
    && (forall id :: id in next ==>
          if Reusable(id, requested[id], prevDesired, prev) then next[id].instance == prev[id].instance
          else build(id) == Built(next[id].instance) && next[id].instance in returned)
  }

  /** The replacement a publication hands to the drain protocol: `next` keeps instances under
      their own ID or takes returned ones, all of it is published, and the rest is retired. */
  ghost predicate Handover(prev: map<ID, Instance>, next: map<ID, Instance>, returned: seq<Instance>,
                           retired: seq<Instance>, published: seq<Instance>)
  {
    && DrainProtocol.Derived(prev, next, set i | i in returned)
    && (forall i :: i in retired <==> i in DrainProtocol.Dropped(prev, next))
    && (forall i :: i in published <==> i in next.Values)
  }

  function Renumbered(next: map<ID, EffectiveRecord>, generation: nat): (r: map<ID, EffectiveRecord>)
    ensures Instances(r) == Instances(next)
  {
    map id | id in next :: next[id].(generation := generation)
  }

  lemma PlanReconciles(effective: map<ID, EffectiveRecord>, next: map<ID, EffectiveRecord>, reused: set<ID>,
                       returned: seq<Instance>, requested: map<ID, Spec>, order: seq<ID>,
                       build: ID -> BuildOutcome, desired: map<ID, DesiredRecord>, generation: nat)
    requires Planned(next, reused, returned, requested, order, build, desired, effective)
    requires forall id :: id in requested ==> id in order
    ensures Reconciled(effective, desired, Renumbered(next, generation), requested, build, returned, generation)
  {
  }

  lemma {:induction false} PlanReplaces(effective: map<ID, EffectiveRecord>, next: map<ID, EffectiveRecord>, reused: set<ID>,
                     returned: seq<Instance>, requested: map<ID, Spec>, order: seq<ID>,
                     build: ID -> BuildOutcome, desired: map<ID, DesiredRecord>)
    requires Planned(next, reused, returned, requested, order, build, desired, effective)
    requires DrainProtocol.Injective(Instances(effective)) && FreshBuilder(build, Instances(effective).Values)
    ensures DrainProtocol.Injective(Instances(next))
    ensures DrainProtocol.Derived(Instances(effective), Instances(next), set i | i in returned)
    ensures Instances(map id | id in effective && id !in reused :: effective[id]).Values
         == DrainProtocol.Dropped(Instances(effective), Instances(next))
  {
    var leaving := map id | id in effective && id !in reused :: effective[id];
    InstanceValues(effective);
    InstanceValues(leaving);
    var prev := Instances(effective);
    forall id | id in effective
      ensures id in reused <==> id in next && Instances(next)[id] == prev[id]
    {
      assert prev[id] in prev.Values;
    }
    forall a, b | a in next && b in next && next[a].instance == next[b].instance ensures a == b {
      assert a in reused ==> prev[a] in prev.Values;
      assert b in reused ==> prev[b] in prev.Values;
    }
    forall i | i in Instances(leaving).Values ensures i in DrainProtocol.Dropped(prev, Instances(next)) {
      var id :| id in leaving && leaving[id].instance == i;
      assert id in prev && prev[id] == i;
    }
    forall i | i in DrainProtocol.Dropped(prev, Instances(next)) ensures i in Instances(leaving).Values {
      var id :| id in prev && !(id in next && Instances(next)[id] == prev[id]) && prev[id] == i;
      assert id in leaving;
    }
  }

  lemma InstanceValues(records: map<ID, EffectiveRecord>)
    ensures forall i :: i in Instances(records).Values <==> exists id :: id in records && records[id].instance == i
  {
    forall id | id in records ensures records[id].instance in Instances(records).Values {
      assert Instances(records)[id] == records[id].instance;
    }
  }

  /** The requested specs by ID. */
  function Requested(specs: seq<Spec>): (r: map<ID, Spec>)
  {
    if specs == [] then map[]
    else
      var last := specs[|specs| - 1];
      Requested(specs[..|specs| - 1])[last.id := last]
  }

  function NextDesired(specs: seq<Spec>): map<ID, DesiredRecord>
  {
    map id | id in Requested(specs) ::
      DesiredRecord(Requested(specs)[id].enabled, Stored(Requested(specs)[id].fingerprint))
  }

  // ---------------------------------------------------------------- two requests in a row

  predicate Succeeded(out: Outcome)
  {
    out.Unchanged? || out.Published?
  }

  lemma {:induction false} RequestedAt(specs: seq<Spec>, i: nat)
    requires i < |specs| && forall m, n :: 0 <= m < n < |specs| ==> specs[m].id != specs[n].id
    ensures specs[i].id in Requested(specs) && Requested(specs)[specs[i].id] == specs[i]
  {
    if i < |specs| - 1 {
      RequestedAt(specs[..|specs| - 1], i);
    }
  }

  lemma {:induction false} RequestedIs(specs: seq<Spec>, id: ID)
    requires id in Requested(specs)
    ensures exists i :: 0 <= i < |specs| && specs[i].id == id && Requested(specs)[id] == specs[i]
  {
    var n := |specs| - 1;
    if id == specs[n].id {
      assert Requested(specs)[id] == specs[n];
    } else {
      RequestedIs(specs[..n], id);
      var i :| 0 <= i < n && specs[..n][i].id == id && Requested(specs[..n])[id] == specs[..n][i];
      assert specs[i] == specs[..n][i];
    }
  }

  /** What a successful request leaves behind: exactly its enabled providers, each recorded. */
  ghost predicate Left(specs: seq<Spec>, desired: map<ID, DesiredRecord>, effective: map<ID, EffectiveRecord>)
  {
    && desired == NextDesired(specs)
    && forall id :: id in effective <==> id in Requested(specs) && Requested(specs)[id].enabled
  }

  lemma UnchangedLeaves(order: seq<ID>, specs: seq<Spec>, desired: map<ID, DesiredRecord>, effective: map<ID, EffectiveRecord>)
    requires !SomeDiffers(order, Requested(specs), desired, effective)
    requires (forall id :: id in effective ==> id in order) && forall id :: id in Requested(specs) ==> id in order
    ensures Left(specs, NextDesired(specs), effective)
  {
    forall id ensures id in effective <==> id in Requested(specs) && Requested(specs)[id].enabled {
      if id in order {
        var n :| 0 <= n < |order| && order[n] == id;
        assert !Differs(order[n], Requested(specs), desired, effective);
      }
    }
  }

  /** After request `a`, what request `b` may keep. */
  lemma KeptExactly(a: seq<Spec>, b: Spec, desired: map<ID, DesiredRecord>, effective: map<ID, EffectiveRecord>)
    requires Left(a, desired, effective) && b.enabled && b.id in Requested(a) && Requested(a)[b.id].enabled
    ensures Reusable(b.id, b, desired, effective) <==> b.fingerprint.Some? && b.fingerprint == Requested(a)[b.id].fingerprint
  {
  }

  lemma NoneDiffer(order: seq<ID>, specs: seq<Spec>, build: ID -> BuildOutcome,
                   desired: map<ID, DesiredRecord>, effective: map<ID, EffectiveRecord>)
    requires Left(specs, desired, effective)
    requires forall id :: id in Requested(specs) ==> Requested(specs)[id].id == id
    requires forall id :: id in Requested(specs) && Requested(specs)[id].enabled ==> Requested(specs)[id].fingerprint.Some?
    ensures !SomeDiffers(order, Requested(specs), desired, effective)
    ensures forall n: nat :: !StopsAt(order, n, Requested(specs), build, desired, effective)
  {
    forall id ensures !Differs(id, Requested(specs), desired, effective) {
      if id in Requested(specs) && Requested(specs)[id].enabled {
        KeptExactly(specs, Requested(specs)[id], desired, effective);
      }
    }
  }

  /** Two requests in a row, whatever came before. A provider enabled in both keeps its instance if and only
      if both requests carry a fingerprint for it and the two are equal; repeating a request that carries all
      its fingerprints changes nothing. */
  method TwoRequests(m: Manager, a: seq<Spec>, buildA: ID -> BuildOutcome, publishA: Option<nat>,
                     b: seq<Spec>, buildB: ID -> BuildOutcome, publishB: Option<nat>)
      returns (first: Outcome, mid: map<ID, EffectiveRecord>, second: Outcome)
    requires m.Valid() && FreshBuilder(buildA, Instances(m.effective).Values)
    requires FreshBuilder(buildB, Instances(m.effective).Values)
    requires forall x, y :: !buildA(x).Failed? && !buildB(y).Failed? ==> buildA(x).instance != buildB(y).instance
    modifies m`desired, m`effective
    ensures Succeeded(first) && Succeeded(second) ==>
              forall i, j :: 0 <= i < |a| && 0 <= j < |b| && a[i].id == b[j].id && a[i].enabled && b[j].enabled ==>
                && a[i].id in mid && a[i].id in m.effective
                && (m.effective[a[i].id].instance == mid[a[i].id].instance <==>
                      a[i].fingerprint.Some? && a[i].fingerprint == b[j].fingerprint)
    ensures Succeeded(first) && a == b && (forall i :: 0 <= i < |a| && a[i].enabled ==> a[i].fingerprint.Some?) ==>
              second.Unchanged? && m.effective == mid
  {
    hide SomeDiffers, StopsAt, Returned, Handover, NextDesired;
    ghost var was, before := m.desired, m.effective;
    var retA, closedA, publishedA;
    first, retA, closedA, publishedA := m.Reconcile(a, buildA, publishA);
    mid := m.effective;
    if !Succeeded(first) {
      return first, mid, first;
    }
    forall id | id in Requested(a) ensures id in m.factoryOrder && Requested(a)[id].id == id {
      RequestedIs(a, id);
    }
    if first.Unchanged? {
      UnchangedLeaves(m.factoryOrder, a, was, before);
    }
    ghost var desired := m.desired;
    assert Left(a, desired, mid);
    StillFresh(buildA, buildB, before, mid, was, a, retA, first);
    var retB, closedB, publishedB;
    second, retB, closedB, publishedB := m.Reconcile(b, buildB, publishB);
    if Succeeded(second) {
      forall i, j | 0 <= i < |a| && 0 <= j < |b| && a[i].id == b[j].id && a[i].enabled && b[j].enabled
        ensures && a[i].id in mid && a[i].id in m.effective
                && (m.effective[a[i].id].instance == mid[a[i].id].instance <==>
                      a[i].fingerprint.Some? && a[i].fingerprint == b[j].fingerprint) {
        RequestedAt(a, i);
        RequestedAt(b, j);
        KeptExactly(a, b[j], desired, mid);
        InstanceOf(m, b[j], second, desired, mid, b, buildB, retB);
      }
    }
    if a == b && forall i :: 0 <= i < |a| && a[i].enabled ==> a[i].fingerprint.Some? {
      forall id | id in Requested(a) && Requested(a)[id].enabled ensures Requested(a)[id].fingerprint.Some? {
        RequestedIs(a, id);
      }
      NoneDiffer(m.factoryOrder, a, buildB, desired, mid);
    }
  }

  /** What the first request left in place, the second one's factories have never returned. */
  lemma StillFresh(buildA: ID -> BuildOutcome, buildB: ID -> BuildOutcome, before: map<ID, EffectiveRecord>,
                   mid: map<ID, EffectiveRecord>, was: map<ID, DesiredRecord>, a: seq<Spec>, retA: seq<Instance>, first: Outcome)
    requires FreshBuilder(buildB, Instances(before).Values)
    requires forall x, y :: !buildA(x).Failed? && !buildB(y).Failed? ==> buildA(x).instance != buildB(y).instance
    requires first.Unchanged? ==> mid == before
    requires !first.Unchanged? ==> first.Published? && Reconciled(before, was, mid, Requested(a), buildA, retA, first.generation)
    ensures FreshBuilder(buildB, Instances(mid).Values)
  {
    InstanceValues(before);
    InstanceValues(mid);
    forall id | id in mid
      ensures mid[id].instance in Instances(before).Values || (!buildA(id).Failed? && buildA(id).instance == mid[id].instance) {
      if id in before {
        assert before[id].instance in Instances(before).Values;
      }
    }
  }

  /** The instance a successful request gives one of its enabled providers. */
  lemma InstanceOf(m: Manager, spec: Spec, out: Outcome, desired: map<ID, DesiredRecord>, mid: map<ID, EffectiveRecord>,
                   b: seq<Spec>, build: ID -> BuildOutcome, returned: seq<Instance>)
    requires m.Valid() && Succeeded(out) && spec.enabled && spec.id in mid && spec.id in m.factoryOrder
    requires spec.id in Requested(b) && Requested(b)[spec.id] == spec
    requires FreshBuilder(build, Instances(mid).Values)
    requires out.Unchanged? ==> m.effective == mid && !SomeDiffers(m.factoryOrder, Requested(b), desired, mid)
    requires out.Published? ==> Reconciled(mid, desired, m.effective, Requested(b), build, returned, out.generation)
    ensures spec.id in m.effective
    ensures m.effective[spec.id].instance == mid[spec.id].instance <==> Reusable(spec.id, spec, desired, mid)
  {
    InstanceValues(mid);
    assert mid[spec.id].instance in Instances(mid).Values;
    if out.Unchanged? {
      var n :| 0 <= n < |m.factoryOrder| && m.factoryOrder[n] == spec.id;
      assert !Differs(m.factoryOrder[n], Requested(b), desired, mid);
    }
  }

  /** A successful request is on record as it came, provider by provider. */
  lemma {:induction false} RequestIsRecorded(specs: seq<Spec>, i: nat)
    requires i < |specs| && forall m, n :: 0 <= m < n < |specs| ==> specs[m].id != specs[n].id
    ensures specs[i].id in NextDesired(specs)
    ensures NextDesired(specs)[specs[i].id].enabled == specs[i].enabled
    ensures specs[i].fingerprint.Some? ==> NextDesired(specs)[specs[i].id].fingerprint == specs[i].fingerprint.value
    ensures forall id :: id in NextDesired(specs) ==> exists j :: 0 <= j < |specs| && specs[j].id == id
  {
    RequestedAt(specs, i);
    forall id | id in NextDesired(specs) ensures exists j :: 0 <= j < |specs| && specs[j].id == id {
      RequestedIs(specs, id);
    }
  }

  /** The instances to close after a failed build: those of every factory asked so far that returned one,
      rejected or not, each as often as it was asked. */
  lemma {:induction false} ReturnedExactly(order: seq<ID>, requested: map<ID, Spec>, build: ID -> BuildOutcome,
                                           desired: map<ID, DesiredRecord>, effective: map<ID, EffectiveRecord>, i: Instance)
    ensures i in Returned(order, requested, build, desired, effective) <==>
      exists n :: 0 <= n < |order| && NeedsBuild(order[n], requested, desired, effective)
        && (build(order[n]) == Built(i) || build(order[n]) == Rejected(i))
  {
    hide NeedsBuild;
    if order != [] {
      var init, n := order[..|order| - 1], |order| - 1;
      ReturnedExactly(init, requested, build, desired, effective, i);
      assert forall m :: 0 <= m < n ==> init[m] == order[m];
      assert order[n] == order[|order| - 1];
      if i in Returned(init, requested, build, desired, effective) {
        var m :| 0 <= m < |init| && NeedsBuild(init[m], requested, desired, effective)
          && (build(init[m]) == Built(i) || build(init[m]) == Rejected(i));
        assert order[m] == init[m];
      }
    }
  }
}
