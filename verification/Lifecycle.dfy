/**
 * How the provider manager's mutations are runs of the drain protocol: what Reconcile, Replace and
 * Remove hand over is reached by a sequence of the protocol's atomic steps.
 */
module Lifecycle {
  import opened Common
  import opened RuntimeSnapshot
  import opened DrainProtocol
  import opened DrainProofs
  import P = ProviderManager

  lemma {:induction false} ExecAppend(st: State, a: seq<Step>, b: seq<Step>)
    ensures Exec(st, a + b) == Exec(Exec(st, a), b)
  {
    hide Next;
    if b == [] {
      assert a + b == a;
    } else {
      ExecAppend(st, a, b[..|b| - 1]);
      assert (a + b)[..|a + b| - 1] == a + b[..|b| - 1];
    }
  }

  lemma ExecOne(st: State, step: Step)
    ensures Exec(st, [step]) == Next(st, step)
  {
    hide Next;
    assert [step][..0] == [];
  }

  /** `st` with a mutation that has got to `m`, having built `made` on the way. */
  function WithBuilding(st: State, next: map<nat, nat>, made: set<nat>, returned: set<nat>, built: set<nat>): State
  {
    st.(mutation := Building(next, made, returned), built := built)
  }

  /** The providers of `next` that are not in `sofar` can be kept or are new. */
  ghost predicate Buildable(st: State, sofar: map<nat, nat>, next: map<nat, nat>, built: set<nat>)
  {
    && Injective(next) && sofar.Keys <= next.Keys && (forall id :: id in sofar ==> sofar[id] == next[id])
    && forall id :: id in next && id !in sofar ==> (id in st.effective && st.effective[id] == next[id]) || next[id] !in built
  }

  lemma KeepMoves(st: State, sofar: map<nat, nat>, id: nat, made: set<nat>, returned: set<nat>, built: set<nat>)
    requires id in st.effective && id !in sofar
    ensures Next(WithBuilding(st, sofar, made, returned, built), Keep(id)) ==
              WithBuilding(st, sofar[id := st.effective[id]], made, returned, built)
  {
  }

  lemma BuildMoves(st: State, sofar: map<nat, nat>, id: nat, i: nat, made: set<nat>, returned: set<nat>, built: set<nat>)
    requires i !in built && id !in sofar
    ensures Next(WithBuilding(st, sofar, made, returned, built), Build(id, i)) ==
              WithBuilding(st, sofar[id := i], made + {i}, returned + {i}, built + {i})
  {
  }

  lemma BuildableStep(st: State, sofar: map<nat, nat>, next: map<nat, nat>, built: set<nat>, id: nat)
    requires Buildable(st, sofar, next, built) && id in next && id !in sofar
    ensures Buildable(st, sofar[id := next[id]], next, built)
    ensures Buildable(st, sofar[id := next[id]], next, built + {next[id]})
    ensures (id in st.effective && st.effective[id] == next[id]) || next[id] !in built
  {
  }

  lemma NothingLeft(st: State, sofar: map<nat, nat>, next: map<nat, nat>, built: set<nat>)
    requires Buildable(st, sofar, next, built) && next.Keys == sofar.Keys
    ensures sofar == next
  {
  }

  lemma OneLeft(st: State, sofar: map<nat, nat>, next: map<nat, nat>, built: set<nat>) returns (id: nat)
    requires Buildable(st, sofar, next, built) && next.Keys != sofar.Keys
    ensures id in next && id !in sofar
    ensures |next.Keys - sofar[id := next[id]].Keys| < |next.Keys - sofar.Keys|
  {
    id :| id in next && id !in sofar;
    assert next.Keys - sofar[id := next[id]].Keys == (next.Keys - sofar.Keys) - {id};
  }

  /** The build loop: one Keep or Build for each provider of `next`. */
  lemma {:induction false} BuildsUp(st: State, sofar: map<nat, nat>, next: map<nat, nat>,
                                    made: set<nat>, returned: set<nat>, built: set<nat>)
      returns (steps: seq<Step>, made': set<nat>, returned': set<nat>, built': set<nat>)
    requires Buildable(st, sofar, next, built)
    ensures Exec(WithBuilding(st, sofar, made, returned, built), steps) == WithBuilding(st, next, made', returned', built')
    decreases |next.Keys - sofar.Keys|
  {
    hide Next, WithBuilding, Buildable;
    if next.Keys == sofar.Keys {
      NothingLeft(st, sofar, next, built);
      return [], made, returned, built;
    }
    var id := OneLeft(st, sofar, next, built);
    var i, grown := next[id], sofar[id := next[id]];
    BuildableStep(st, sofar, next, built, id);
    hide Exec;
    var step, rest;
    if id in st.effective && st.effective[id] == i {
      step := Keep(id);
      KeepMoves(st, sofar, id, made, returned, built);
      rest, made', returned', built' := BuildsUp(st, grown, next, made, returned, built);
    } else {
      step := Build(id, i);
      BuildMoves(st, sofar, id, i, made, returned, built);
      rest, made', returned', built' := BuildsUp(st, grown, next, made + {i}, returned + {i}, built + {i});
    }
    ExecOne(WithBuilding(st, sofar, made, returned, built), step);
    ExecAppend(WithBuilding(st, sofar, made, returned, built), [step], rest);
    steps := [step] + rest;
  }

  /** Where a publication of `next` ends, from a state in which it has just been built. */
  ghost predicate PublishedFrom(st: State, next: map<nat, nat>, end: State)
  {
    && end.effective == next && end.mutation.Idle? && end.lock.Free?
    && |end.snaps| == |st.snaps| + 1 && end.snaps[|st.snaps|] == NewSnap(|st.snaps| + 1, next.Values)
    && end.current == Some(|st.snaps|)
    && end.drains == (if Dropped(st.effective, next) == {} then st.drains
                      else st.drains + [Drain(st.live, Dropped(st.effective, next), false)])
  }

  /** Swap the pointer, retire the old snapshot, return what is live, commit. */
  lemma PublicationMoves(st: State, next: map<nat, nat>, made: set<nat>, returned: set<nat>, built: set<nat>)
    requires Inv(st) && st.lock.Free? && st.current.Some?
    ensures var s0 := WithBuilding(st, next, made, returned, built);
            PublishedFrom(st, next, Next(Next(Next(Next(s0, PublishSwap), PublishRetire), PublishReturn(st.live)), Commit))
  {
    var s0 := WithBuilding(st, next, made, returned, built);
    SwapMoves(st, next, made, returned, built);
    var s1 := Next(s0, PublishSwap);
    hide Inv, WithBuilding;
    RetireMoves(s1);
    var s2 := Next(s1, PublishRetire);
    ReturnMoves(s2);
  }

  lemma SwapMoves(st: State, next: map<nat, nat>, made: set<nat>, returned: set<nat>, built: set<nat>)
    requires Inv(st) && st.lock.Free? && st.current.Some?
    ensures var s1 := Next(WithBuilding(st, next, made, returned, built), PublishSwap);
            && s1.lock == Swapped(st.live, st.current.value) && st.current.value < |st.snaps|
            && s1.mutation == Publishing(next, Dropped(st.effective, next))
            && s1.snaps == st.snaps + [NewSnap(|st.snaps| + 1, next.Values)]
            && s1.current == Some(|st.snaps|) && s1.drains == st.drains
  {
    assert !st.closed && st.current.value < |st.snaps|;
    hide Inv;
  }

  lemma RetireMoves(s1: State)
    requires s1.lock.Swapped? && s1.lock.outgoing < |s1.snaps|
    ensures var s2 := Next(s1, PublishRetire);
            && s2.lock == OldRetired(s1.lock.prior) && s2.mutation == s1.mutation && s2.current == s1.current
            && s2.snaps == s1.snaps[s1.lock.outgoing := Retired(s1.snaps[s1.lock.outgoing])] && s2.drains == s1.drains
  {
  }

  lemma ReturnMoves(s2: State)
    requires s2.lock.OldRetired? && s2.mutation.Publishing?
    ensures var end := Next(Next(s2, PublishReturn(s2.lock.prior)), Commit);
            && end.effective == s2.mutation.next && end.mutation.Idle? && end.lock.Free?
            && end.snaps == s2.snaps && end.current == s2.current
            && end.drains == (if s2.mutation.retired == {} then s2.drains
                              else s2.drains + [Drain(s2.lock.prior, s2.mutation.retired, false)])
  {
    var s3 := Next(s2, PublishReturn(s2.lock.prior));
    assert s3.mutation == Committing(s2.mutation.next, s2.mutation.retired, s2.lock.prior);
  }

  lemma Publishes(st: State, next: map<nat, nat>, made: set<nat>, returned: set<nat>, built: set<nat>)
      returns (steps: seq<Step>)
    requires Inv(st) && st.lock.Free? && st.current.Some?
    ensures PublishedFrom(st, next, Exec(WithBuilding(st, next, made, returned, built), steps))
  {
    hide Inv, Next, WithBuilding, PublishedFrom, Exec;
    var s0 := WithBuilding(st, next, made, returned, built);
    PublicationMoves(st, next, made, returned, built);
    var a, b, c, d := PublishSwap, PublishRetire, PublishReturn(st.live), Commit;
    steps := [a] + [b] + [c] + [d];
    ExecOne(s0, a);
    ExecAppend(s0, [a], [b]);
    ExecOne(Next(s0, a), b);
    ExecAppend(s0, [a] + [b], [c]);
    ExecOne(Next(Next(s0, a), b), c);
    ExecAppend(s0, [a] + [b] + [c], [d]);
    ExecOne(Next(Next(Next(s0, a), b), c), d);
  }

  /** What a lifecycle mutation hands over is a run of the protocol: from any reachable state with no
      mutation in progress, atomic steps lead to one in which the new set is effective, exactly the
      published instances are in the new snapshot, and exactly the retired ones are waiting to be
      closed behind every snapshot that was live. */
  lemma {:induction false} HandoverIsARun(given: set<nat>, before: seq<Step>, next: map<nat, nat>, returned: seq<nat>, retired: seq<nat>, published: seq<nat>)
      returns (steps: seq<Step>)
    requires var st := Exec(Init(given), before);
             && st.mutation.Idle? && st.lock.Free? && !st.closed && Injective(next)
             && P.Handover(st.effective, next, returned, retired, published)
             && (forall i :: i in returned ==> i !in st.built)
    ensures var st, end := Exec(Init(given), before), Exec(Init(given), before + steps);
            && end.effective == next && end.mutation.Idle? && end.lock.Free? && end.current == Some(|st.snaps|)
            && |end.snaps| == |st.snaps| + 1
            && (forall i :: i in published <==> i in end.snaps[|st.snaps|].members)
            && (retired == [] ==> end.drains == st.drains)
            && (retired != [] ==>
                  && |end.drains| == |st.drains| + 1 && end.drains[|st.drains|].waiting == st.live
                  && forall i :: i in retired <==> i in end.drains[|st.drains|].toClose)
  {
    var st := Exec(Init(given), before);
    InitOk(given);
    RunsKeepInv(Init(given), before);
    ExecAppend(Init(given), before, [BeginMutation]);
    ExecOne(st, BeginMutation);
    var begun := WithBuilding(st, map[], {}, {}, st.built);
    assert Next(st, BeginMutation) == begun;
    var building, made, back, built := BuildsUp(st, map[], next, {}, {}, st.built);
    var publishing := Publishes(st, next, made, back, built);
    hide Inv, Next;
    ExecAppend(begun, building, publishing);
    ExecAppend(st, [BeginMutation], building + publishing);
    steps := [BeginMutation] + (building + publishing);
    ExecAppend(Init(given), before, steps);
    assert retired == [] <==> Dropped(st.effective, next) == {} by {
      if retired != [] {
        assert retired[0] in retired;
      }
    }
  }
}
