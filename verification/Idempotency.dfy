/**
 * The idempotency store of the control plane (internal/control/idempotency.go): one request per key
 * runs the operation, duplicates wait for its response, finished entries expire or are evicted.
 */
module Idempotency {
  import opened Common

  type Time = int
  type Response = string    // status, header and body together

  /** An entry, and the key it was created under. */
  datatype Cell = Cell(key: string, digest: string, created: Time, response: Option<Response>)

  /** The retained entries by key, and every entry ever created: a waiter keeps its entry. */
  datatype Table = Table(entries: map<string, nat>, cells: seq<Cell>)
  {
    ghost predicate Valid()
    {
      forall k :: k in entries ==> entries[k] < |cells| && cells[entries[k]].key == k
    }
  }

  datatype Answer = Own(id: nat) | Wait(id: nat) | Conflict(id: nat)

  predicate Finished(t: Table, k: string)
    requires k in t.entries && t.entries[k] < |t.cells|
  {
    t.cells[t.entries[k]].response.Some?
  }

  function Created(t: Table, k: string): Time
    requires k in t.entries && t.entries[k] < |t.cells|
  {
    t.cells[t.entries[k]].created
  }

  /** cleanupLocked: finished entries created before the threshold go. */
  function Cleaned(t: Table, threshold: Time): (r: Table)
    requires t.Valid()
    ensures r.Valid() && r.cells == t.cells && r.entries.Keys <= t.entries.Keys
    ensures forall k :: k in r.entries ==> r.entries[k] == t.entries[k]
    ensures forall k :: k in t.entries && !Finished(t, k) ==> k in r.entries
  {
    Table(map k | k in t.entries && !(Created(t, k) < threshold && Finished(t, k)) :: t.entries[k], t.cells)
  }

  /** What evictOldestLocked may remove: an oldest finished entry, or nothing if none is finished. */
  ghost predicate MayEvict(t: Table, victim: Option<string>)
    requires t.Valid()
  {
    match victim
    case None => forall k :: k in t.entries ==> !Finished(t, k)
    case Some(v) =>
      && v in t.entries && Finished(t, v)
      && forall k :: k in t.entries && Finished(t, k) ==> Created(t, v) <= Created(t, k)
  }

  function Evicted(t: Table, victim: Option<string>): Table
  {
    if victim.None? then t else Table(t.entries - {victim.value}, t.cells)
  }

  /** The table in which a new entry finds its place. */
  function Room(t: Table, max: nat, victim: Option<string>): Table
  {
    if |t.entries| >= max then Evicted(t, victim) else t
  }

  /** begin after its cleanup, given the entry it evicts if it has to. */
  function Placed(c: Table, max: nat, key: string, digest: string, stamp: Time, victim: Option<string>): (Table, Answer)
    requires c.Valid()
  {
    if key in c.entries then
      (c, if c.cells[c.entries[key]].digest != digest then Conflict(c.entries[key]) else Wait(c.entries[key]))
    else
      var room := Room(c, max, victim);
      var id := |c.cells|;
      (Table(room.entries[key := id], c.cells + [Cell(key, digest, stamp, None)]), Own(id))
  }

  function Begun(t: Table, max: nat, key: string, digest: string, threshold: Time, stamp: Time, victim: Option<string>): (Table, Answer)
    requires t.Valid()
  {
    Placed(Cleaned(t, threshold), max, key, digest, stamp, victim)
  }

  /** complete: only an entry that is still the retained one is filled in. */
  function Completed(t: Table, key: string, id: nat, response: Response): Table
  {
    if key in t.entries && t.entries[key] == id && id < |t.cells|
    then t.(cells := t.cells[id := t.cells[id].(response := Some(response))])
    else t
  }

  // ---------------------------------------------------------------- runs

  /** A request that has been through begin. */
  datatype Request =
    | Owner(key: string, digest: string, id: nat, reply: Option<Response>)
    | Waiter(key: string, digest: string, id: nat, reply: Option<Response>)
    | Refused(key: string, digest: string, id: nat)

  datatype World = World(table: Table, requests: seq<Request>, peak: nat)

  datatype Step =
    | Begin(key: string, digest: string, threshold: Time, stamp: Time, victim: Option<string>)
    | Complete(request: nat, response: Response)     // the owner's handler has returned
    | Wake(request: nat)                             // a waiter sees its entry ready

  function InFlight(t: Table): set<string>
    requires t.Valid()
  {
    set k | k in t.entries && !Finished(t, k)
  }

  ghost predicate Enabled(w: World, max: nat, step: Step)
    requires w.table.Valid()
  {
    match step
    case Begin(key, _, threshold, _, victim) => MayEvict(Cleaned(w.table, threshold), victim)
    case Complete(r, _) => r < |w.requests| && w.requests[r].Owner? && w.requests[r].reply.None?
    case Wake(r) =>
      && r < |w.requests| && w.requests[r].Waiter? && w.requests[r].reply.None?
      && w.requests[r].id < |w.table.cells| && w.table.cells[w.requests[r].id].response.Some?
  }

  ghost function Apply(w: World, max: nat, step: Step): World
    requires w.table.Valid() && Enabled(w, max, step)
  {
    match step
    case Begin(key, digest, threshold, stamp, victim) =>
      var (t, answer) := Begun(w.table, max, key, digest, threshold, stamp, victim);
      var request := match answer
        case Own(id) => Owner(key, digest, id, None)
        case Wait(id) => Waiter(key, digest, id, None)
        case Conflict(id) => Refused(key, digest, id);
      World(t, w.requests + [request], Max(w.peak, if t.Valid() then |InFlight(t)| else 0))
    case Complete(r, response) =>
      var q := w.requests[r];
      World(Completed(w.table, q.key, q.id, response), w.requests[r := Owner(q.key, q.digest, q.id, Some(response))], w.peak)
    case Wake(r) =>
      var q := w.requests[r];
      w.(requests := w.requests[r := Waiter(q.key, q.digest, q.id, w.table.cells[q.id].response)])
  }

  const EMPTY := World(Table(map[], []), [], 0)

  /** A step that cannot be taken leaves the world as it is. */
  ghost function Exec(max: nat, steps: seq<Step>): World
  {
    if steps == [] then EMPTY
    else
      var w, step := Exec(max, steps[..|steps| - 1]), steps[|steps| - 1];
      if w.table.Valid() && Enabled(w, max, step) then Apply(w, max, step) else w
  }

  // ---------------------------------------------------------------- invariant

  /** An entry that is not finished is retained, and a retained entry is the latest for its key. */
  ghost predicate Retained(t: Table)
  {
    && t.Valid()
    && (forall i :: 0 <= i < |t.cells| && t.cells[i].response.None? ==> t.cells[i].key in t.entries)
    && (forall i :: 0 <= i < |t.cells| && t.cells[i].key in t.entries ==>
          i <= t.entries[t.cells[i].key] && (i < t.entries[t.cells[i].key] ==> t.cells[i].response.Some?))
  }

  /** A request that was not refused goes by an entry for its key and payload; a refused one met an
      entry for its key and another payload. */
  ghost predicate Named(cells: seq<Cell>, q: Request)
  {
    && q.id < |cells| && cells[q.id].key == q.key
    && (cells[q.id].digest == q.digest <==> !q.Refused?)
  }

  /** An owner has replied exactly when its entry is filled, with the same response; a waiter that
      has replied has that response too. */
  ghost predicate Replied(cells: seq<Cell>, q: Request)
  {
    q.id < |cells| && !q.Refused? ==> (q.Owner? || q.reply.Some?) ==> q.reply == cells[q.id].response
  }

  ghost predicate Told(cells: seq<Cell>, requests: seq<Request>)
  {
    forall r :: 0 <= r < |requests| ==> Named(cells, requests[r]) && Replied(cells, requests[r])
  }

  ghost predicate Unique(requests: seq<Request>)
  {
    forall r, q :: 0 <= r < q < |requests| && requests[r].Owner? && requests[q].Owner? ==> requests[r].id != requests[q].id
  }

  ghost predicate HasOwner(requests: seq<Request>, i: nat)
  {
    exists r :: 0 <= r < |requests| && requests[r].Owner? && requests[r].id == i
  }

  ghost predicate Owned(cells: seq<Cell>, requests: seq<Request>)
  {
    && Unique(requests)
    && forall i: nat :: i < |cells| ==> HasOwner(requests, i)
  }

  ghost predicate Bounded(t: Table, max: nat, peak: nat)
  {
    t.Valid() && |t.entries| <= Max(max, peak) && |InFlight(t)| <= peak
  }

  ghost predicate Inv(w: World, max: nat)
  {
    && Retained(w.table) && Told(w.table.cells, w.requests) && Owned(w.table.cells, w.requests)
    && Bounded(w.table, max, w.peak)
  }

  // ---------------------------------------------------------------- steps keep the invariant

  lemma CleanedIsRetained(t: Table, threshold: Time)
    requires Retained(t)
    ensures Retained(Cleaned(t, threshold))
  {
    var c := Cleaned(t, threshold);
    forall i | 0 <= i < |c.cells| && c.cells[i].response.None? ensures c.cells[i].key in c.entries {
      assert t.cells[i].key in t.entries;
      assert t.entries[t.cells[i].key] == i;
    }
  }

  lemma EvictedIsRetained(t: Table, victim: Option<string>)
    requires Retained(t) && MayEvict(t, victim)
    ensures Retained(Evicted(t, victim))
  {
    var e := Evicted(t, victim);
    forall i | 0 <= i < |e.cells| && e.cells[i].response.None? ensures e.cells[i].key in e.entries {
      assert t.cells[i].key in t.entries && t.entries[t.cells[i].key] == i;
    }
  }

  lemma AddedIsRetained(t: Table, key: string, cell: Cell)
    requires Retained(t) && key !in t.entries && cell.key == key
    ensures Retained(Table(t.entries[key := |t.cells|], t.cells + [cell]))
  {
    var r := Table(t.entries[key := |t.cells|], t.cells + [cell]);
    forall i | 0 <= i < |r.cells| && r.cells[i].response.None? ensures r.cells[i].key in r.entries {
      if i < |t.cells| {
        assert t.cells[i].key in t.entries;
      }
    }
    forall i | 0 <= i < |r.cells| && r.cells[i].key in r.entries
      ensures i <= r.entries[r.cells[i].key] && (i < r.entries[r.cells[i].key] ==> r.cells[i].response.Some?) {
      if i < |t.cells| && r.cells[i].key == key {
        assert t.cells[i].key !in t.entries;
      }
    }
  }

  lemma BegunIsRetained(t: Table, max: nat, key: string, digest: string, threshold: Time, stamp: Time, victim: Option<string>)
    requires Retained(t) && MayEvict(Cleaned(t, threshold), victim)
    ensures Retained(Begun(t, max, key, digest, threshold, stamp, victim).0)
  {
    CleanedIsRetained(t, threshold);
    var c := Cleaned(t, threshold);
    EvictedIsRetained(c, victim);
    hide Retained;
    if key !in c.entries {
      AddedIsRetained(Room(c, max, victim), key, Cell(key, digest, stamp, None));
    }
  }

  lemma CompletedIsRetained(t: Table, key: string, id: nat, response: Response)
    requires Retained(t)
    ensures Retained(Completed(t, key, id, response))
  {
  }

  lemma KeysFit(a: map<string, nat>, b: map<string, nat>)
    requires a.Keys <= b.Keys
    ensures |a| <= |b|
  {
    Subset(a.Keys, b.Keys);
    assert |a| == |a.Keys| && |b| == |b.Keys|;
  }

  lemma {:induction false} Subset<T>(a: set<T>, b: set<T>)
    requires a <= b
    ensures |a| <= |b|
  {
    assert b == a + (b - a);
    assert |a + (b - a)| == |a| + |b - a|;
  }

  lemma OneMore(a: map<string, nat>, key: string, id: nat)
    requires key !in a
    ensures |a[key := id]| == |a| + 1
  {
    assert a[key := id].Keys == a.Keys + {key};
    assert |a[key := id]| == |a[key := id].Keys| && |a| == |a.Keys|;
  }

  lemma OneLess(a: map<string, nat>, key: string)
    requires key in a
    ensures |a - {key}| == |a| - 1
  {
    assert (a - {key}).Keys == a.Keys - {key};
    assert |a - {key}| == |(a - {key}).Keys| && |a| == |a.Keys|;
  }

  /** A new entry makes the table longer only where everything in it is in flight. */
  lemma RoomIsBounded(c: Table, max: nat, key: string, cell: Cell, victim: Option<string>, peak: nat)
    requires c.Valid() && key !in c.entries && MayEvict(c, victim) && cell.key == key && cell.response.None?
    requires |c.entries| <= Max(max, peak)
    ensures var t := Table(Room(c, max, victim).entries[key := |c.cells|], c.cells + [cell]);
            t.Valid() && |t.entries| <= Max(max, Max(peak, |InFlight(t)|))
  {
    var room := Room(c, max, victim);
    var t := Table(room.entries[key := |c.cells|], c.cells + [cell]);
    assert t.Valid();
    OneMore(room.entries, key, |c.cells|);
    if |c.entries| >= max && victim.Some? {
      OneLess(c.entries, victim.value);
    } else if |c.entries| >= max {
      AllInFlight(c, key, cell);
    }
  }

  lemma AllInFlight(c: Table, key: string, cell: Cell)
    requires c.Valid() && key !in c.entries && MayEvict(c, None) && cell.key == key && cell.response.None?
    ensures var t := Table(c.entries[key := |c.cells|], c.cells + [cell]); t.Valid() && |InFlight(t)| == |t.entries|
  {
    var t := Table(c.entries[key := |c.cells|], c.cells + [cell]);
    assert t.Valid();
    forall k | k in t.entries ensures !Finished(t, k) {
      assert k != key ==> !Finished(c, k);
    }
    assert InFlight(t) == t.entries.Keys;
    assert |t.entries| == |t.entries.Keys|;
  }

  lemma BegunIsBounded(t: Table, max: nat, key: string, digest: string, threshold: Time, stamp: Time, victim: Option<string>, peak: nat)
    requires Bounded(t, max, peak) && MayEvict(Cleaned(t, threshold), victim)
    ensures var b := Begun(t, max, key, digest, threshold, stamp, victim).0;
            b.Valid() && Bounded(b, max, Max(peak, |InFlight(b)|))
  {
    hide MayEvict;
    var c := Cleaned(t, threshold);
    KeysFit(c.entries, t.entries);
    if key !in c.entries {
      RoomIsBounded(c, max, key, Cell(key, digest, stamp, None), victim, peak);
    }
  }

  lemma CompletedIsBounded(t: Table, max: nat, key: string, id: nat, response: Response, peak: nat)
    requires Bounded(t, max, peak)
    ensures Bounded(Completed(t, key, id, response), max, peak)
  {
    var c := Completed(t, key, id, response);
    assert c.Valid();
    forall k | k in InFlight(c) ensures k in InFlight(t) {
      assert !Finished(c, k);
    }
    Subset(InFlight(c), InFlight(t));
  }

  /** What is told of a request stays true when entries are added. */
  lemma StaysTold(cells: seq<Cell>, more: seq<Cell>, q: Request)
    requires Named(cells, q) && Replied(cells, q) && cells <= more
    ensures Named(more, q) && Replied(more, q)
  {
  }

  lemma AddRequest(cells: seq<Cell>, requests: seq<Request>, more: seq<Cell>, q: Request)
    requires Told(cells, requests) && cells <= more && Named(more, q) && Replied(more, q)
    ensures Told(more, requests + [q])
  {
    hide Named, Replied;
    forall r | 0 <= r < |requests| ensures Named(more, requests[r]) && Replied(more, requests[r]) {
      StaysTold(cells, more, requests[r]);
    }
  }

  lemma OwnedGrows(cells: seq<Cell>, requests: seq<Request>, more: seq<Cell>, q: Request)
    requires Owned(cells, requests) && Told(cells, requests) && cells <= more
    requires if q.Owner? then |more| == |cells| + 1 && q.id == |cells| else |more| == |cells|
    ensures Owned(more, requests + [q])
  {
    forall i: nat | i < |more| ensures HasOwner(requests + [q], i) {
      if i < |cells| {
        assert HasOwner(requests, i);
        var r :| 0 <= r < |requests| && requests[r].Owner? && requests[r].id == i;
        assert (requests + [q])[r] == requests[r];
      } else {
        assert (requests + [q])[|requests|] == q;
      }
    }
    forall r | 0 <= r < |requests| && requests[r].Owner? ensures requests[r].id < |cells| {
      assert Named(cells, requests[r]);
    }
  }

  lemma BeginTold(w: World, max: nat, step: Step)
    requires Inv(w, max) && w.table.Valid() && step.Begin? && Enabled(w, max, step)
    ensures Told(Apply(w, max, step).table.cells, Apply(w, max, step).requests)
    ensures Owned(Apply(w, max, step).table.cells, Apply(w, max, step).requests)
  {
    hide Retained, MayEvict, Bounded, InFlight, Told, Owned;
    var v := Apply(w, max, step);
    var q := v.requests[|w.requests|];
    assert w.table.cells <= v.table.cells;
    AddRequest(w.table.cells, w.requests, v.table.cells, q);
    OwnedGrows(w.table.cells, w.requests, v.table.cells, q);
  }

  lemma ValidFromInv(w: World, max: nat)
    requires Inv(w, max)
    ensures w.table.Valid()
  {
  }

  /** Replacing one request by itself with a reply keeps every owner. */
  lemma OwnedStays(cells: seq<Cell>, more: seq<Cell>, requests: seq<Request>, r: nat, q: Request)
    requires Owned(cells, requests) && |more| == |cells| && r < |requests|
    requires q.id == requests[r].id && (q.Owner? <==> requests[r].Owner?)
    ensures Owned(more, requests[r := q])
  {
    var after := requests[r := q];
    forall i: nat | i < |more| ensures HasOwner(after, i) {
      assert HasOwner(requests, i);
      var o :| 0 <= o < |requests| && requests[o].Owner? && requests[o].id == i;
      assert after[o].Owner? && after[o].id == i;
    }
  }

  lemma CompleteTold(w: World, max: nat, step: Step)
    requires Inv(w, max) && w.table.Valid() && step.Complete? && Enabled(w, max, step)
    ensures Told(Apply(w, max, step).table.cells, Apply(w, max, step).requests)
    ensures Owned(Apply(w, max, step).table.cells, Apply(w, max, step).requests)
  {
    FindsItsEntry(w, max, step.request);
    hide Retained, Bounded, InFlight, HasOwner;
    var v, q := Apply(w, max, step), w.requests[step.request];
    var done := Owner(q.key, q.digest, q.id, Some(step.response));
    OwnedStays(w.table.cells, v.table.cells, w.requests, step.request, done);
    hide Owned;
    forall r | 0 <= r < |v.requests| ensures Named(v.table.cells, v.requests[r]) && Replied(v.table.cells, v.requests[r]) {
      assert Named(w.table.cells, w.requests[r]) && Replied(w.table.cells, w.requests[r]);
      assert Unique(w.requests);
    }
  }

  lemma WakeTold(w: World, max: nat, step: Step)
    requires Inv(w, max) && w.table.Valid() && step.Wake? && Enabled(w, max, step)
    ensures Told(Apply(w, max, step).table.cells, Apply(w, max, step).requests)
    ensures Owned(Apply(w, max, step).table.cells, Apply(w, max, step).requests)
  {
    hide Retained, Bounded, InFlight, Owned;
    var q, cells := w.requests[step.request], w.table.cells;
    OwnedStays(cells, cells, w.requests, step.request, Waiter(q.key, q.digest, q.id, cells[q.id].response));
    assert Named(cells, q);
  }

  lemma FindsItsEntry(w: World, max: nat, r: nat)
    requires Inv(w, max) && r < |w.requests| && w.requests[r].Owner? && w.requests[r].reply.None?
    ensures w.requests[r].key in w.table.entries && w.table.entries[w.requests[r].key] == w.requests[r].id
  {
    var q := w.requests[r];
    assert Named(w.table.cells, q) && Replied(w.table.cells, q);
  }

  lemma StepKeepsInv(w: World, max: nat, step: Step)
    requires Inv(w, max) && w.table.Valid() && Enabled(w, max, step)
    ensures Inv(Apply(w, max, step), max)
  {
    hide Retained, Bounded, Told, Owned, InFlight, MayEvict;
    match step
    case Begin(key, digest, threshold, stamp, victim) =>
      BegunIsRetained(w.table, max, key, digest, threshold, stamp, victim);
      BegunIsBounded(w.table, max, key, digest, threshold, stamp, victim, w.peak);
      BeginTold(w, max, step);
    case Complete(r, response) =>
      CompletedIsRetained(w.table, w.requests[r].key, w.requests[r].id, response);
      CompletedIsBounded(w.table, max, w.requests[r].key, w.requests[r].id, response, w.peak);
      CompleteTold(w, max, step);
    case Wake(_) =>
      WakeTold(w, max, step);
  }

  lemma {:induction false} RunsKeepInv(max: nat, steps: seq<Step>)
    ensures Inv(Exec(max, steps), max)
  {
    if steps == [] {
      assert EMPTY.table.Valid() && InFlight(EMPTY.table) == {};
    } else {
      RunsKeepInv(max, steps[..|steps| - 1]);
      var w, step := Exec(max, steps[..|steps| - 1]), steps[|steps| - 1];
      ValidFromInv(w, max);
      hide Retained, Bounded, Told, Owned, Enabled, Apply;
      if Enabled(w, max, step) {
        StepKeepsInv(w, max, step);
      }
    }
  }

  // ---------------------------------------------------------------- theorems

  /** An owner whose handler is still running finds its own entry when it completes, so the early
      return of complete is never taken and its waiters are released. */
  lemma {:induction false} CompleteFindsItsEntry(max: nat, steps: seq<Step>, r: nat)
    requires var w := Exec(max, steps); r < |w.requests| && w.requests[r].Owner? && w.requests[r].reply.None?
    ensures var w := Exec(max, steps); var q := w.requests[r];
            && q.key in w.table.entries && w.table.entries[q.key] == q.id
            && forall response :: q.id < |w.table.cells| &&
                 Completed(w.table, q.key, q.id, response).cells[q.id].response == Some(response)
  {
    RunsKeepInv(max, steps);
    FindsItsEntry(Exec(max, steps), max, r);
  }

  /** A waiter is answered with the response of the one owner of its entry, which was asked for the
      same key and the same payload. */
  lemma {:induction false} WaitersGetTheOwnersResponse(max: nat, steps: seq<Step>, r: nat)
    requires var w := Exec(max, steps); r < |w.requests| && w.requests[r].Waiter?
    ensures var w := Exec(max, steps); var q := w.requests[r];
            exists o :: 0 <= o < |w.requests| && w.requests[o].Owner? && w.requests[o].id == q.id
              && w.requests[o].key == q.key && w.requests[o].digest == q.digest
              && (q.reply.Some? ==> w.requests[o].reply == q.reply)
  {
    RunsKeepInv(max, steps);
    var w := Exec(max, steps);
    var q := w.requests[r];
    hide Retained, Bounded;
    assert Named(w.table.cells, q) && HasOwner(w.requests, q.id);
    var o :| 0 <= o < |w.requests| && w.requests[o].Owner? && w.requests[o].id == q.id;
    assert Named(w.table.cells, w.requests[o]) && Replied(w.table.cells, w.requests[o]) && Replied(w.table.cells, q);
  }

  /** At most one owner of a key is retained: if two requests ran under the same key, the earlier
      entry had finished and is no longer the retained one. */
  lemma {:induction false} OneOwnerPerRetainedKey(max: nat, steps: seq<Step>, r: nat, q: nat)
    requires var w := Exec(max, steps);
             && r < |w.requests| && q < |w.requests| && w.requests[r].Owner? && w.requests[q].Owner?
             && w.requests[r].key == w.requests[q].key && w.requests[r].id < w.requests[q].id
    ensures var w := Exec(max, steps);
            && w.requests[r].reply.Some?
            && (w.requests[r].key in w.table.entries ==> w.table.entries[w.requests[r].key] != w.requests[r].id)
  {
    RunsKeepInv(max, steps);
    var w := Exec(max, steps);
    hide Bounded, Owned;
    assert Named(w.table.cells, w.requests[r]) && Named(w.table.cells, w.requests[q]);
    assert Replied(w.table.cells, w.requests[r]);
  }

  /** While an owner is running, no duplicate becomes an owner, whatever the clock reads and
      whichever entry would be evicted. */
  lemma {:induction false} DuplicatesDoNotRun(max: nat, steps: seq<Step>, r: nat, digest: string, threshold: Time, stamp: Time, victim: Option<string>)
    requires var w := Exec(max, steps); r < |w.requests| && w.requests[r].Owner? && w.requests[r].reply.None?
    ensures var w := Exec(max, steps); var q := w.requests[r];
            && w.table.Valid()
            && Begun(w.table, max, q.key, digest, threshold, stamp, victim).1 ==
                 if digest == q.digest then Wait(q.id) else Conflict(q.id)
  {
    RunsKeepInv(max, steps);
    var w := Exec(max, steps);
    FindsItsEntry(w, max, r);
    ValidFromInv(w, max);
    assert !Finished(w.table, w.requests[r].key);
  }

  /** The store outgrows its limit only while that many operations are running at once. */
  lemma {:induction false} StoreIsBounded(max: nat, steps: seq<Step>)
    ensures |Exec(max, steps).table.entries| <= Max(max, Exec(max, steps).peak)
  {
    RunsKeepInv(max, steps);
  }

  /** The peak is no more than what was in flight at some moment of the run. */
  lemma {:induction false} PeakWasReached(max: nat, steps: seq<Step>)
    ensures Exec(max, steps).peak == 0 ||
      exists n :: 0 <= n <= |steps| && Exec(max, steps[..n]).table.Valid() &&
        |InFlight(Exec(max, steps[..n]).table)| == Exec(max, steps).peak
  {
    hide Enabled, Apply, InFlight;
    if steps != [] {
      var init := steps[..|steps| - 1];
      PeakWasReached(max, init);
      assert steps[..|steps|] == steps;
      assert forall n :: 0 <= n <= |init| ==> steps[..n] == init[..n];
      PeakStep(max, steps);
    }
  }

  lemma PeakStep(max: nat, steps: seq<Step>)
    requires steps != []
    ensures var w, v := Exec(max, steps[..|steps| - 1]), Exec(max, steps);
            v.peak == w.peak || (v.table.Valid() && v.peak == |InFlight(v.table)|)
  {
    RunsKeepInv(max, steps);
    ValidFromInv(Exec(max, steps), max);
    hide Inv, Enabled, InFlight;
  }

  /** Exactly what begin forgets: a finished entry older than the time to live, and, when a new entry finds
      the store full, one oldest finished entry. Nothing that is running, ever. */
  lemma {:induction false} ForgetsExactly(t: Table, max: nat, key: string, digest: string, threshold: Time, stamp: Time, victim: Option<string>, k: string)
    requires t.Valid() && MayEvict(Cleaned(t, threshold), victim) && k in t.entries && k != key
    ensures var after := Begun(t, max, key, digest, threshold, stamp, victim).0;
      var cell := t.cells[t.entries[k]];
      var full := key !in Cleaned(t, threshold).entries && |Cleaned(t, threshold).entries| >= max;
      && (k in after.entries <==> !(cell.response.Some? && cell.created < threshold) && !(full && victim == Some(k)))
      && (k in after.entries ==> after.entries[k] == t.entries[k])
      && (full && victim == Some(k) ==> cell.response.Some?)
      && (full && victim == Some(k) ==>
            forall other :: other in t.entries && t.cells[t.entries[other]].response.Some? && t.cells[t.entries[other]].created >= threshold ==>
              cell.created <= t.cells[t.entries[other]].created)
  {
    var c := Cleaned(t, threshold);
    assert k in c.entries <==> !(Created(t, k) < threshold && Finished(t, k));
    if victim == Some(k) && k in c.entries {
      forall other | other in t.entries && t.cells[t.entries[other]].response.Some? && t.cells[t.entries[other]].created >= threshold
        ensures Created(t, k) <= t.cells[t.entries[other]].created {
        assert other in c.entries && Finished(c, other);
        assert Created(c, k) <= Created(c, other);
      }
    }
  }

  /** Once an owner has replied, each of its waiters can take the response, and gets just that. */
  lemma {:induction false} WaitersAreReleased(max: nat, steps: seq<Step>, o: nat, r: nat)
    requires var w := Exec(max, steps);
      && o < |w.requests| && w.requests[o].Owner? && w.requests[o].reply.Some?
      && r < |w.requests| && w.requests[r].Waiter? && w.requests[r].reply.None? && w.requests[r].id == w.requests[o].id
    ensures var w := Exec(max, steps); var v := Exec(max, steps + [Wake(r)]);
      r < |v.requests| && v.requests[r].Waiter? && v.requests[r].reply == w.requests[o].reply
  {
    RunsKeepInv(max, steps);
    var w := Exec(max, steps);
    ValidFromInv(w, max);
    assert (steps + [Wake(r)])[..|steps|] == steps;
    hide Retained, Bounded, Owned;
    assert Named(w.table.cells, w.requests[o]) && Replied(w.table.cells, w.requests[o]);
    assert Enabled(w, max, Wake(r));
  }
}
