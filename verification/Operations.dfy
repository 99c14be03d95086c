/**
 * The durable operation store as a value (internal/operation/store.go): records, the bounded
 * event log, and what each operation makes of them. `OperationStore` runs these operations in
 * place; `OperationRuns` follows them over restarts.
 */
module Operations {
  import opened Common

  type ID = nat      // operation IDs, ordered as the store orders them
  type Time = int

  datatype State = Pending | Running | WaitingForUser | Succeeded | Failed | Cancelled | Expired {
    predicate Terminal()
    {
      Succeeded? || Failed? || Cancelled? || Expired?
    }
  }

  predicate AllowedTransition(from: State, to: State)
  {
    match from
    case Pending => !to.Pending?
    case Running => to.WaitingForUser? || to.Terminal()
    case WaitingForUser => to.Running? || to.Terminal()
    case _ => false
  }

  datatype Record = Record(
    id: ID, state: State, progress: int, cancelable: bool, expireOnRecovery: bool,
    created: Time, updated: Time, expires: Time, sequence: nat,
    failure: Option<string>, result: map<string, string>)

  datatype Entry = Entry(record: Record, hash: string, digest: string)

  datatype Event = Event(sequence: nat, op: ID, state: State, time: Time)

  datatype Limits = Limits(maxOperations: nat, maxEvents: nat, retention: nat)

  datatype Store = Store(ops: map<ID, Entry>, events: seq<Event>, nextSequence: nat)

  datatype Request = Request(
    cancelable: bool, expireOnRecovery: bool, expires: Time, hash: string, digest: string, valid: bool)

  function Clamped(progress: int): int
  {
    Max(0, Min(100, progress))
  }

  /** appendEventLocked: keep the newest `max` events. */
  function Appended(events: seq<Event>, e: Event, max: nat): seq<Event>
  {
    var all := events + [e];
    if |all| > max then all[|all| - max..] else all
  }

  /** Number an event, append it, and store the record it is about. */
  function Emitted(s: Store, limits: Limits, id: ID, entry: Entry, now: Time): Store
  {
    var e := EventOf(s, id, entry.record.state, now);
    Store(s.ops[id := entry.(record := entry.record.(sequence := e.sequence))],
          Appended(s.events, e, limits.maxEvents), e.sequence)
  }

  function EventOf(s: Store, id: ID, state: State, now: Time): Event
  {
    Event(s.nextSequence + 1, id, state, now)
  }

  // ---------------------------------------------------------------- operations

  predicate CanTransition(s: Store, id: ID, next: State)
  {
    id in s.ops && AllowedTransition(s.ops[id].record.state, next)
  }

  function Transitioned(s: Store, limits: Limits, id: ID, next: State, progress: int,
                        result: map<string, string>, failure: Option<string>, now: Time): Store
    requires id in s.ops
  {
    var e := s.ops[id];
    var r := e.record.(state := next, progress := Clamped(progress), updated := now, result := result, failure := failure);
    Emitted(s, limits, id, e.(record := r), now)
  }

  predicate CanProgress(s: Store, id: ID)
  {
    id in s.ops && !s.ops[id].record.state.Terminal()
  }

  function Progressed(s: Store, limits: Limits, id: ID, progress: int, result: Option<map<string, string>>, now: Time): Store
    requires id in s.ops
  {
    var e := s.ops[id];
    var r := e.record.(progress := Clamped(progress), updated := now,
                       result := if result.Some? then result.value else e.record.result);
    Emitted(s, limits, id, e.(record := r), now)
  }

  function Created(s: Store, limits: Limits, id: ID, request: Request, now: Time): Store
  {
    var r := Record(id, Pending, 0, request.cancelable, request.expireOnRecovery, now, now, request.expires, 0, None, map[]);
    Emitted(s, limits, id, Entry(r, request.hash, request.digest), now)
  }

  /** An operation of the store that answers for the same idempotency hash. */
  predicate Matches(s: Store, id: ID, hash: string)
  {
    hash != "" && id in s.ops && s.ops[id].hash == hash
  }

  /** What Create does with a pruned store. */
  datatype Verdict = Conflict | Replay(twin: ID) | Full | Room

  ghost function CreateVerdict(s: Store, limits: Limits, request: Request): Verdict
  {
    if twin :| Matches(s, twin, request.hash) then
      if s.ops[twin].digest != request.digest then Conflict else Replay(twin)
    else if |s.ops| >= limits.maxOperations then Full
    else Room
  }

  predicate UniqueHashes(s: Store)
  {
    forall a, b :: a in s.ops && b in s.ops && s.ops[a].hash == s.ops[b].hash != "" ==> a == b
  }

  /** recoverLocked on one record. */
  function RecoveredOne(s: Store, limits: Limits, id: ID, now: Time): Store
    requires id in s.ops
  {
    var e := s.ops[id];
    if e.record.state.Terminal() then s
    else
      var r := if e.record.expires <= now || e.record.expireOnRecovery
               then e.record.(state := Expired, failure := Some("operation_expired"), updated := now)
               else e.record.(state := Failed, failure := Some("operation_interrupted"), updated := now);
      Emitted(s, limits, id, e.(record := r), now)
  }

  function Recovered(s: Store, limits: Limits, ids: seq<ID>, now: Time): (r: Store)
    requires forall n :: 0 <= n < |ids| ==> ids[n] in s.ops
    ensures r.ops.Keys == s.ops.Keys
    decreases |ids|
  {
    if ids == [] then s
    else RecoveredOne(Recovered(s, limits, ids[..|ids| - 1], now), limits, ids[|ids| - 1], now)
  }

  /** pruneLocked may keep exactly the IDs in `keep`: it removes every terminal operation past
      its retention, and beyond that only terminal operations, oldest first, and only while
      there are too many. */
  ghost predicate MayKeep(s: Store, limits: Limits, now: Time, keep: set<ID>)
  {
    && keep <= s.ops.Keys
    && (forall id :: id in s.ops && id !in keep ==> s.ops[id].record.state.Terminal())
    && (forall id :: id in keep ==> !Outlived(s.ops[id].record, limits, now))
    && (forall a, b :: a in s.ops && a !in keep && !Outlived(s.ops[a].record, limits, now) && b in keep ==>
          s.ops[b].record.state.Terminal() ==> s.ops[a].record.updated <= s.ops[b].record.updated)
    && ((forall id :: id in s.ops && id !in keep ==> Outlived(s.ops[id].record, limits, now))
        || |keep| >= limits.maxOperations)
    && (|keep| > limits.maxOperations ==> forall id :: id in keep ==> !s.ops[id].record.state.Terminal())
  }

  predicate Outlived(r: Record, limits: Limits, now: Time)
  {
    r.state.Terminal() && r.updated < now - limits.retention
  }

  function Kept(s: Store, keep: set<ID>): Store
  {
    s.(ops := map id | id in s.ops && id in keep :: s.ops[id])
  }

  // ---------------------------------------------------------------- histories

  /** State and number of the latest event of `id`. */
  function LastEvent(h: seq<Event>, id: ID): Option<Event>
    decreases |h|
  {
    if h == [] then None
    else if h[|h| - 1].op == id then Some(h[|h| - 1])
    else LastEvent(h[..|h| - 1], id)
  }

  /** An event that may follow what the history says about its operation: a creation, an allowed
      transition, or progress of an operation that is not over. */
  predicate MayFollow(h: seq<Event>, e: Event)
  {
    match LastEvent(h, e.op)
    case None => e.state.Pending?
    case Some(last) => AllowedTransition(last.state, e.state) || (e.state == last.state && !last.state.Terminal())
  }

  /** A complete history: numbered 1, 2, 3, ... and lawful for every operation. */
  predicate Lawful(h: seq<Event>)
    decreases |h|
  {
    h == [] ||
    var n := |h| - 1;
    Lawful(h[..n]) && h[n].sequence == n + 1 && MayFollow(h[..n], h[n])
  }

  /** The store is what the history made it: its log is the newest part of the history, and each
      record stands where the latest event of its operation put it. */
  ghost predicate Reflects(s: Store, h: seq<Event>)
  {
    && Lawful(h)
    && s.nextSequence == |h|
    && |s.events| <= |h| && s.events == h[|h| - |s.events|..]
    && (forall id :: id in s.ops ==> Stands(s.ops[id].record, id, h))
    && UniqueHashes(s)
  }

  predicate Stands(r: Record, id: ID, h: seq<Event>)
  {
    && r.id == id
    && LastEvent(h, id).Some?
    && LastEvent(h, id).value.state == r.state
    && LastEvent(h, id).value.sequence == r.sequence
  }

  /** Emitting a lawful event keeps the store and the history in step. */
  lemma {:induction false} EmitReflects(s: Store, h: seq<Event>, limits: Limits, id: ID, entry: Entry, now: Time)
    requires Reflects(s, h) && MayFollow(h, EventOf(s, id, entry.record.state, now)) && entry.record.id == id
    requires entry.hash != "" ==> forall a :: a in s.ops && s.ops[a].hash == entry.hash ==> a == id
    ensures Reflects(Emitted(s, limits, id, entry, now), h + [EventOf(s, id, entry.record.state, now)])
  {
    var e := EventOf(s, id, entry.record.state, now);
    var s' := Emitted(s, limits, id, entry, now);
    var h' := h + [e];
    LawfulSnoc(h, e);
    TailSnoc(s.events, h, e, limits.maxEvents);
    forall a | a in s'.ops ensures Stands(s'.ops[a].record, a, h') {
      LastEventSnoc(h, e, a);
      if a != id { assert Stands(s.ops[a].record, a, h); }
    }
    hide Lawful, LastEvent, Appended, MayFollow;
    forall a, b | a in s'.ops && b in s'.ops && s'.ops[a].hash == s'.ops[b].hash != "" ensures a == b {
      if a != id && b != id {
        assert s.ops[a].hash == s.ops[b].hash;
      }
    }
  }

  lemma LawfulSnoc(h: seq<Event>, e: Event)
    requires Lawful(h) && e.sequence == |h| + 1 && MayFollow(h, e)
    ensures Lawful(h + [e])
  {
    assert (h + [e])[..|h|] == h;
  }

  lemma LastEventSnoc(h: seq<Event>, e: Event, id: ID)
    ensures LastEvent(h + [e], id) == if e.op == id then Some(e) else LastEvent(h, id)
  {
    assert (h + [e])[..|h|] == h;
  }

  /** A log that is the tail of the history stays one. */
  lemma TailSnoc(events: seq<Event>, h: seq<Event>, e: Event, max: nat)
    requires |events| <= |h| && events == h[|h| - |events|..]
    ensures var r := Appended(events, e, max); |r| <= |h| + 1 && r == (h + [e])[|h| + 1 - |r|..]
  {
    var all, longer := events + [e], h + [e];
    assert all == longer[|longer| - |all|..];
    var r := Appended(events, e, max);
    assert r == all[|all| - |r|..];
    assert longer[|longer| - |all|..][|all| - |r|..] == longer[|longer| - |r|..];
  }

  lemma KeepReflects(s: Store, h: seq<Event>, keep: set<ID>)
    requires Reflects(s, h)
    ensures Reflects(Kept(s, keep), h)
  {
  }

  lemma {:induction false} RecoveryEndsEverything(s: Store, limits: Limits, ids: seq<ID>, now: Time, id: ID)
    requires forall n :: 0 <= n < |ids| ==> ids[n] in s.ops
    requires id in ids || (id in s.ops && s.ops[id].record.state.Terminal())
    ensures Recovered(s, limits, ids, now).ops[id].record.state.Terminal()
    decreases |ids|
  {
    if ids != [] {
      var init := ids[..|ids| - 1];
      if id in init || s.ops[id].record.state.Terminal() {
        RecoveryEndsEverything(s, limits, init, now, id);
      } else {
        assert ids[|ids| - 1] == id;
      }
    }
  }

  // ---------------------------------------------------------------- what a lawful history says

  /** After a terminal event of an operation nothing more happens to it, ever. */
  lemma {:induction false} TerminalIsLast(h: seq<Event>, i: nat, j: nat)
    requires Lawful(h) && i < j < |h| && h[i].op == h[j].op
    ensures !h[i].state.Terminal()
    decreases |h|
  {
    var n := |h| - 1;
    if j < n {
      TerminalIsLast(h[..n], i, j);
    } else {
      LastIsAtLeast(h[..n], i);
      var k := LastAt(h[..n], h[i].op);
      if i < k {
        TerminalIsLast(h[..n], i, k);
      }
    }
  }

  lemma {:induction false} LastIsAtLeast(h: seq<Event>, i: nat)
    requires i < |h|
    ensures LastEvent(h, h[i].op).Some?
    decreases |h|
  {
    if i < |h| - 1 && h[|h| - 1].op != h[i].op {
      LastIsAtLeast(h[..|h| - 1], i);
    }
  }

  /** Where the latest event of an operation is. */
  lemma {:induction false} LastAt(h: seq<Event>, id: ID) returns (k: nat)
    requires LastEvent(h, id).Some?
    ensures k < |h| && h[k] == LastEvent(h, id).value && h[k].op == id
    ensures forall n :: k < n < |h| ==> h[n].op != id
    decreases |h|
  {
    if h[|h| - 1].op == id {
      k := |h| - 1;
    } else {
      k := LastAt(h[..|h| - 1], id);
    }
  }

  /** In every lawful history, an operation whose record is terminal has exactly one terminal
      event and it is its last; an operation still open has none. */
  lemma {:induction false} OneTerminalEvent(s: Store, h: seq<Event>, id: ID) returns (k: nat)
    requires Reflects(s, h) && id in s.ops
    ensures k < |h| && h[k].op == id && h[k].state == s.ops[id].record.state && s.ops[id].record.sequence == k + 1
    ensures forall n :: 0 <= n < |h| && h[n].op == id && h[n].state.Terminal() ==>
              n == k && s.ops[id].record.state.Terminal()
    ensures forall n :: k < n < |h| ==> h[n].op != id
  {
    assert Stands(s.ops[id].record, id, h);
    k := LastAt(h, id);
    SequenceIsPosition(h, k);
    forall n | 0 <= n < |h| && h[n].op == id && h[n].state.Terminal() ensures n == k {
      if n < k { TerminalIsLast(h, n, k); }
    }
  }

  lemma {:induction false} SequenceIsPosition(h: seq<Event>, k: nat)
    requires Lawful(h) && k < |h|
    ensures h[k].sequence == k + 1
    decreases |h|
  {
    if k < |h| - 1 {
      SequenceIsPosition(h[..|h| - 1], k);
    }
  }

  // ---------------------------------------------------------------- what each operation changes

  /** A live operation may go to any state but back to pending and where it already is. */
  lemma {:induction false} TransitionsExactly(from: State, next: State)
    ensures AllowedTransition(from, next) <==>
      && !(from == Succeeded || from == Failed || from == Cancelled || from == Expired)
      && next != Pending && next != from
  {
  }

  /** Nothing but one operation differs, and of its record only what is listed. */
  ghost predicate OnlyRecord(s: Store, t: Store, id: ID)
  {
    && id in s.ops && t.ops.Keys == s.ops.Keys
    && (forall other :: other in s.ops && other != id ==> t.ops[other] == s.ops[other])
    && t.ops[id].hash == s.ops[id].hash && t.ops[id].digest == s.ops[id].digest
    && var a, b := s.ops[id].record, t.ops[id].record;
       && b.id == a.id && b.created == a.created && b.expires == a.expires
       && b.cancelable == a.cancelable && b.expireOnRecovery == a.expireOnRecovery
  }

  /** Progress is a percentage: what was reported, kept within bounds. */
  predicate Percent(reported: int, stored: int)
  {
    0 <= stored <= 100 && (0 <= reported <= 100 ==> stored == reported)
    && (reported < 0 ==> stored == 0) && (reported > 100 ==> stored == 100)
  }

  lemma {:induction false} TransitionChanges(s: Store, limits: Limits, id: ID, next: State, progress: int,
                                             result: map<string, string>, failure: Option<string>, now: Time)
    requires id in s.ops
    ensures var t := Transitioned(s, limits, id, next, progress, result, failure, now); var b := t.ops[id].record;
      && OnlyRecord(s, t, id) && Percent(progress, b.progress)
      && b.state == next && b.result == result && b.failure == failure && b.updated == now
      && b.sequence == t.nextSequence == s.nextSequence + 1
  {
  }

  lemma {:induction false} ProgressChanges(s: Store, limits: Limits, id: ID, progress: int, result: Option<map<string, string>>, now: Time)
    requires id in s.ops
    ensures var t := Progressed(s, limits, id, progress, result, now); var a, b := s.ops[id].record, t.ops[id].record;
      && OnlyRecord(s, t, id) && Percent(progress, b.progress)
      && b.state == a.state && b.failure == a.failure && b.updated == now
      && b.result == (if result == None then a.result else result.value)
      && b.sequence == t.nextSequence == s.nextSequence + 1
  {
  }

  /** Creating is idempotent: while the operation is kept, the same key and payload find it again, and the
      same key with another payload is refused, however full the store is by then. */
  lemma {:induction false} CreateIsIdempotent(s: Store, limits: Limits, id: ID, first: Request, again: Request, now: Time, later: Limits)
    requires UniqueHashes(s) && id !in s.ops && first.hash != "" && again.hash == first.hash
    requires forall twin :: !Matches(s, twin, first.hash)
    ensures var t := Created(s, limits, id, first, now);
      && CreateVerdict(t, later, again) == (if again.digest == first.digest then Replay(id) else Conflict)
      && var r := t.ops[id].record;
         && r.state == Pending && r.id == id && r.progress == 0 && r.created == r.updated == now && r.expires == first.expires
         && r.cancelable == first.cancelable && r.expireOnRecovery == first.expireOnRecovery
         && r.failure == None && r.result == map[] && r.sequence == s.nextSequence + 1
  {
    var t := Created(s, limits, id, first, now);
    assert Matches(t, id, first.hash);
    forall twin | twin in s.ops ensures s.ops[twin].hash != first.hash {
      assert !Matches(s, twin, first.hash);
    }
    assert forall twin :: Matches(t, twin, first.hash) ==> twin == id;
  }

  /** The log keeps the newest events, as many as fit. */
  lemma {:induction false} LogKeepsNewest(events: seq<Event>, e: Event, max: nat)
    ensures var r := Appended(events, e, max);
      && |r| == Min(|events| + 1, max)
      && (forall i :: 0 <= i < |r| ==> r[i] == (events + [e])[|events| + 1 - |r| + i])
  {
  }

  /** What pruning may remove: only what has ended, what is past its retention, and beyond that only the
      oldest endings while there are too many operations. */
  lemma {:induction false} PrunesOldestFirst(s: Store, limits: Limits, now: Time, keep: set<ID>, gone: ID)
    requires MayKeep(s, limits, now, keep) && gone in s.ops && gone !in keep
    ensures var r := s.ops[gone].record;
      && (r.state == Succeeded || r.state == Failed || r.state == Cancelled || r.state == Expired)
      && (r.updated < now - limits.retention ||
          (|keep| >= limits.maxOperations &&
           forall id :: id in keep && s.ops[id].record.state.Terminal() ==> r.updated <= s.ops[id].record.updated))
    ensures forall id :: id in keep && s.ops[id].record.state.Terminal() ==> s.ops[id].record.updated >= now - limits.retention
  {
  }
}
