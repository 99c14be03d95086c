/**
 * Rotating a provider's accounts when one is rate limited (src/copilot_provider.go,
 * src/codex_provider.go): the failed account is stamped and the cursor moves on to the next one
 * that is out of cooldown.
 */
module AccountPool {
  import opened Common

  type Time = int

  /** cooldownSeconds. */
  function Seconds(configured: int): (r: int)
    ensures r > 0
  {
    if configured > 0 then configured else 300
  }

  predicate Cooling(limitedAt: Time, now: Time, seconds: int)
  {
    limitedAt != 0 && now - limitedAt < seconds
  }

  /** Account `j` can take over from `failed`. */
  predicate Usable(limited: seq<Time>, failed: nat, now: Time, seconds: int, j: nat)
  {
    j < |limited| && j != failed && !Cooling(limited[j], now, seconds)
  }

  /** Where the search begins. */
  function Start(cursor: nat, failed: nat, size: nat): nat
    requires size > 0
  {
    if cursor == failed then (failed + 1) % size else cursor
  }

  /** The `i`-th account in cyclic order from `start`. */
  function Around(start: nat, i: nat, size: nat): (r: nat)
    requires size > 0
    ensures r < size
  {
    (start + i) % size
  }

  /** `next` is the first usable account in cyclic order from `start`. */
  ghost predicate FirstUsable(limited: seq<Time>, start: nat, failed: nat, now: Time, seconds: int, next: nat)
  {
    && Usable(limited, failed, now, seconds, next)
    && exists i: nat ::
         && i < |limited| && Around(start, i, |limited|) == next
         && forall h: nat :: h < i ==> !Usable(limited, failed, now, seconds, Around(start, h, |limited|))
  }

  /** Every account is met once around the cycle. */
  lemma CycleMeets(start: nat, size: nat, j: nat) returns (i: nat)
    requires j < size
    ensures i < size && Around(start, i, size) == j
  {
    var q, at := start / size, start % size;
    assert start == size * q + at;
    if at <= j {
      i := j - at;
      RemainderIs(start + i, size, q, j);
    } else {
      i := j + size - at;
      assert size * (q + 1) == size * q + size;
      RemainderIs(start + i, size, q + 1, j);
    }
  }

  lemma RemainderIs(x: nat, size: nat, q: nat, r: nat)
    requires r < size && x == size * q + r
    ensures x % size == r
  {
    var k, m := x / size, x % size;
    assert x == size * k + m;
    assert size * (k - q) == r - m;
    if k > q {
      Multiple(size, k - q);
    } else if k < q {
      Multiple(size, q - k);
    }
  }

  lemma Multiple(size: nat, k: nat)
    requires k > 0
    ensures size * k >= size
  {
  }

  /** Starting a whole number of rounds later makes no difference. */
  lemma SameCycle(start: nat, size: nat, i: nat)
    requires size > 0
    ensures Around(start % size, i, size) == Around(start, i, size)
  {
    var q, at := start / size, start % size;
    var p, r := (at + i) / size, (at + i) % size;
    assert start == size * q + at && at + i == size * p + r;
    assert start + i == size * (q + p) + r;
    RemainderIs(start + i, size, q + p, r);
  }

  class Pool {
    const limitedAt: array<Time>
    const seconds: int
    var cursor: nat

    constructor (accounts: array<Time>, configured: int, cursor: nat)
      ensures limitedAt == accounts && this.cursor == cursor
      ensures seconds == if configured > 0 then configured else 300
    {
      limitedAt, seconds, this.cursor := accounts, Seconds(configured), cursor;
    }

    method InCooldown(i: nat, now: Time) returns (cooling: bool)
      requires i < limitedAt.Length
      ensures cooling <==> Cooling(limitedAt[i], now, seconds)
      ensures cooling <==> limitedAt[i] != 0 && now < limitedAt[i] + seconds
    {
      if limitedAt[i] == 0 {
        return false;
      }
      return now - limitedAt[i] < seconds;
    }

    /** firstHealthyAccount: the first account out of cooldown, or 0. */
    method FirstHealthy(now: Time) returns (index: nat)
      ensures (exists j :: 0 <= j < limitedAt.Length && !Cooling(limitedAt[j], now, seconds)) ==>
                && index < limitedAt.Length && !Cooling(limitedAt[index], now, seconds)
                && forall j :: 0 <= j < index ==> Cooling(limitedAt[j], now, seconds)
      ensures (forall j :: 0 <= j < limitedAt.Length ==> Cooling(limitedAt[j], now, seconds)) ==> index == 0
    {
      for i := 0 to limitedAt.Length
        invariant forall j :: 0 <= j < i ==> Cooling(limitedAt[j], now, seconds)
      {
        var cooling := InCooldown(i, now);
        if !cooling {
          return i;
        }
      }
      return 0;
    }

    /** advanceAccountFrom: only the failed account is stamped; the cursor moves, to the first usable
        account, exactly when there is one. */
    method AdvanceFrom(failed: int, now: Time) returns (ok: bool)
      modifies this`cursor, limitedAt
      ensures !(0 <= failed < limitedAt.Length) ==> limitedAt[..] == old(limitedAt[..]) && !ok
      ensures 0 <= failed < limitedAt.Length ==> limitedAt[..] == old(limitedAt[..])[failed := now]
      ensures 0 <= failed < limitedAt.Length ==>
                (ok <==> exists j: nat :: Usable(old(limitedAt[..]), failed, now, seconds, j))
      ensures ok ==> 0 <= failed < limitedAt.Length
      ensures ok ==> FirstUsable(old(limitedAt[..]), Start(old(cursor), failed, limitedAt.Length), failed, now, seconds, cursor)
      ensures !ok ==> cursor == old(cursor)
    {
      if failed < 0 || failed >= limitedAt.Length {
        return false;
      }
      hide Around;
      ghost var before := limitedAt[..];
      limitedAt[failed] := now;
      assert limitedAt[..] == before[failed := now];
      if limitedAt.Length <= 1 {
        return false;
      }
      var size := limitedAt.Length;
      var start := cursor;
      if start == failed {
        start := (failed + 1) % size;
      }
      for i := 0 to size
        invariant forall h: nat :: h < i ==> !Usable(before, failed, now, seconds, Around(start, h, size))
        invariant cursor == old(cursor) && limitedAt[..] == before[failed := now]
      {
        var next := Around(start, i, size);
        if next == failed {
          continue;
        }
        assert before[next] == limitedAt[..][next] == limitedAt[next];
        var cooling := InCooldown(next, now);
        if !cooling {
          assert Usable(before, failed, now, seconds, next);
          cursor := next;
          return true;
        }
      }
      forall j: nat ensures !Usable(before, failed, now, seconds, j) {
        if j < size {
          var i := CycleMeets(start, size, j);
        }
      }
      return false;
    }
  }

  /** Where the account is picked up after a failure: right behind the failed one, or at the cursor if
      another request has moved it already. */
  function From(cursor: nat, failed: nat): nat
  {
    if cursor == failed then failed + 1 else cursor
  }

  predicate OutOfService(limited: seq<Time>, failed: nat, now: Time, seconds: int, a: nat)
  {
    a < |limited| && (a == failed || (limited[a] != 0 && now < limited[a] + seconds))
  }

  /** What moving on means for the accounts: the new one is another one that was never limited or whose
      cooldown is over, and every account met before it, going round, is the failed one or still cooling. */
  lemma {:induction false} MovesToNextHealthy(limited: seq<Time>, cursor: nat, failed: nat, now: Time, seconds: int, next: nat)
    requires failed < |limited| && FirstUsable(limited, Start(cursor, failed, |limited|), failed, now, seconds, next)
    ensures next < |limited| && next != failed && (limited[next] == 0 || now >= limited[next] + seconds)
    ensures exists i: nat :: i < |limited| && Around(From(cursor, failed), i, |limited|) == next
              && forall h: nat :: h < i ==> OutOfService(limited, failed, now, seconds, Around(From(cursor, failed), h, |limited|))
  {
    var size := |limited|;
    var i: nat :| i < size && Around(Start(cursor, failed, size), i, size) == next
      && forall h: nat :: h < i ==> !Usable(limited, failed, now, seconds, Around(Start(cursor, failed, size), h, size));
    SameCycle(From(cursor, failed), size, i);
    hide Around;
    forall h: nat | h < i ensures OutOfService(limited, failed, now, seconds, Around(From(cursor, failed), h, size)) {
      SameCycle(From(cursor, failed), size, h);
      assert !Usable(limited, failed, now, seconds, Around(Start(cursor, failed, size), h, size));
    }
  }

  // ---------------------------------------------------------------- successive failures

  /** One failure of the account under the cursor that found another to move to. */
  ghost predicate Rotated(limited: seq<Time>, cursor: nat, now: Time, seconds: int, limited': seq<Time>, cursor': nat)
  {
    && cursor < |limited| && limited' == limited[cursor := now]
    && FirstUsable(limited, Start(cursor, cursor, |limited|), cursor, now, seconds, cursor')
  }

  /** The clock does not go back, and all readings fall within one cooldown of the first. */
  predicate WithinCooldown(nows: seq<Time>, seconds: int)
  {
    && nows != [] && nows[0] > 0
    && (forall i, j :: 0 <= i < j < |nows| ==> nows[i] <= nows[j])
    && forall i :: 0 <= i < |nows| ==> nows[i] < nows[0] + seconds
  }

  /** The pool and the cursor after each of a series of failures, and when each failure was seen. */
  ghost predicate Series(pools: seq<seq<Time>>, cursors: seq<nat>, nows: seq<Time>, seconds: int)
  {
    && |pools| == |cursors| == |nows| > 0
    && forall i :: 0 <= i < |pools| - 1 ==> Rotated(pools[i], cursors[i], nows[i], seconds, pools[i + 1], cursors[i + 1])
  }

  /** A stamp stays, or gives way to a later one of the series. */
  lemma {:induction false} StampsStay(pools: seq<seq<Time>>, cursors: seq<nat>, nows: seq<Time>, seconds: int, i: nat, j: nat)
    requires Series(pools, cursors, nows, seconds) && WithinCooldown(nows, seconds) && i < j < |pools|
    ensures |pools[j]| == |pools[i]| && cursors[i] < |pools[j]| && nows[0] <= pools[j][cursors[i]] <= nows[j - 1]
    decreases j - i
  {
    assert Rotated(pools[j - 1], cursors[j - 1], nows[j - 1], seconds, pools[j], cursors[j]);
    if i < j - 1 {
      StampsStay(pools, cursors, nows, seconds, i, j - 1);
    }
  }

  /** Accounts that fail one after the other within a cooldown are all different, so the rotation
      ends after as many failures as there are accounts. */
  lemma {:induction false} RotationNeverReturns(pools: seq<seq<Time>>, cursors: seq<nat>, nows: seq<Time>, seconds: int, i: nat, j: nat)
    requires Series(pools, cursors, nows, seconds) && WithinCooldown(nows, seconds) && i < j < |pools|
    ensures cursors[i] != cursors[j]
  {
    assert Rotated(pools[j - 1], cursors[j - 1], nows[j - 1], seconds, pools[j], cursors[j]);
    if i < j - 1 {
      StampsStay(pools, cursors, nows, seconds, i, j - 1);
      assert nows[j - 1] < nows[0] + seconds;
    }
  }

  lemma {:induction false} RotationEnds(pools: seq<seq<Time>>, cursors: seq<nat>, nows: seq<Time>, seconds: int)
    requires Series(pools, cursors, nows, seconds) && WithinCooldown(nows, seconds) && cursors[0] < |pools[0]|
    ensures |cursors| <= |pools[0]|
  {
    forall i | 0 <= i < |cursors| ensures cursors[i] < |pools[0]| {
      if i > 0 {
        StampsStay(pools, cursors, nows, seconds, 0, i);
        assert Rotated(pools[i - 1], cursors[i - 1], nows[i - 1], seconds, pools[i], cursors[i]);
        if i > 1 {
          StampsStay(pools, cursors, nows, seconds, 0, i - 1);
        }
      }
    }
    forall i, j | 0 <= i < j < |cursors| ensures cursors[i] != cursors[j] {
      RotationNeverReturns(pools, cursors, nows, seconds, i, j);
    }
    Pigeonhole(cursors, UpTo(|pools[0]|));
  }

  function UpTo(n: nat): (r: set<nat>)
    ensures |r| == n && forall k: nat :: k in r <==> k < n
  {
    if n == 0 then {} else UpTo(n - 1) + {n - 1}
  }

  lemma {:induction false} Pigeonhole(s: seq<nat>, bound: set<nat>)
    requires forall i :: 0 <= i < |s| ==> s[i] in bound
    requires forall i, j :: 0 <= i < j < |s| ==> s[i] != s[j]
    ensures |s| <= |bound|
  {
    if s != [] {
      var last := s[|s| - 1];
      Pigeonhole(s[..|s| - 1], bound - {last});
    }
  }
}
