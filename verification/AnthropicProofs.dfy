/** What holds of every translated stream, and when block indices keep increasing. */
module AnthropicProofs {
  import opened Common
  import opened AnthropicEvents

  /** Every stream obeys the message grammar: message_start first and once, every stop closes an
      open block, every message_stop finds no block open and follows a message_delta whose stop
      reason says whether a tool was used, and nothing follows an error. */
  lemma {:induction false} StreamIsLegal(events: seq<Upstream>)
    ensures Legal(Ran(events).1)
    ensures forall k :: 0 <= k < |Ran(events).1| ==> (Ran(events).1[k].MessageStart? ==> k == 0)
    ensures var out := Ran(events).1; out != [] ==> out[0].MessageStart? || out[0].ErrorEvent?
  {
    RanFits(events);
    var out := Ran(events).1;
    forall k | 0 <= k < |out| ensures out[k].MessageStart? ==> k == 0 {
      assert MayFollow(out[..k], out[k]);
    }
    if out != [] {
      assert MayFollow(out[..0], out[0]);
    }
  }

  /** The error is sticky: whatever arrives after it, nothing more is emitted. */
  lemma {:induction false} SilentAfterError(events: seq<Upstream>, more: seq<Upstream>)
    requires Ran(events).0.failed
    ensures Ran(events + more) == Ran(events)
  {
    hide Handled, Ran;
    if more == [] {
      assert events + more == events;
    } else {
      var init := more[..|more| - 1];
      SilentAfterError(events, init);
      assert events + more == (events + init) + [more[|more| - 1]];
      RanSnoc(events + init, more[|more| - 1]);
      FailedStutters(Ran(events).0, more[|more| - 1]);
      assert Ran(events).1 + [] == Ran(events).1;
      assert Ran(events + more) == (Ran(events + more).0, Ran(events + more).1);
    }
  }

  lemma FailedStutters(s: Stream, ev: Upstream)
    requires s.failed
    ensures Handled(s, ev) == (s, [])
  {
  }

  // ---------------------------------------------------------------- block indices

  /** The ids an item makes known. */
  function KeysOf(ev: Upstream): set<string>
  {
    if ev.ItemAdded? then {ev.item} + (if ev.kind == "function_call" then {ev.call} else {}) else {}
  }

  function Keys(events: seq<Upstream>): set<string>
  {
    if events == [] then {} else Keys(events[..|events| - 1]) + KeysOf(events[|events| - 1])
  }

  /** `ev` arrives after `events` and starts a block. */
  predicate Accepted(events: seq<Upstream>, ev: Upstream)
  {
    !Ran(events).0.failed && Usable(ev)
  }

  /** The latest item to start a block brought no id that was not known already. */
  predicate Stale(events: seq<Upstream>)
  {
    events != [] &&
    var init, last := events[..|events| - 1], events[|events| - 1];
    if Accepted(init, last) then KeysOf(last) <= Keys(init) else Stale(init)
  }

  /** No item starts a block right after one that brought no new id. */
  predicate NoReuse(events: seq<Upstream>)
  {
    events == [] ||
    var init, last := events[..|events| - 1], events[|events| - 1];
    NoReuse(init) && (Accepted(init, last) ==> !Stale(init))
  }

  function Starts(out: seq<Event>): seq<nat>
  {
    if out == [] then []
    else Starts(out[..|out| - 1]) + if out[|out| - 1].BlockStart? then [out[|out| - 1].index] else []
  }

  predicate Increasing(s: seq<nat>)
  {
    forall i, j :: 0 <= i < j < |s| ==> s[i] < s[j]
  }

  lemma {:induction false} StartsAppend(a: seq<Event>, b: seq<Event>)
    ensures Starts(a + b) == Starts(a) + Starts(b)
  {
    if b == [] {
      assert a + b == a;
    } else {
      StartsAppend(a, b[..|b| - 1]);
      assert (a + b)[..|a + b| - 1] == a + b[..|b| - 1];
    }
  }

  lemma {:induction false} NoStarts(out: seq<Event>)
    requires forall k :: 0 <= k < |out| ==> !out[k].BlockStart?
    ensures Starts(out) == []
  {
    if out != [] {
      NoStarts(out[..|out| - 1]);
    }
  }

  lemma {:induction false} StopsHaveNoStarts(open: set<nat>)
    ensures forall k :: 0 <= k < |Stops(open)| ==> Stops(open)[k].BlockStop?
    decreases |open|
  {
    if open != {} {
      StopsHaveNoStarts(open - {Least(open)});
    }
  }

  /** One event starts one block if it is a usable item, and none otherwise. */
  lemma StepStarts(s: Stream, ev: Upstream)
    ensures Starts(Handled(s, ev).1) == if !s.failed && Usable(ev) then [|s.indices|] else []
  {
    hide Stops;
    var more := Handled(s, ev).1;
    if !s.failed && Usable(ev) {
      assert Starts(more[..|more| - 1]) == [] by { NoStarts(more[..|more| - 1]); }
    } else {
      StopsHaveNoStarts(s.active);
      NoStarts(more);
    }
  }

  lemma {:induction false} KnownKeys(events: seq<Upstream>)
    ensures !Ran(events).0.failed ==> Ran(events).0.indices.Keys == Keys(events)
  {
    if events != [] {
      KnownKeys(events[..|events| - 1]);
      var s, ev := Ran(events[..|events| - 1]).0, events[|events| - 1];
      IndicesStep(s, ev);
    }
  }

  lemma IndicesStep(s: Stream, ev: Upstream)
    ensures var t := Handled(s, ev).0;
            && (!t.failed ==> !s.failed && t.indices.Keys == s.indices.Keys + KeysOf(ev))
            && (!s.failed && Usable(ev) ==> !t.failed)
            && (!s.failed && !t.failed && !Usable(ev) ==> t.indices == s.indices)
  {
    if ev.ItemAdded? {
      BoundKeys(s.indices, ev);
    }
    hide Stops, Bound;
  }

  lemma BoundKeys(indices: map<string, nat>, ev: Upstream)
    requires ev.ItemAdded?
    ensures Usable(ev) ==> Bound(indices, ev).Keys == indices.Keys + KeysOf(ev)
  {
  }

  lemma Growth(known: set<string>, more: set<string>)
    ensures |known| <= |known + more|
    ensures |known| < |known + more| <==> !(more <= known)
  {
    assert known + more == known + (more - known);
    assert |known + (more - known)| == |known| + |more - known|;
    assert more - known == {} <==> more <= known;
  }

  /** The size of the index map is the next index; it exceeds the latest one unless that is stale. */
  ghost predicate Counted(events: seq<Upstream>)
  {
    var (s, out) := Ran(events);
    var starts := Starts(out);
    && (Increasing(starts) <==> NoReuse(events))
    && (starts == [] ==> !Stale(events))
    && (starts != [] && !s.failed ==>
          starts[|starts| - 1] <= |s.indices| && (starts[|starts| - 1] < |s.indices| <==> !Stale(events)))
  }

  lemma IncreasingSnoc(s: seq<nat>, x: nat)
    ensures Increasing(s + [x]) <==> Increasing(s) && (s != [] ==> s[|s| - 1] < x)
  {
    var t := s + [x];
    if Increasing(t) {
      assert forall i, j :: 0 <= i < j < |s| ==> s[i] == t[i] && s[j] == t[j];
      assert s != [] ==> t[|s| - 1] < t[|s|];
    }
  }

  lemma {:induction false} EveryRunIsCounted(events: seq<Upstream>)
    ensures Counted(events)
  {
    hide Handled, Starts, Usable, Keys, KeysOf;
    if events == [] {
      NoStarts([]);
    } else {
      var init, ev := events[..|events| - 1], events[|events| - 1];
      EveryRunIsCounted(init);
      assert events == init + [ev];
      var (s, out) := Ran(init);
      RanSnoc(init, ev);
      StartsAppend(out, Handled(s, ev).1);
      StepStarts(s, ev);
      IndicesStep(s, ev);
      KnownKeys(init);
      Growth(s.indices.Keys, KeysOf(ev));
      assert |s.indices| == |s.indices.Keys|;
      var t := Ran(events).0;
      assert |t.indices| == |t.indices.Keys|;
      IncreasingSnoc(Starts(out), |s.indices|);
      assert Starts(out) + [] == Starts(out);
      if s.failed {
        FailedStutters(s, ev);
      }
    }
  }

  /** Block indices strictly increase exactly when no item starts a block after one whose ids were
      all known before it: a condition on the upstream events. */
  lemma {:induction false} IndicesIncreaseExactly(events: seq<Upstream>)
    ensures Increasing(Starts(Ran(events).1)) <==> NoReuse(events)
  {
    EveryRunIsCounted(events);
  }

  /** No item repeats the id of an earlier item or call. */
  predicate FreshItems(events: seq<Upstream>)
  {
    events == [] ||
    var init, last := events[..|events| - 1], events[|events| - 1];
    FreshItems(init) && (last.ItemAdded? ==> last.item !in Keys(init))
  }

  lemma {:induction false} FreshItemsAreNotStale(events: seq<Upstream>)
    requires FreshItems(events)
    ensures NoReuse(events) && !Stale(events)
  {
    hide Ran;
    if events != [] {
      FreshItemsAreNotStale(events[..|events| - 1]);
    }
  }

  lemma {:induction false} IndicesIncrease(events: seq<Upstream>)
    requires FreshItems(events)
    ensures Increasing(Starts(Ran(events).1))
  {
    FreshItemsAreNotStale(events);
    IndicesIncreaseExactly(events);
  }

  function Message(item: string): Upstream
  {
    ItemAdded(item, "message", "", "")
  }

  /** Repeating an item id gives two later blocks the same index. */
  lemma {:induction false} RepeatedItemReusesIndex(a: string, b: string)
    requires a != "" && b != "" && a != b
    ensures Starts(Ran([Message(a), Message(a), Message(b)]).1) == [0, 1, 1]
  {
    hide Handled, Starts, Message;
    var x, y := Message(a), Message(b);
    assert [] + [x] == [x] && [x] + [x] == [x, x] && [x, x] + [y] == [x, x, y];
    assert Ran([]) == (FRESH_STREAM, []);
    hide Ran;
    RanSnoc([], x);
    RanSnoc([x], x);
    RanSnoc([x, x], y);
    var s1, s2 := Ran([x]).0, Ran([x, x]).0;
    MessageItem(FRESH_STREAM, a);
    MessageItem(s1, a);
    assert s1.indices == map[a := 0] && s2.indices == map[a := 1];
    MessageItem(s2, b);
    NoStarts([]);
    StartsAppend([], Handled(FRESH_STREAM, x).1);
    StartsAppend(Ran([x]).1, Handled(s1, x).1);
    StartsAppend(Ran([x, x]).1, Handled(s2, y).1);
  }

  lemma MessageItem(s: Stream, item: string)
    requires !s.failed && item != ""
    ensures var ev := Message(item);
            && !Handled(s, ev).0.failed && Handled(s, ev).0.indices == s.indices[item := |s.indices|]
            && Starts(Handled(s, ev).1) == [|s.indices|]
  {
    StepStarts(s, Message(item));
  }

  // ---------------------------------------------------------------- stops

  lemma {:induction false} OpenWasStarted(out: seq<Event>, index: nat)
    requires index in Open(out)
    ensures exists i :: 0 <= i < |out| && out[i].BlockStart? && out[i].index == index &&
              forall k :: i <= k < |out| ==> out[k] != BlockStop(index)
  {
    var init, last := out[..|out| - 1], out[|out| - 1];
    if last.BlockStart? && last.index == index {
      assert out[|out| - 1].BlockStart?;
    } else {
      OpenWasStarted(init, index);
      var i :| 0 <= i < |init| && init[i].BlockStart? && init[i].index == index &&
        forall k :: i <= k < |init| ==> init[k] != BlockStop(index);
      assert out[i] == init[i];
      assert forall k :: i <= k < |init| ==> out[k] == init[k];
    }
  }

  /** Every stop matches an earlier start of its block with no other stop in between: a block is
      never stopped twice without being started again. */
  lemma {:induction false} StopMatchesStart(events: seq<Upstream>, k: nat)
    requires k < |Ran(events).1| && Ran(events).1[k].BlockStop?
    ensures var out := Ran(events).1;
            exists i :: 0 <= i < k && out[i].BlockStart? && out[i].index == out[k].index &&
              forall j :: i <= j < k ==> out[j] != out[k]
  {
    StreamIsLegal(events);
    hide Ran;
    var out := Ran(events).1;
    assert MayFollow(out[..k], out[k]);
    OpenWasStarted(out[..k], out[k].index);
    var i :| 0 <= i < |out[..k]| && out[..k][i].BlockStart? && out[..k][i].index == out[k].index &&
      forall j :: i <= j < |out[..k]| ==> out[..k][j] != BlockStop(out[k].index);
    assert out[i] == out[..k][i];
    assert forall j :: i <= j < k ==> out[..k][j] == out[j];
  }

  lemma {:induction false} StartsContain(out: seq<Event>, i: nat, j: nat)
    requires i < j < |out| && out[i].BlockStart? && out[j].BlockStart? && Increasing(Starts(out))
    ensures out[i].index < out[j].index
    decreases |out|
  {
    var init, last := out[..|out| - 1], out[|out| - 1];
    if last.BlockStart? {
      IncreasingSnoc(Starts(init), last.index);
    } else {
      assert Starts(out) == Starts(init);
    }
    if j < |out| - 1 {
      StartsContain(init, i, j);
    } else {
      StartIsListed(init, i);
      var k :| 0 <= k < |Starts(init)| && Starts(init)[k] == init[i].index;
      assert Starts(out)[k] == init[i].index && Starts(out)[|Starts(init)|] == last.index;
    }
  }

  lemma {:induction false} StartIsListed(out: seq<Event>, i: nat)
    requires i < |out| && out[i].BlockStart?
    ensures exists k :: 0 <= k < |Starts(out)| && Starts(out)[k] == out[i].index
  {
    var init := out[..|out| - 1];
    if i < |out| - 1 {
      StartIsListed(init, i);
      var k :| 0 <= k < |Starts(init)| && Starts(init)[k] == init[i].index;
      assert Starts(out)[k] == out[i].index;
    } else {
      assert Starts(out)[|Starts(init)|] == out[i].index;
    }
  }

  /** With item ids that never repeat, every block is stopped at most once. */
  lemma {:induction false} BlocksStopOnce(events: seq<Upstream>, j: nat, k: nat)
    requires FreshItems(events)
    requires j < k < |Ran(events).1| && Ran(events).1[j].BlockStop? && Ran(events).1[k].BlockStop?
    ensures Ran(events).1[j].index != Ran(events).1[k].index
  {
    IndicesIncrease(events);
    StopMatchesStart(events, j);
    StopMatchesStart(events, k);
    hide Ran, Starts, Increasing;
    var out := Ran(events).1;
    if out[j].index == out[k].index {
      var a :| 0 <= a < j && out[a].BlockStart? && out[a].index == out[j].index;
      var b :| 0 <= b < k && out[b].BlockStart? && out[b].index == out[k].index && forall i :: b <= i < k ==> out[i] != out[k];
      assert out[j] == out[k];
      StartsContain(out, a, b);
    }
  }

  // ---------------------------------------------------------------- deltas

  function SentTexts(events: seq<Upstream>): seq<(bool, string)>
  {
    if events == [] then []
    else
      var last := events[|events| - 1];
      SentTexts(events[..|events| - 1])
      + (if last.TextDelta? then [(false, last.text)] else if last.ToolDelta? then [(true, last.text)] else [])
  }

  function EmittedTexts(out: seq<Event>): seq<(bool, string)>
  {
    if out == [] then []
    else
      var last := out[|out| - 1];
      EmittedTexts(out[..|out| - 1]) + if last.BlockDelta? then [(last.json, last.text)] else []
  }

  lemma {:induction false} EmittedAppend(a: seq<Event>, b: seq<Event>)
    ensures EmittedTexts(a + b) == EmittedTexts(a) + EmittedTexts(b)
  {
    if b == [] {
      assert a + b == a;
    } else {
      EmittedAppend(a, b[..|b| - 1]);
      assert (a + b)[..|a + b| - 1] == a + b[..|b| - 1];
    }
  }

  lemma {:induction false} NoDeltas(out: seq<Event>)
    requires forall k :: 0 <= k < |out| ==> !out[k].BlockDelta?
    ensures EmittedTexts(out) == []
  {
    if out != [] {
      NoDeltas(out[..|out| - 1]);
    }
  }

  lemma StepTexts(s: Stream, ev: Upstream)
    ensures EmittedTexts(Handled(s, ev).1) ==
              if Handled(s, ev).0.failed then []
              else if ev.TextDelta? then [(false, ev.text)] else if ev.ToolDelta? then [(true, ev.text)] else []
  {
    hide Stops;
    var more := Handled(s, ev).1;
    StopsHaveNoStarts(s.active);
    if |more| == 1 && more[0].BlockDelta? {
      assert more[..0] == [];
    } else {
      NoDeltas(more);
    }
  }

  /** Text is conserved: the deltas emitted are the deltas received, in order, none altered, added
      or dropped until the stream fails. */
  lemma {:induction false} TextIsConserved(events: seq<Upstream>)
    ensures EmittedTexts(Ran(events).1) <= SentTexts(events)
    ensures !Ran(events).0.failed ==> EmittedTexts(Ran(events).1) == SentTexts(events)
  {
    hide Handled, EmittedTexts;
    if events == [] {
      NoDeltas([]);
    } else {
      var init, ev := events[..|events| - 1], events[|events| - 1];
      TextIsConserved(init);
      var (s, out) := Ran(init);
      EmittedAppend(out, Handled(s, ev).1);
      StepTexts(s, ev);
      IndicesStep(s, ev);
      assert events == init + [ev];
    }
  }
}
