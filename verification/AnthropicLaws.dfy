/** What each upstream event does to the client's stream, said of the events alone. */
module AnthropicLaws {
  import opened Common
  import opened AnthropicEvents
  import opened AnthropicProofs

  /** What the `j`-th event sends. */
  function Sent(events: seq<Upstream>, j: nat): seq<Event>
    requires j < |events|
  {
    Handled(Ran(events[..j]).0, events[j]).1
  }

  /** The id a delta or a stop goes by. */
  function Reference(ev: Upstream): string
    requires ev.TextDelta? || ev.ToolDelta? || ev.ItemDone?
  {
    if ev.TextDelta? then ev.item else if ev.item != "" then ev.item else ev.call
  }

  // ---------------------------------------------------------------- failing

  /** An event that cannot be used after `events`. */
  predicate Unusable(events: seq<Upstream>, ev: Upstream)
  {
    match ev
    case Created(id) => id == ""
    case ItemAdded(item, kind, call, name) =>
      item == "" || (kind != "message" && kind != "function_call") || (kind == "function_call" && (call == "" || name == ""))
    case TextDelta(_, _) => Reference(ev) !in Keys(events)
    case ToolDelta(_, _, _) => Reference(ev) !in Keys(events)
    case ItemDone(_, _) => Reference(ev) !in Keys(events)
    case Completed(_) => false
    case Quiet => false
    case _ => true
  }

  /** The stream fails exactly at the first event that is malformed, reports a failure, or refers to an item
      nobody announced; only a reported failure is told to the client. */
  lemma {:induction false} FailsExactly(events: seq<Upstream>, ev: Upstream)
    requires !Ran(events).0.failed
    ensures Ran(events + [ev]).0.failed <==> Unusable(events, ev)
    ensures var more := Ran(events + [ev]).1[|Ran(events).1|..];
      && Ran(events).1 <= Ran(events + [ev]).1
      && (ev.Failing? ==> more == [ErrorEvent(ev.message)])
      && (!ev.Failing? ==> forall k :: 0 <= k < |more| ==> !more[k].ErrorEvent?)
      && (ev.Quiet? || (Unusable(events, ev) && !ev.Failing? && !ev.ItemAdded? && !ev.MalformedCompleted?) ==> more == [])
      // a completion or an item that turns out unusable has begun the message all the same
      && (ev.MalformedCompleted? || (Unusable(events, ev) && ev.ItemAdded? && ev.item != "") ==>
            if Ran(events).0.started then more == [] else |more| == 1 && more[0].MessageStart?)
  {
    KnownKeys(events);
    RanSnoc(events, ev);
    var s := Ran(events).0;
    StopsHaveNoStarts(s.active);
    hide Ran, Keys, Stops, Bound;
    assert Ran(events + [ev]).1[|Ran(events).1|..] == Handled(s, ev).1;
  }

  // ---------------------------------------------------------------- blocks

  /** No item brings an id that was known before it. */
  predicate FreshKeys(events: seq<Upstream>)
  {
    events == [] ||
    var init, last := events[..|events| - 1], events[|events| - 1];
    FreshKeys(init) && KeysOf(last) !! Keys(init)
  }

  lemma {:induction false} NeverFailedBefore(events: seq<Upstream>, j: nat)
    requires j <= |events| && !Ran(events).0.failed
    ensures !Ran(events[..j]).0.failed
  {
    hide Ran;
    if Ran(events[..j]).0.failed {
      assert events == events[..j] + events[j..];
      SilentAfterError(events[..j], events[j..]);
    }
  }

  lemma {:induction false} KeysGrow(events: seq<Upstream>, i: nat)
    requires i < |events|
    ensures KeysOf(events[i]) <= Keys(events)
  {
    if i < |events| - 1 {
      KeysGrow(events[..|events| - 1], i);
    }
  }

  predicate Binds(s: Stream, key: string, index: nat)
  {
    key in s.indices && s.indices[key] == index
  }

  lemma NewBinding(init: seq<Upstream>, last: Upstream, key: string)
    requires !Ran(init).0.failed && !Ran(init + [last]).0.failed && last.ItemAdded? && key in KeysOf(last)
    ensures Binds(Ran(init + [last]).0, key, |Keys(init)|)
  {
    hide Ran, Handled, Keys, KeysOf;
    RanSnoc(init, last);
    KnownKeys(init);
    assert |Ran(init).0.indices| == |Ran(init).0.indices.Keys|;
    BindsAnew(Ran(init).0, last, key);
  }

  lemma OldBinding(init: seq<Upstream>, last: Upstream, key: string, index: nat)
    requires Binds(Ran(init).0, key, index) && key !in KeysOf(last)
    ensures Binds(Ran(init + [last]).0, key, index)
  {
    hide Ran, Handled, KeysOf;
    RanSnoc(init, last);
    KeepsBinding(Ran(init).0, last, key);
  }

  lemma FreshSnoc(events: seq<Upstream>)
    requires events != [] && FreshKeys(events)
    ensures FreshKeys(events[..|events| - 1]) && KeysOf(events[|events| - 1]) !! Keys(events[..|events| - 1])
  {
    hide Keys, KeysOf;
  }

  /** While the stream has not failed, an id stands for the block of the item that brought it, whose index is
      the number of ids known before that item. */
  lemma {:induction false} IdsStandForTheirBlock(events: seq<Upstream>, i: nat, key: string)
    requires FreshKeys(events) && i < |events| && events[i].ItemAdded? && key in KeysOf(events[i]) && !Ran(events).0.failed
    ensures Binds(Ran(events).0, key, |Keys(events[..i])|)
  {
    hide Ran, Keys, FreshKeys, KeysOf, Binds;
    var init, last := events[..|events| - 1], events[|events| - 1];
    assert events == init + [last];
    FreshSnoc(events);
    NeverFailedBefore(events, |events| - 1);
    if i < |init| {
      assert init[..i] == events[..i] && init[i] == events[i];
      IdsStandForTheirBlock(init, i, key);
      KeysGrow(init, i);
      OldBinding(init, last, key, |Keys(events[..i])|);
    } else {
      assert events[..i] == init;
      NewBinding(init, last, key);
    }
  }

  lemma BindsAnew(s: Stream, ev: Upstream, key: string)
    requires !s.failed && ev.ItemAdded? && key in KeysOf(ev) && !Handled(s, ev).0.failed
    ensures key in Handled(s, ev).0.indices && Handled(s, ev).0.indices[key] == |s.indices|
  {
  }

  lemma KeepsBinding(s: Stream, ev: Upstream, key: string)
    requires key in s.indices && key !in KeysOf(ev)
    ensures key in Handled(s, ev).0.indices && Handled(s, ev).0.indices[key] == s.indices[key]
  {
    hide Stops;
  }

  /** An item opens the block its ids stand for, as a tool call with its id and name or as text. */
  lemma {:induction false} ItemOpensItsBlock(events: seq<Upstream>, i: nat)
    requires i < |events| && !Ran(events[..i + 1]).0.failed && events[i].ItemAdded?
    ensures var ev, sent := events[i], Sent(events, i);
      && sent != []
      && sent[|sent| - 1] == BlockStart(|Keys(events[..i])|, if ev.kind == "function_call" then Some((ev.call, ev.name)) else None)
      && (forall k :: 0 <= k < |sent| - 1 ==> sent[k].MessageStart?)
  {
    assert events[..i + 1] == events[..i] + [events[i]];
    RanSnoc(events[..i], events[i]);
    NeverFailedBefore(events[..i + 1], i);
    assert events[..i + 1][..i] == events[..i];
    KnownKeys(events[..i]);
    assert |Ran(events[..i]).0.indices| == |Ran(events[..i]).0.indices.Keys|;
    hide Ran, Keys;
  }

  /** A delta is sent, unaltered, to the block of the item it refers to. */
  lemma {:induction false} DeltasReachTheirBlock(events: seq<Upstream>, i: nat, j: nat)
    requires i < j < |events| && FreshKeys(events[..j]) && !Ran(events[..j]).0.failed && events[i].ItemAdded?
    requires events[j].TextDelta? || events[j].ToolDelta?
    requires Reference(events[j]) in KeysOf(events[i])
    ensures Sent(events, j) == [BlockDelta(|Keys(events[..i])|, events[j].ToolDelta?, events[j].text)]
  {
    hide Ran, Keys, FreshKeys, KeysOf;
    assert events[..j][..i] == events[..i] && events[..j][i] == events[i];
    IdsStandForTheirBlock(events[..j], i, Reference(events[j]));
    BoundDelta(Ran(events[..j]).0, events[j], |Keys(events[..i])|);
  }

  lemma BoundDelta(s: Stream, ev: Upstream, index: nat)
    requires !s.failed && (ev.TextDelta? || ev.ToolDelta?) && Binds(s, Reference(ev), index)
    ensures Handled(s, ev).1 == [BlockDelta(index, ev.ToolDelta?, ev.text)]
  {
  }

  /** An item that is done stops its block, unless that has been stopped. */
  lemma {:induction false} DoneStopsItsBlock(events: seq<Upstream>, i: nat, j: nat)
    requires i < j < |events| && FreshKeys(events[..j]) && !Ran(events[..j]).0.failed && events[i].ItemAdded?
    requires events[j].ItemDone? && Reference(events[j]) in KeysOf(events[i])
    ensures var index := |Keys(events[..i])|;
      Sent(events, j) == if index in Open(Ran(events[..j]).1) then [BlockStop(index)] else []
  {
    RanFits(events[..j]);
    hide Ran, Keys, FreshKeys, KeysOf, Legal, Open, UsesTool, Announces;
    assert events[..j][..i] == events[..i] && events[..j][i] == events[i];
    IdsStandForTheirBlock(events[..j], i, Reference(events[j]));
  }

  // ---------------------------------------------------------------- the message

  lemma {:induction false} OutputGrows(events: seq<Upstream>, j: nat)
    requires j <= |events|
    ensures Ran(events[..j]).1 <= Ran(events).1
  {
    if j < |events| {
      OutputGrows(events[..|events| - 1], j);
      assert events[..|events| - 1][..j] == events[..j];
    } else {
      assert events[..j] == events;
    }
  }

  /** The message goes by the id of the response that began it. */
  lemma {:induction false} MessageCarriesId(events: seq<Upstream>, id: string)
    requires events != [] && events[0] == Created(id) && id != ""
    ensures Ran(events).1 != [] && Ran(events).1[0] == MessageStart(id)
  {
    OutputGrows(events, 1);
    assert events[..1] == [] + [events[0]];
    RanSnoc([], events[0]);
    assert Ran([]) == (FRESH_STREAM, []);
  }

  lemma {:induction false} StopsAreSorted(open: set<nat>)
    ensures forall k :: 0 <= k < |Stops(open)| ==> Stops(open)[k].BlockStop? && Stops(open)[k].index in open
    ensures forall index :: index in open ==> BlockStop(index) in Stops(open)
    ensures forall j, k :: 0 <= j < k < |Stops(open)| ==> Stops(open)[j].index < Stops(open)[k].index
    decreases |open|
  {
    if open != {} {
      var least := Least(open);
      var rest := Stops(open - {least});
      StopsAreSorted(open - {least});
      assert Stops(open) == [BlockStop(least)] + rest;
      forall index | index in open ensures BlockStop(index) in Stops(open) {
        if index != least {
          assert BlockStop(index) in rest;
        }
      }
    }
  }

  /** A completed response ends the message: every open block is stopped, in order, then the usage is reported
      as received and the message stops. */
  lemma {:induction false} CompletionEndsTheMessage(events: seq<Upstream>, j: nat, tokens: int)
    requires j < |events| && events[j] == Completed(tokens) && !Ran(events[..j]).0.failed
    ensures var sent, open := Sent(events, j), Open(Ran(events[..j]).1);
      && |sent| >= 2 && sent[|sent| - 1] == MessageStop
      && sent[|sent| - 2] == MessageDelta(UsesTool(Ran(events[..j]).1), tokens)
      && (forall k :: 0 <= k < |sent| - 2 ==> sent[k].MessageStart? || (sent[k].BlockStop? && sent[k].index in open))
      && (forall index :: index in open ==> BlockStop(index) in sent)
      && (forall k, l :: 0 <= k < l < |sent| && sent[k].BlockStop? && sent[l].BlockStop? ==> sent[k].index < sent[l].index)
  {
    RanFits(events[..j]);
    var s := Ran(events[..j]).0;
    hide Ran, Legal, Open, UsesTool, Announces, Stops;
    CompletedShape(s, tokens);
  }

  lemma CompletedShape(s: Stream, tokens: int)
    ensures var sent := AfterCompleted(s, tokens).1;
      && |sent| >= 2 && sent[|sent| - 1] == MessageStop && sent[|sent| - 2] == MessageDelta(s.hadToolUse, tokens)
      && (forall k :: 0 <= k < |sent| - 2 ==> sent[k].MessageStart? || (sent[k].BlockStop? && sent[k].index in s.active))
      && (forall index :: index in s.active ==> BlockStop(index) in sent)
      && (forall k, l :: 0 <= k < l < |sent| && sent[k].BlockStop? && sent[l].BlockStop? ==> sent[k].index < sent[l].index)
  {
    StopsAreSorted(s.active);
    hide Stops;
    var sent, a, b := AfterCompleted(s, tokens).1, StartEvents(s), Stops(s.active);
    assert sent == a + b + [MessageDelta(s.hadToolUse, tokens), MessageStop];
    forall index | index in s.active ensures BlockStop(index) in sent {
      assert BlockStop(index) in b;
    }
    forall k | 0 <= k < |sent| ensures sent[k].BlockStop? <==> |a| <= k < |a| + |b| {
    }
    forall k | |a| <= k < |a| + |b| ensures sent[k] == b[k - |a|] {
    }
  }

  /** The `k`-th event completes the response. */
  predicate Completes(events: seq<Upstream>, k: nat)
    requires k < |events|
  {
    events[k].Completed? && !Ran(events[..k]).0.failed
  }

  lemma CompletesInit(events: seq<Upstream>, k: nat)
    requires k < |events| - 1
    ensures Completes(events, k) <==> Completes(events[..|events| - 1], k)
  {
    hide Ran;
    assert events[..|events| - 1][..k] == events[..k];
  }

  ghost predicate SomeCompletes(events: seq<Upstream>)
  {
    exists k: nat :: k < |events| && Completes(events, k)
  }

  lemma SomeCompletesSnoc(events: seq<Upstream>)
    requires events != []
    ensures SomeCompletes(events) <==> SomeCompletes(events[..|events| - 1]) || Completes(events, |events| - 1)
  {
    hide Completes;
    var init, n := events[..|events| - 1], |events| - 1;
    if SomeCompletes(init) {
      var k: nat :| k < |init| && Completes(init, k);
      CompletesInit(events, k);
    }
    if SomeCompletes(events) && !Completes(events, n) {
      var k: nat :| k < |events| && Completes(events, k);
      CompletesInit(events, k);
    }
  }

  /** A stream is finished exactly when a completed response was handled. */
  lemma {:induction false} EndedExactly(events: seq<Upstream>)
    ensures Ran(events).0.ended <==> exists k: nat :: k < |events| && events[k].Completed? && !Ran(events[..k]).0.failed
  {
    EndedWhenCompleted(events);
    if SomeCompletes(events) {
      var k: nat :| k < |events| && Completes(events, k);
      assert events[k].Completed? && !Ran(events[..k]).0.failed;
    }
    hide Ran;
    if k: nat :| k < |events| && events[k].Completed? && !Ran(events[..k]).0.failed {
      assert Completes(events, k);
    }
  }

  lemma {:induction false} EndedWhenCompleted(events: seq<Upstream>)
    ensures Ran(events).0.ended <==> SomeCompletes(events)
  {
    if events != [] {
      var init, last := events[..|events| - 1], events[|events| - 1];
      EndedWhenCompleted(init);
      assert events == init + [last];
      hide Ran, Handled, SomeCompletes;
      RanSnoc(init, last);
      EndedStep(Ran(init).0, last);
      SomeCompletesSnoc(events);
    }
  }

  lemma EndedStep(s: Stream, ev: Upstream)
    ensures Handled(s, ev).0.ended <==> s.ended || (!s.failed && ev.Completed?)
  {
    hide Stops, Bound;
  }
}
