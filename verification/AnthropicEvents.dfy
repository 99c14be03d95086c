/**
 * Translating a Responses event stream into Anthropic message events
 * (src/anthropic_sse_events.go, src/anthropic_sse_finish.go).
 */
module AnthropicEvents {
  import opened Common

  /** A decoded upstream event. `Malformed` is any known event whose payload cannot be used, other
      than response.completed; `Failing` is an event that reports failure or is not supported. */
  datatype Upstream =
    | Created(id: string)
    | ItemAdded(item: string, kind: string, call: string, name: string)
    | TextDelta(item: string, text: string)
    | ToolDelta(item: string, call: string, text: string)
    | ItemDone(item: string, call: string)
    | Completed(tokens: int)
    | MalformedCompleted
    | Malformed
    | Quiet
    | Failing(message: string)

  datatype Event =
    | MessageStart(id: string)
    | BlockStart(index: nat, tool: Option<(string, string)>)
    | BlockDelta(index: nat, json: bool, text: string)
    | BlockStop(index: nat)
    | MessageDelta(toolUse: bool, tokens: int)
    | MessageStop
    | ErrorEvent(message: string)

  datatype Stream = Stream(
    id: string, started: bool, ended: bool, hadToolUse: bool,
    indices: map<string, nat>, active: set<nat>, failed: bool)

  const FRESH_STREAM := Stream("", false, false, false, map[], {}, false)

  predicate Usable(ev: Upstream)
  {
    && ev.ItemAdded? && ev.item != ""
    && (ev.kind == "message" || (ev.kind == "function_call" && ev.call != "" && ev.name != ""))
  }

  function StartEvents(s: Stream): seq<Event>
  {
    if s.started then [] else [MessageStart(s.id)]
  }

  /** The key under which a delta or a stop looks up its block. */
  function KeyOf(item: string, call: string): string
  {
    if item == "" then call else item
  }

  function Bound(indices: map<string, nat>, ev: Upstream): map<string, nat>
    requires ev.ItemAdded?
  {
    var index := |indices|;
    var withItem := indices[ev.item := index];
    if ev.kind == "function_call" && ev.call != "" && ev.name != "" then withItem[ev.call := index] else withItem
  }

  function AfterAdded(s: Stream, ev: Upstream): (Stream, seq<Event>)
    requires ev.ItemAdded?
  {
    if ev.item == "" then (s.(failed := true), [])
    else
      var t := s.(started := true, indices := Bound(s.indices, ev));
      var index := |s.indices|;
      if !Usable(ev) then (t.(failed := true), StartEvents(s))
      else
        var tool := ev.kind == "function_call";
        (t.(hadToolUse := s.hadToolUse || tool, active := s.active + {index}),
         StartEvents(s) + [BlockStart(index, if tool then Some((ev.call, ev.name)) else None)])
  }

  function AfterDelta(s: Stream, key: string, json: bool, text: string): (Stream, seq<Event>)
  {
    if key !in s.indices then (s.(failed := true), []) else (s, [BlockDelta(s.indices[key], json, text)])
  }

  function Stopped(s: Stream, index: nat): (Stream, seq<Event>)
  {
    if index in s.active then (s.(active := s.active - {index}), [BlockStop(index)]) else (s, [])
  }

  function AfterDone(s: Stream, key: string): (Stream, seq<Event>)
  {
    if key !in s.indices then (s.(failed := true), []) else Stopped(s, s.indices[key])
  }

  predicate IsLeast(open: set<nat>, r: nat)
  {
    r in open && forall other :: other in open ==> r <= other
  }

  /** The least element of a non-empty set of block indices. */
  function Least(open: set<nat>): (r: nat)
    requires open != {}
    ensures IsLeast(open, r)
  {
    LeastExists(open);
    var r :| r in open && IsLeast(open, r);
    r
  }

  lemma {:induction false} LeastExists(open: set<nat>)
    requires open != {}
    ensures exists r :: IsLeast(open, r)
    decreases |open|
  {
    var some :| some in open;
    var least := some;
    if open != {some} {
      LeastExists(open - {some});
      var r :| IsLeast(open - {some}, r);
      least := if r < some then r else some;
    }
    forall other | other in open ensures least <= other {
      assert other == some || other in open - {some};
    }
    assert IsLeast(open, least);
  }

  /** Stop events for the open blocks, in increasing order. */
  function Stops(open: set<nat>): seq<Event>
    decreases |open|
  {
    if open == {} then [] else [BlockStop(Least(open))] + Stops(open - {Least(open)})
  }

  function AfterCompleted(s: Stream, tokens: int): (Stream, seq<Event>)
  {
    (s.(started := true, active := {}, ended := true),
     StartEvents(s) + Stops(s.active) + [MessageDelta(s.hadToolUse, tokens), MessageStop])
  }

  /** handleEvent, behind the sticky error of Write. */
  function Handled(s: Stream, ev: Upstream): (Stream, seq<Event>)
  {
    if s.failed then (s, [])
    else
      match ev
      case Created(id) =>
        if id == "" then (s.(failed := true), [])
        else (s.(id := id, started := true), StartEvents(s.(id := id)))
      case ItemAdded(_, _, _, _) => AfterAdded(s, ev)
      case TextDelta(item, text) => AfterDelta(s, item, false, text)
      case ToolDelta(item, call, text) => AfterDelta(s, KeyOf(item, call), true, text)
      case ItemDone(item, call) => AfterDone(s, KeyOf(item, call))
      case Completed(tokens) => AfterCompleted(s, tokens)
      case MalformedCompleted => (s.(started := true, failed := true), StartEvents(s))
      case Malformed => (s.(failed := true), [])
      case Quiet => (s, [])
      case Failing(message) => (s.(failed := true), [ErrorEvent(message)])
  }

  function Ran(events: seq<Upstream>): (Stream, seq<Event>)
  {
    if events == [] then (FRESH_STREAM, [])
    else
      var (s, out) := Ran(events[..|events| - 1]);
      var (t, more) := Handled(s, events[|events| - 1]);
      (t, out + more)
  }

  lemma RanSnoc(events: seq<Upstream>, ev: Upstream)
    ensures Ran(events + [ev]).0 == Handled(Ran(events).0, ev).0
    ensures Ran(events + [ev]).1 == Ran(events).1 + Handled(Ran(events).0, ev).1
  {
    assert (events + [ev])[..|events|] == events;
  }

  // ---------------------------------------------------------------- what clients may rely on

  /** Blocks started and not stopped since. */
  function Open(out: seq<Event>): set<nat>
  {
    if out == [] then {}
    else
      var before, last := Open(out[..|out| - 1]), out[|out| - 1];
      if last.BlockStart? then before + {last.index}
      else if last.BlockStop? then before - {last.index}
      else before
  }

  predicate UsesTool(out: seq<Event>)
  {
    exists i :: 0 <= i < |out| && out[i].BlockStart? && out[i].tool.Some?
  }

  predicate Announces(out: seq<Event>, index: nat)
  {
    exists i :: 0 <= i < |out| && out[i].BlockStart? && out[i].index == index
  }

  /** Event `ev` may follow `out`: the grammar of an Anthropic message stream, less what the
      translator leaves to its upstream. */
  ghost predicate MayFollow(out: seq<Event>, ev: Event)
  {
    match ev
    case MessageStart(_) => out == []
    case BlockStart(index, _) => out != []
    case BlockDelta(index, _, _) => out != [] && Announces(out, index)
    case BlockStop(index) => out != [] && index in Open(out)
    case MessageDelta(toolUse, _) => out != [] && Open(out) == {} && (toolUse <==> UsesTool(out))
    case MessageStop => out != [] && Open(out) == {} && out[|out| - 1].MessageDelta?
    case ErrorEvent(_) => true
  }

  /** Every event may follow those before it, the first is message_start or an error, and nothing
      follows an error. */
  ghost predicate Legal(out: seq<Event>)
  {
    && (forall k :: 0 <= k < |out| ==> MayFollow(out[..k], out[k]))
    && (forall k :: 0 <= k < |out| - 1 ==> !out[k].ErrorEvent?)
  }

  /** The translator's state, read off what it has emitted. */
  ghost predicate Fits(s: Stream, out: seq<Event>)
  {
    && Legal(out)
    && (s.failed || forall k :: 0 <= k < |out| ==> !out[k].ErrorEvent?)
    && (!s.failed ==>
          && (s.started <==> out != []) && s.active == Open(out) && (s.hadToolUse <==> UsesTool(out))
          && (forall key :: key in s.indices ==> Announces(out, s.indices[key])))
  }

  lemma LegalSnoc(out: seq<Event>, ev: Event)
    requires Legal(out) && MayFollow(out, ev)
    requires forall k :: 0 <= k < |out| ==> !out[k].ErrorEvent?
    ensures Legal(out + [ev])
  {
    hide MayFollow;
    var more := out + [ev];
    forall k | 0 <= k < |more| ensures MayFollow(more[..k], more[k]) {
      if k < |out| {
        assert more[..k] == out[..k];
        assert MayFollow(out[..k], out[k]);
      } else {
        assert more[..k] == out;
      }
    }
  }

  /** How the readings of the output change with one more event. */
  lemma ReadSnoc(out: seq<Event>, ev: Event)
    ensures Open(out + [ev]) == if ev.BlockStart? then Open(out) + {ev.index}
                                else if ev.BlockStop? then Open(out) - {ev.index} else Open(out)
    ensures UsesTool(out + [ev]) <==> UsesTool(out) || (ev.BlockStart? && ev.tool.Some?)
    ensures forall index :: Announces(out, index) ==> Announces(out + [ev], index)
    ensures ev.BlockStart? ==> Announces(out + [ev], ev.index)
  {
    var more := out + [ev];
    assert more[..|out|] == out && more[|out|] == ev;
    if UsesTool(out) {
      var i :| 0 <= i < |out| && out[i].BlockStart? && out[i].tool.Some?;
      assert more[i] == out[i];
    }
    forall index | Announces(out, index) ensures Announces(more, index) {
      var i :| 0 <= i < |out| && out[i].BlockStart? && out[i].index == index;
      assert more[i] == out[i];
    }
  }

  /** Emitting one event that may come now. */
  lemma Emits(out: seq<Event>, ev: Event)
    requires Legal(out) && MayFollow(out, ev) && (forall k :: 0 <= k < |out| ==> !out[k].ErrorEvent?)
    ensures Legal(out + [ev])
    ensures Open(out + [ev]) == if ev.BlockStart? then Open(out) + {ev.index}
                                else if ev.BlockStop? then Open(out) - {ev.index} else Open(out)
    ensures UsesTool(out + [ev]) <==> UsesTool(out) || (ev.BlockStart? && ev.tool.Some?)
    ensures forall index :: Announces(out, index) ==> Announces(out + [ev], index)
    ensures ev.BlockStart? ==> Announces(out + [ev], ev.index)
  {
    LegalSnoc(out, ev);
    ReadSnoc(out, ev);
  }

  lemma StartFits(s: Stream, out: seq<Event>)
    requires Fits(s, out) && !s.failed
    ensures Fits(s.(started := true), out + StartEvents(s))
  {
    if s.started {
      assert out + [] == out;
    } else {
      Emits(out, MessageStart(s.id));
    }
  }

  lemma AddedFits(s: Stream, out: seq<Event>, ev: Upstream)
    requires Fits(s, out) && !s.failed && ev.ItemAdded?
    ensures Fits(AfterAdded(s, ev).0, out + AfterAdded(s, ev).1)
  {
    hide Legal, Open, UsesTool, Announces;
    assert out + [] == out;
    if ev.item != "" {
      StartFits(s, out);
      var before := out + StartEvents(s);
      if Usable(ev) {
        var start := BlockStart(|s.indices|, if ev.kind == "function_call" then Some((ev.call, ev.name)) else None);
        Emits(before, start);
        assert out + (StartEvents(s) + [start]) == before + [start];
      }
    }
  }

  lemma {:induction false} StopsFit(s: Stream, out: seq<Event>)
    requires Fits(s, out) && !s.failed && out != []
    ensures Fits(s.(active := {}), out + Stops(s.active))
    decreases |s.active|
  {
    hide Legal, MayFollow, Open, UsesTool, Announces;
    if s.active == {} {
      assert out + [] == out;
    } else {
      var least := Least(s.active);
      StopFits(s, out, least);
      StopsFit(s.(active := s.active - {least}), out + [BlockStop(least)]);
      assert out + ([BlockStop(least)] + Stops(s.active - {least})) == out + [BlockStop(least)] + Stops(s.active - {least});
    }
  }

  lemma StopFits(s: Stream, out: seq<Event>, index: nat)
    requires Fits(s, out) && !s.failed && index in s.active
    ensures Fits(s.(active := s.active - {index}), out + [BlockStop(index)])
  {
    OpenNeedsOutput(out);
    Emits(out, BlockStop(index));
  }

  lemma OpenNeedsOutput(out: seq<Event>)
    ensures out == [] ==> Open(out) == {} && forall index :: !Announces(out, index)
  {
  }

  lemma CompletedFits(s: Stream, out: seq<Event>, tokens: int)
    requires Fits(s, out) && !s.failed
    ensures Fits(AfterCompleted(s, tokens).0, out + AfterCompleted(s, tokens).1)
  {
    hide Legal, Open, UsesTool, Announces;
    StartFits(s, out);
    var started := out + StartEvents(s);
    StopsFit(s.(started := true), started);
    var stopped := started + Stops(s.active);
    Emits(stopped, MessageDelta(s.hadToolUse, tokens));
    Emits(stopped + [MessageDelta(s.hadToolUse, tokens)], MessageStop);
    assert out + AfterCompleted(s, tokens).1 == stopped + [MessageDelta(s.hadToolUse, tokens)] + [MessageStop];
  }

  lemma HandledFits(s: Stream, out: seq<Event>, ev: Upstream)
    requires Fits(s, out)
    ensures Fits(Handled(s, ev).0, out + Handled(s, ev).1)
  {
    hide Legal, Open, UsesTool, Announces, Stops, AfterAdded, AfterCompleted;
    assert out + [] == out;
    if !s.failed {
      match ev
      case Created(id) => if id != "" { StartFits(s.(id := id), out); }
      case ItemAdded(_, _, _, _) => AddedFits(s, out, ev);
      case TextDelta(item, text) => DeltaFits(s, out, item, false, text);
      case ToolDelta(item, call, text) => DeltaFits(s, out, KeyOf(item, call), true, text);
      case ItemDone(item, call) =>
        var key := KeyOf(item, call);
        if key in s.indices && s.indices[key] in s.active {
          StopFits(s, out, s.indices[key]);
        }
      case Completed(tokens) => CompletedFits(s, out, tokens);
      case MalformedCompleted => StartFits(s, out);
      case Malformed =>
      case Quiet =>
      case Failing(message) => Emits(out, ErrorEvent(message));
    }
  }

  lemma DeltaFits(s: Stream, out: seq<Event>, key: string, json: bool, text: string)
    requires Fits(s, out) && !s.failed
    ensures Fits(AfterDelta(s, key, json, text).0, out + AfterDelta(s, key, json, text).1)
  {
    OpenNeedsOutput(out);
    hide Legal, Open, UsesTool, Announces;
    assert out + [] == out;
    if key in s.indices {
      Emits(out, BlockDelta(s.indices[key], json, text));
    }
  }

  lemma {:induction false} RanFits(events: seq<Upstream>)
    ensures Fits(Ran(events).0, Ran(events).1)
  {
    if events == [] {
      assert Fits(FRESH_STREAM, []);
    } else {
      hide Fits, Handled;
      RanFits(events[..|events| - 1]);
      var (s, out) := Ran(events[..|events| - 1]);
      HandledFits(s, out, events[|events| - 1]);
    }
  }
}
