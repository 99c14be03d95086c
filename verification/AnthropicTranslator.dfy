/** anthropicSSEWriter as an object: its handlers update one stream in place. */
module AnthropicTranslator {
  import opened Common
  import opened Splitting
  import opened AnthropicEvents
  import W = AnthropicWriter

  class Writer {
    const decode: Bytes -> Upstream
    var id: string
    var started: bool
    var ended: bool
    var hadToolUse: bool
    var indices: map<string, nat>
    var active: set<nat>
    var failed: bool
    var pending: Bytes
    var out: seq<Event>

    ghost function Value(): Stream
      reads this
    {
      Stream(id, started, ended, hadToolUse, indices, active, failed)
    }

    ghost function Whole(): W.State
      reads this
    {
      W.State(Value(), pending, out)
    }

    constructor (decode: Bytes -> Upstream)
      ensures this.decode == decode && Whole() == W.FRESH_STATE
    {
      this.decode := decode;
      id, started, ended, hadToolUse, indices, active := "", false, false, false, map[], {};
      failed, pending, out := false, "", [];
    }

    /** The stream moved as `step` says, and its events were appended. */
    twostate predicate Moved(step: (Stream, seq<Event>))
      reads this
    {
      Value() == step.0 && out == old(out) + step.1 && pending == old(pending)
    }

    method StartMessage()
      modifies this
      ensures Moved((old(Value()).(started := true), StartEvents(old(Value()))))
    {
      if started {
        assert out + [] == out;
        return;
      }
      started := true;
      out := out + [MessageStart(id)];
    }

    method StartOutputItem(ev: Upstream)
      requires ev.ItemAdded? && !failed
      modifies this
      ensures Moved(AfterAdded(old(Value()), ev))
    {
      if ev.item == "" {
        failed := true;
        assert out + [] == out;
        return;
      }
      StartMessage();
      var index := |indices|;
      indices := indices[ev.item := index];
      var tool: Option<(string, string)> := None;
      if ev.kind == "function_call" {
        if ev.call == "" || ev.name == "" {
          failed := true;
          return;
        }
        tool := Some((ev.call, ev.name));
        indices, hadToolUse := indices[ev.call := index], true;
      } else if ev.kind != "message" {
        failed := true;
        return;
      }
      active := active + {index};
      out := out + [BlockStart(index, tool)];
      assert out == old(out) + (StartEvents(old(Value())) + [BlockStart(index, tool)]);
    }

    method WriteDelta(key: string, json: bool, text: string)
      requires !failed
      modifies this
      ensures Moved(AfterDelta(old(Value()), key, json, text))
    {
      if key !in indices {
        failed := true;
        assert out + [] == out;
        return;
      }
      out := out + [BlockDelta(indices[key], json, text)];
    }

    method StopBlock(index: nat)
      modifies this
      ensures Moved(Stopped(old(Value()), index))
    {
      if index !in active {
        assert out + [] == out;
        return;
      }
      active := active - {index};
      out := out + [BlockStop(index)];
    }

    method StopOutputItem(key: string)
      requires !failed
      modifies this
      ensures Moved(AfterDone(old(Value()), key))
    {
      if key !in indices {
        failed := true;
        assert out + [] == out;
        return;
      }
      StopBlock(indices[key]);
    }

    /** Every block that was open when the message completed is stopped, lowest index first. */
    method StopAll()
      modifies this
      ensures Moved((old(Value()).(active := {}), Stops(old(Value()).active)))
    {
      var rest := active;
      assert [] + Stops(active) == Stops(active);
      ghost var emitted: seq<Event> := [];
      while rest != {}
        invariant rest == active && Value() == old(Value()).(active := active) && pending == old(pending)
        invariant out == old(out) + emitted && Stops(old(active)) == emitted + Stops(active)
        decreases |rest|
      {
        var index := Least(rest);
        assert emitted + ([BlockStop(index)] + Stops(active - {index})) == emitted + [BlockStop(index)] + Stops(active - {index});
        StopBlock(index);
        emitted := emitted + [BlockStop(index)];
        rest := rest - {index};
      }
    }

    /** `usable` tells whether the payload of response.completed could be decoded. */
    method CompleteMessage(usable: bool, tokens: int)
      requires !failed
      modifies this
      ensures Moved(if usable then AfterCompleted(old(Value()), tokens)
                    else (old(Value()).(started := true, failed := true), StartEvents(old(Value()))))
    {
      hide Stops;
      StartMessage();
      if !usable {
        failed := true;
        return;
      }
      StopAll();
      out := out + [MessageDelta(hadToolUse, tokens)];
      ended := true;
      out := out + [MessageStop];
      assert out == old(out) + AfterCompleted(old(Value()), tokens).1;
    }

    method HandleEvent(ev: Upstream)
      requires !failed
      modifies this
      ensures Moved(Handled(old(Value()), ev))
    {
      hide Stops, Bound;
      assert out + [] == out;
      match ev {
        case Created(newId) =>
          if newId == "" {
            failed := true;
            return;
          }
          id := newId;
          StartMessage();
        case ItemAdded(_, _, _, _) => StartOutputItem(ev);
        case TextDelta(item, text) => WriteDelta(item, false, text);
        case ToolDelta(item, call, text) => WriteDelta(if item == "" then call else item, true, text);
        case ItemDone(item, call) => StopOutputItem(if item == "" then call else item);
        case Completed(tokens) => CompleteMessage(true, tokens);
        case MalformedCompleted => CompleteMessage(false, 0);
        case Malformed => failed := true;
        case Quiet =>
        case Failing(message) =>
          out := out + [ErrorEvent(message)];
          failed := true;
      }
    }

    /** Finish: the stream was translated to its end without an error. */
    method Finish() returns (ok: bool)
      ensures ok <==> !failed && ended
    {
      if failed {
        return false;
      }
      return ended;
    }

    /** Write: the accepted bytes count on success, and the error is kept. */
    method Write(data: Bytes) returns (ok: bool)
      modifies this
      ensures Whole() == W.AfterWrite(decode, old(Whole()), data)
      ensures ok <==> !failed
    {
      hide Handled, Find, W.Drained, W.Normalized;
      if failed {
        return false;
      }
      var normalized := W.Normalized(data);
      pending := pending + normalized;
      if |pending| > W.LIMIT {
        failed := true;
        return false;
      }
      ghost var all := Whole();
      while true
        invariant !failed && W.Drained(decode, all) == W.Drained(decode, Whole())
        decreases |pending|
      {
        W.DrainedOnce(decode, Whole());
        var boundary := Find(pending, W.BLANK_LINE);
        if boundary.None? {
          return true;
        }
        var event := pending[..boundary.value];
        pending := pending[boundary.value + 2..];
        HandleEvent(decode(event));
        if failed {
          return false;
        }
      }
    }
  }
}
