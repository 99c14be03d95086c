/**
 * Workers on top of the operation store (internal/operation/manager.go). Run, execute, Cancel and
 * Close are split at every point where another goroutine can intervene; each store call is one
 * step of `OperationRuns`.
 */
module OperationRunner {
  import opened Common
  import opened Operations
  import Store = OperationRuns

  /** How far a goroutine has come: first in Run, then in execute. */
  datatype Phase =
    | Looked                                  // Run saw a non-terminal record
    | Registered                              // in the runners map, start not yet stored
    | Working                                 // the worker runs
    | Returned(ending: Ending)                // the worker returned, closing not yet read
    | Checked(ending: Ending)                 // closing was false
    | Deciding(ending: Ending)                // a non-terminal record was read again

  /** What execute will store: the worker's result, its failure, or an interruption. */
  datatype Ending = Finished | Broke | Interrupted | TimedOut

  datatype Task = Task(id: ID, phase: Phase)

  datatype Runner = Runner(world: Store.World, runners: set<ID>, closing: bool, tasks: map<nat, Task>)

  datatype Step =
    | RunGet(t: nat, id: ID)
    | RunRegister(t: nat)
    | RunStart(t: nat, call: Store.Step)
    | Report(t: nat, call: Store.Step)        // Progress or WaitingForUser from the worker
    | WorkerReturn(t: nat, ending: Ending)
    | CheckClosing(t: nat)
    | GetAgain(t: nat)
    | StoreEnding(t: nat, call: Store.Step)
    | Cancel(call: Store.Step)
    | CreateOperation(call: Store.Step)
    | BeginClose
    | CloseStore
    | PowerCut(renamed: bool)                 // the machine fails
    | Reboot(call: Store.Step)                // a new process opens the file

  function EndState(ending: Ending): State
  {
    match ending
    case Finished => Succeeded
    case Broke => Failed
    case Interrupted => Failed
    case TimedOut => Expired
  }

  predicate Open(st: Runner, id: ID)
  {
    st.world.mem.Some? && id in st.world.mem.value.ops && !st.world.mem.value.ops[id].record.state.Terminal()
  }

  predicate Cancelable(st: Runner, id: ID)
  {
    st.world.mem.Some? && id in st.world.mem.value.ops && st.world.mem.value.ops[id].record.cancelable
  }

  function Without(st: Runner, t: nat, id: ID): Runner
  {
    st.(runners := st.runners - {id}, tasks := st.tasks - {t})
  }

  function At(st: Runner, t: nat, phase: Phase): Runner
    requires t in st.tasks
  {
    st.(tasks := st.tasks[t := st.tasks[t].(phase := phase)])
  }

  /** The store call of a step, if it makes one in this state. */
  function Call(st: Runner, step: Step): Option<Store.Step>
  {
    match step
    case RunStart(t, call) =>
      if t in st.tasks && st.tasks[t].phase.Registered? && call.Transition? && call.id == st.tasks[t].id && call.next.Running?
      then Some(call) else None
    case Report(t, call) =>
      if && t in st.tasks && st.tasks[t].phase.Working?
         && ((call.Progress? && call.id == st.tasks[t].id) ||
             (call.Transition? && call.id == st.tasks[t].id && call.next.WaitingForUser?))
      then Some(call) else None
    case StoreEnding(t, call) =>
      if && t in st.tasks && st.tasks[t].phase.Deciding? && call.Transition?
         && call.id == st.tasks[t].id && call.next == EndState(st.tasks[t].phase.ending)
      then Some(call) else None
    case Cancel(call) => if call.Transition? && call.next.Cancelled? && Cancelable(st, call.id) then Some(call) else None
    case CreateOperation(call) => if call.Create? then Some(call) else None
    case CloseStore => Some(Store.Restart)
    case PowerCut(renamed) => Some(Store.PowerLoss(renamed))
    case Reboot(call) => if call.Open? then Some(call) else None
    case _ => None
  }

  ghost function Next(st: Runner, step: Step): Runner
  {
    var called := if Call(st, step).Some? then st.(world := Store.Next(st.world, Call(st, step).value)) else st;
    match step
    case RunGet(t, id) => if t !in st.tasks && Open(st, id) then st.(tasks := st.tasks[t := Task(id, Looked)]) else st
    case RunRegister(t) =>
      if t !in st.tasks || !st.tasks[t].phase.Looked? then st
      else if st.closing || st.tasks[t].id in st.runners then st.(tasks := st.tasks - {t})
      else At(st, t, Registered).(runners := st.runners + {st.tasks[t].id})
    case RunStart(t, _) =>
      if Call(st, step).None? then st
      else if called.world.history != st.world.history then At(called, t, Working)   // stored
      else Without(called, t, st.tasks[t].id)
    case Report(_, _) => called
    case WorkerReturn(t, ending) => if t in st.tasks && st.tasks[t].phase.Working? then At(st, t, Returned(ending)) else st
    case CheckClosing(t) =>
      if t !in st.tasks || !st.tasks[t].phase.Returned? then st
      else if st.closing then Without(st, t, st.tasks[t].id)
      else At(st, t, Checked(st.tasks[t].phase.ending))
    case GetAgain(t) =>
      if t !in st.tasks || !st.tasks[t].phase.Checked? then st
      else if Open(st, st.tasks[t].id) then At(st, t, Deciding(st.tasks[t].phase.ending))
      else Without(st, t, st.tasks[t].id)
    case StoreEnding(t, _) => if Call(st, step).None? then st else Without(called, t, st.tasks[t].id)
    case Cancel(_) => called
    case CreateOperation(_) => called
    case BeginClose => st.(closing := true)
    case CloseStore => called
    case PowerCut(_) => Runner(called.world, {}, false, map[])
    case Reboot(_) => if Call(st, step).Some? && st.world.mem.None? then Runner(called.world, {}, false, map[]) else st
  }

  ghost function Exec(st: Runner, steps: seq<Step>): Runner
    decreases |steps|
  {
    if steps == [] then st else Next(Exec(st, steps[..|steps| - 1]), steps[|steps| - 1])
  }

  /** A goroutine that holds a slot in the runners map. */
  predicate Holds(task: Task)
  {
    !task.phase.Looked?
  }

  /** The runners map names exactly the operations with a running goroutine, one each. */
  ghost predicate RunnersOk(runners: set<ID>, tasks: map<nat, Task>)
  {
    && (forall t :: t in tasks && Holds(tasks[t]) ==> tasks[t].id in runners)
    && (forall a, b :: a in tasks && b in tasks && Holds(tasks[a]) && Holds(tasks[b]) && tasks[a].id == tasks[b].id ==> a == b)
    && (forall id :: id in runners ==> exists t :: RunsFor(tasks, t, id))
  }

  predicate RunsFor(tasks: map<nat, Task>, t: nat, id: ID)
  {
    t in tasks && Holds(tasks[t]) && tasks[t].id == id
  }

  ghost predicate Inv(st: Runner)
  {
    Store.Inv(st.world) && RunnersOk(st.runners, st.tasks)
  }

  /** Whatever the goroutines do, the store moves by its own steps only. */
  lemma {:induction false} WorldMovesByStoreSteps(st: Runner, step: Step)
    ensures Next(st, step).world == st.world ||
            (Call(st, step).Some? && Next(st, step).world == Store.Next(st.world, Call(st, step).value))
  {
  }

  lemma RunnersMove(runners: set<ID>, tasks: map<nat, Task>, t: nat, phase: Phase)
    requires RunnersOk(runners, tasks) && t in tasks && Holds(tasks[t]) && !phase.Looked?
    ensures RunnersOk(runners, tasks[t := tasks[t].(phase := phase)])
  {
    var tasks' := tasks[t := tasks[t].(phase := phase)];
    forall id | id in runners ensures exists u :: RunsFor(tasks', u, id) {
      var u :| RunsFor(tasks, u, id);
      assert RunsFor(tasks', u, id);
    }
  }

  lemma RunnersLeave(runners: set<ID>, tasks: map<nat, Task>, t: nat)
    requires RunnersOk(runners, tasks) && t in tasks && Holds(tasks[t])
    ensures RunnersOk(runners - {tasks[t].id}, tasks - {t})
  {
    forall id | id in runners - {tasks[t].id} ensures exists u :: RunsFor(tasks - {t}, u, id) {
      var u :| RunsFor(tasks, u, id);
      assert RunsFor(tasks - {t}, u, id);
    }
  }

  lemma RunnersLook(runners: set<ID>, tasks: map<nat, Task>, t: nat, id: ID)
    requires RunnersOk(runners, tasks) && t !in tasks
    ensures RunnersOk(runners, tasks[t := Task(id, Looked)])
  {
    var tasks' := tasks[t := Task(id, Looked)];
    forall i | i in runners ensures exists u :: RunsFor(tasks', u, i) {
      var u :| RunsFor(tasks, u, i);
      assert RunsFor(tasks', u, i);
    }
  }

  lemma RunnersRegister(runners: set<ID>, tasks: map<nat, Task>, t: nat)
    requires RunnersOk(runners, tasks) && t in tasks && !Holds(tasks[t])
    ensures RunnersOk(runners, tasks - {t})
    ensures tasks[t].id !in runners ==> RunnersOk(runners + {tasks[t].id}, tasks[t := tasks[t].(phase := Registered)])
  {
    forall i | i in runners ensures exists u :: RunsFor(tasks - {t}, u, i) {
      var u :| RunsFor(tasks, u, i);
      assert RunsFor(tasks - {t}, u, i);
    }
    var tasks' := tasks[t := tasks[t].(phase := Registered)];
    forall i | i in runners + {tasks[t].id} ensures exists u :: RunsFor(tasks', u, i) {
      if i in runners {
        var u :| RunsFor(tasks, u, i);
        assert RunsFor(tasks', u, i);
      } else {
        assert RunsFor(tasks', t, i);
      }
    }
  }

  lemma RunnersKeep(st: Runner, step: Step)
    requires RunnersOk(st.runners, st.tasks)
    ensures RunnersOk(Next(st, step).runners, Next(st, step).tasks)
  {
    match step
    case RunGet(t, id) => if t !in st.tasks { RunnersLook(st.runners, st.tasks, t, id); }
    case RunRegister(t) => if t in st.tasks && st.tasks[t].phase.Looked? { RunnersRegister(st.runners, st.tasks, t); }
    case RunStart(_, _) | WorkerReturn(_, _) | CheckClosing(_) | GetAgain(_) | StoreEnding(_, _) =>
      var t := step.t;
      if t in st.tasks && Holds(st.tasks[t]) {
        RunnersLeave(st.runners, st.tasks, t);
        var tasks' := Next(st, step).tasks;
        if t in tasks' { RunnersMove(st.runners, st.tasks, t, tasks'[t].phase); }
      }
    case _ =>
  }

  /** The store call of the step, if any, tolerates losses or makes none. */
  ghost predicate Tolerates(st: Runner, step: Step, lossy: bool)
  {
    Call(st, step).Some? ==> Store.Tolerates(st.world, Call(st, step).value, lossy)
  }

  ghost predicate Calm(st: Runner, steps: seq<Step>, lossy: bool)
  {
    forall n :: 0 <= n < |steps| ==> Tolerates(Exec(st, steps[..n]), steps[n], lossy)
  }

  lemma NextKeeps(st: Runner, step: Step, lossy: bool)
    requires Inv(st)
    ensures Inv(Next(st, step))
    ensures Store.Firm(st.world, lossy) && Tolerates(st, step, lossy) ==>
              Store.Firm(Next(st, step).world, lossy) && st.world.history <= Next(st, step).world.history
  {
    WorldMovesByStoreSteps(st, step);
    RunnersKeep(st, step);
    if Call(st, step).Some? {
      Store.NextKeeps(st.world, Call(st, step).value, lossy);
    }
    hide Next, Call, Store.Inv, Store.Next, Store.Tolerates;
  }

  lemma {:induction false} RunsKeep(st: Runner, steps: seq<Step>, lossy: bool)
    requires Inv(st)
    ensures Inv(Exec(st, steps))
    ensures Store.Firm(st.world, lossy) && Calm(st, steps, lossy) ==>
              Store.Firm(Exec(st, steps).world, lossy) && st.world.history <= Exec(st, steps).world.history
  {
    hide Next, Inv, Store.Firm, Tolerates;
    if steps != [] {
      var init := steps[..|steps| - 1];
      RunsKeep(st, init, lossy);
      NextKeeps(Exec(st, init), steps[|steps| - 1], lossy);
      if Calm(st, steps, lossy) {
        forall n | 0 <= n < |init| ensures Tolerates(Exec(st, init[..n]), init[n], lossy) {
          assert init[..n] == steps[..n];
          assert Tolerates(Exec(st, steps[..n]), steps[n], lossy);
        }
        assert steps[..|init|] == init;
      }
    }
  }

  // ---------------------------------------------------------------- what runs guarantee

  /** Whichever of worker, Cancel, expiry and restart comes first decides: a terminal operation
      keeps its state and its one terminal event through every later interleaving, power cuts included
      as long as no process adopts a file that was never synced. */
  lemma {:induction false} FirstEndingWins(st: Runner, more: seq<Step>, id: ID, lossy: bool)
    requires Store.Firm(st.world, lossy) && Calm(st, more, lossy)
    requires Inv(st) && st.world.mem.Some? && id in st.world.mem.value.ops
    requires st.world.mem.value.ops[id].record.state.Terminal()
    ensures var st' := Exec(st, more);
      st'.world.mem.Some? && id in st'.world.mem.value.ops ==>
      && st'.world.mem.value.ops[id].record.state == st.world.mem.value.ops[id].record.state
      && st'.world.mem.value.ops[id].record.sequence == st.world.mem.value.ops[id].record.sequence
  {
    RunsKeep(st, more, lossy);
    var st' := Exec(st, more);
    if st'.world.mem.Some? && id in st'.world.mem.value.ops {
      var k := OneTerminalEvent(st.world.mem.value, st.world.history, id);
      var k' := OneTerminalEvent(st'.world.mem.value, st'.world.history, id);
      assert st'.world.history[k] == st.world.history[k];
    }
  }

  /** At most one goroutine works on an operation, in every reachable state. */
  lemma {:induction false} OneWorkerPerOperation(st: Runner, steps: seq<Step>, a: nat, b: nat)
    requires Inv(st)
    ensures var st' := Exec(st, steps);
      forall id :: RunsFor(st'.tasks, a, id) && RunsFor(st'.tasks, b, id) ==> a == b && id in st'.runners
  {
    RunsKeep(st, steps, false);
  }

  // ---------------------------------------------------------------- closing

  /** The daemon is closing, and no goroutine of the operation is past reading that. */
  ghost predicate Quiet(st: Runner, id: ID)
  {
    st.closing && forall t :: t in st.tasks && st.tasks[t].id == id ==> !st.tasks[t].phase.Checked? && !st.tasks[t].phase.Deciding?
  }

  /** The operation is stored and has not ended, as long as the store is open. */
  predicate Alive(w: Store.World, id: ID)
  {
    w.mem.Some? ==> id in w.mem.value.ops && !w.mem.value.ops[id].record.state.Terminal()
  }

  /** A store call that neither ends the operation nor opens the store leaves it alive. */
  lemma CallKeepsAlive(w: Store.World, call: Store.Step, id: ID)
    requires Alive(w, id) && !call.Open? && !(call.Transition? && call.id == id && call.next.Terminal())
    ensures Alive(Store.Next(w, call), id)
  {
    hide CreateVerdict, Appended, LastEvent, AllowedTransition, Outlived;
  }

  lemma QuietStep(st: Runner, step: Step, id: ID)
    requires Quiet(st, id) && Alive(st.world, id) && !step.Reboot? && !step.PowerCut?
    requires step.Cancel? && step.call.Transition? ==> step.call.id != id
    ensures Quiet(Next(st, step), id) && Alive(Next(st, step).world, id)
  {
    QuietTasks(st, step, id);
    WorldMovesByStoreSteps(st, step);
    if Call(st, step).Some? {
      assert !Call(st, step).value.Open?;
      CallKeepsAlive(st.world, Call(st, step).value, id);
    }
    hide Next, Call, Quiet, Store.Next;
  }

  lemma QuietTasks(st: Runner, step: Step, id: ID)
    requires Quiet(st, id) && !step.Reboot? && !step.PowerCut?
    ensures Quiet(Next(st, step), id)
    ensures step.StoreEnding? && Call(st, step).Some? ==> Call(st, step).value.id != id
  {
    hide Store.Next, Open;
  }

  lemma {:induction false} QuietRun(st: Runner, more: seq<Step>, id: ID)
    requires Quiet(st, id) && Alive(st.world, id)
    requires forall n :: 0 <= n < |more| ==> !more[n].Reboot? && !more[n].PowerCut?
    requires forall n :: 0 <= n < |more| && more[n].Cancel? && more[n].call.Transition? ==> more[n].call.id != id
    ensures Quiet(Exec(st, more), id) && Alive(Exec(st, more).world, id)
  {
    hide Next, Quiet, Alive;
    if more != [] {
      QuietRun(st, more[..|more| - 1], id);
      QuietStep(Exec(st, more[..|more| - 1]), more[|more| - 1], id);
    }
  }

  /** Closing leaves the ending to recovery: once the daemon is closing, an operation whose goroutine has not
      yet read that does not end in this process, in any interleaving, unless it is cancelled. Its worker may
      return whatever it likes and report whatever it likes. */
  lemma {:induction false} ClosingLeavesTheEnding(st: Runner, t: nat, more: seq<Step>, id: ID)
    requires Inv(st) && st.closing && RunsFor(st.tasks, t, id) && Open(st, id)
    requires !st.tasks[t].phase.Checked? && !st.tasks[t].phase.Deciding?
    requires forall n :: 0 <= n < |more| ==> !more[n].Reboot? && !more[n].PowerCut?
    requires forall n :: 0 <= n < |more| && more[n].Cancel? && more[n].call.Transition? ==> more[n].call.id != id
    ensures var st' := Exec(st, more);
      && (st'.world.mem.Some? ==> id in st'.world.mem.value.ops && !st'.world.mem.value.ops[id].record.state.Terminal())
      && (forall u :: u in st'.tasks && st'.tasks[u].id == id ==> !st'.tasks[u].phase.Deciding?)
  {
    assert Quiet(st, id) by {
      assert RunnersOk(st.runners, st.tasks);
    }
    hide Exec, Inv;
    QuietRun(st, more, id);
  }

  /** And recovery then decides: the next process finds it expired if its time is up or it asked for that,
      and failed otherwise. */
  lemma {:induction false} RecoveryDecides(w: Store.World, step: Store.Step, id: ID)
    requires Store.Inv(w) && w.mem.None? && step.Open? && id in w.disk.ops && !w.disk.ops[id].record.state.Terminal()
    ensures var v := Store.Next(w, step);
      v.mem.Some? && id in v.mem.value.ops ==>
      v.mem.value.ops[id].record.state ==
        if w.disk.ops[id].record.expires <= step.now || w.disk.ops[id].record.expireOnRecovery then Expired else State.Failed
  {
    if Store.Enumerates(step.ids, w.disk.ops) {
      RecoveredEnds(w.disk, step.limits, step.ids, step.now, id);
      hide Recovered, Store.Inv, MayKeep;
    }
  }

  /** Whatever the order, recovery ends a live record in one of its two ways. */
  lemma {:induction false} RecoveredEnds(s: Operations.Store, limits: Limits, ids: seq<ID>, now: Time, id: ID)
    requires (forall n :: 0 <= n < |ids| ==> ids[n] in s.ops) && id in s.ops && !s.ops[id].record.state.Terminal()
    ensures var a, b := s.ops[id].record, Recovered(s, limits, ids, now).ops[id].record;
      if id !in ids then b == a
      else b.state == if a.expires <= now || a.expireOnRecovery then Expired else State.Failed
    decreases |ids|
  {
    if ids != [] {
      var init, last := ids[..|ids| - 1], ids[|ids| - 1];
      RecoveredEnds(s, limits, init, now, id);
      assert ids == init + [last];
    }
  }

  /** Once the daemon is closing nobody new starts working: the set of running operations only shrinks. */
  lemma {:induction false} ClosingAdmitsNobody(st: Runner, more: seq<Step>)
    requires st.closing && forall n :: 0 <= n < |more| ==> !more[n].Reboot? && !more[n].PowerCut?
    ensures Exec(st, more).closing && Exec(st, more).runners <= st.runners
  {
    if more != [] {
      ClosingAdmitsNobody(st, more[..|more| - 1]);
      var v, step := Exec(st, more[..|more| - 1]), more[|more| - 1];
      hide Store.Next, Call, Open;
      assert Next(v, step).closing && Next(v, step).runners <= v.runners;
    }
  }

  /** What a worker returns is what its operation becomes: success, failure, or expiry when its time ran
      out, if nothing ended the operation first and the write succeeds. */
  lemma {:induction false} WorkerDecides(st: Runner, t: nat, call: Store.Step)
    requires t in st.tasks && st.tasks[t].phase.Deciding? && Open(st, st.tasks[t].id)
    requires call.Transition? && call.id == st.tasks[t].id && call.write == Store.Saved
    requires match st.tasks[t].phase.ending
             case Finished => call.next == Succeeded
             case Broke => call.next == State.Failed
             case Interrupted => call.next == State.Failed
             case TimedOut => call.next == Expired
    ensures var st' := Next(st, StoreEnding(t, call)); var id := call.id;
      && st'.world.mem.Some? && id in st'.world.mem.value.ops
      && st'.world.mem.value.ops[id].record.state == call.next
      && st'.world.history == st.world.history + [Event(st.world.mem.value.nextSequence + 1, id, call.next, call.now)]
      && t !in st'.tasks && id !in st'.runners
  {
    var id := call.id;
    assert Call(st, StoreEnding(t, call)) == Some(call);
    TransitionsExactly(st.world.mem.value.ops[id].record.state, call.next);
    hide Appended;
  }

  /** A cancellation that is written ends an operation exactly when it has not ended and may be cancelled;
      otherwise it changes nothing. */
  lemma {:induction false} CancelEndsExactly(st: Runner, call: Store.Step)
    requires call.Transition? && call.next == Cancelled && call.write == Store.Saved
    ensures var st' := Next(st, Cancel(call)); var id := call.id;
      if && st.world.mem.Some? && id in st.world.mem.value.ops && st.world.mem.value.ops[id].record.cancelable
         && !st.world.mem.value.ops[id].record.state.Terminal()
      then st'.world.mem.Some? && id in st'.world.mem.value.ops && st'.world.mem.value.ops[id].record.state == Cancelled
      else st' == st
  {
    if st.world.mem.Some? && call.id in st.world.mem.value.ops {
      TransitionsExactly(st.world.mem.value.ops[call.id].record.state, Cancelled);
    }
    hide Appended;
  }

  /** Nobody begins to work on an operation that is unknown or has ended, and a worker that comes back to one
      that ended meanwhile leaves it as it is and makes room. */
  lemma {:induction false} EndedIsLeftAlone(st: Runner, t: nat, id: ID)
    requires st.world.mem.None? || id !in st.world.mem.value.ops || st.world.mem.value.ops[id].record.state.Terminal()
    ensures t !in st.tasks ==> Next(st, RunGet(t, id)) == st
    ensures t in st.tasks && st.tasks[t].id == id && st.tasks[t].phase.Checked? ==>
              var st' := Next(st, GetAgain(t)); st'.world == st.world && t !in st'.tasks && id !in st'.runners
  {
  }
}
