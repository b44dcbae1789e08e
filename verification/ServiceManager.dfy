/** The Lua service manager as one state machine over registry, tasks, timers and calls. */
module ServiceManager {
  import opened Collections
  import opened Scheduling
  import opened SuspendedCalls
  import Reg = ServiceRegistry

  datatype Manager = Manager(reg: Reg.Registry, tasks: Tasks, timers: Timers, calls: Calls)

  const START := Manager(Reg.EMPTY, NO_TASKS, NO_TIMERS, NO_CALLS)

  datatype Step =
    | BeginSpawn(id: string)                         // the actor is created, on_init starts
    | InitFailed(id: string)
    | Commit(id: string)                             // on_init succeeded
    | Name(owner: string, op: Reg.NameOp)            // register_name, unregister_name
    | OnTask(task: TaskStep)
    | OnTimer(timer: TimerStep)
    | OnCall(call: CallStep)
    | Exit(id: string, hook: seq<Reg.NameOp>)        // exit, with the names its on_exit hook touches
    | Unlist(id: string)                             // the last critical section of an exit, on its own

  predicate Enabled(m: Manager, step: Step) {
    match step
    case OnTask(task) => TaskEnabled(m.tasks, task)
    case OnTimer(timer) => TimerEnabled(m.timers, timer)
    case OnCall(call) => call.Suspend? && call.timed ==> call.service in m.reg.actors
    case _ => true
  }

  function Apply(m: Manager, step: Step): Manager
    requires Enabled(m, step)
  {
    match step
    case BeginSpawn(id) => m.(reg := Reg.AddActor(m.reg, id))
    case InitFailed(id) => m.(reg := Reg.InitFailed(m.reg, id))
    case Commit(id) => m.(reg := Reg.Commit(m.reg, id))
    case Name(owner, op) => m.(reg := Reg.Rename(m.reg, owner, op))
    case OnTask(task) => m.(tasks := TaskApply(m.tasks, task, m.reg.actors))
    case OnTimer(timer) => m.(timers := TimerApply(m.timers, timer, m.reg.actors))
    case OnCall(call) => m.(calls := CallApply(m.calls, call))
    case Unlist(id) => m.(reg := Reg.Unlist(m.reg, id))
    case Exit(id, hook) =>
      if id !in m.reg.services then m
      else Manager(Reg.Exit(m.reg, id, hook),
                   TaskApply(m.tasks, CancelTasks(id), m.reg.actors),
                   TimerApply(m.timers, CancelTimers(id), m.reg.actors),
                   CallApply(m.calls, DropTimeouts(id)))
  }

  ghost predicate Inv(m: Manager) {
    Reg.Inv(m.reg) && TaskInv(m.tasks) && TimerInv(m.timers) && CallInv(m.calls)
  }

  lemma StepKeepsInv(m: Manager, step: Step)
    requires Inv(m) && Enabled(m, step)
    ensures Inv(Apply(m, step))
  {
    match step {
      case BeginSpawn(id) =>
      case InitFailed(id) => Reg.DropNamesKeepsInv(m.reg.(actors := m.reg.actors - {id}), id);
      case Commit(id) => Reg.CommitKeepsInv(m.reg, id);
      case Name(owner, op) => Reg.RenameKeepsInv(m.reg, owner, op);
      case OnTask(task) => TaskStepKeepsInv(m.tasks, task, m.reg.actors);
      case OnTimer(timer) => TimerStepKeepsInv(m.timers, timer, m.reg.actors);
      case OnCall(call) => CallStepKeepsInv(m.calls, call);
      case Unlist(id) => Reg.UnlistKeepsInv(m.reg, id);
      case Exit(id, hook) =>
        Reg.ExitKeepsInv(m.reg, id, hook);
        CancelTasksKeepsInv(m.tasks, id, m.reg.actors);
        CancelTimersKeepsInv(m.timers, id, m.reg.actors);
        CallStepKeepsInv(m.calls, DropTimeouts(id));
    }
  }

  ghost predicate Runs(m: Manager, steps: seq<Step>)
    decreases |steps|, 0
  {
    steps == [] ||
    (Runs(m, steps[..|steps| - 1]) && Enabled(Run(m, steps[..|steps| - 1]), steps[|steps| - 1]))
  }

  ghost function Run(m: Manager, steps: seq<Step>): Manager
    requires Runs(m, steps)
    decreases |steps|, 1
  {
    if steps == [] then m else Apply(Run(m, steps[..|steps| - 1]), steps[|steps| - 1])
  }

  lemma StartInv()
    ensures Inv(START)
  {
    assert Reg.Inv(Reg.EMPTY);
    assert forall k :: !Resumed(NO_CALLS, k);
  }

  /** Every reachable state keeps all tables consistent. */
  lemma {:induction false} EveryRunKeepsInv(steps: seq<Step>)
    requires Runs(START, steps)
    ensures Inv(Run(START, steps))
  {
    if steps == [] {
      StartInv();
    } else {
      EveryRunKeepsInv(steps[..|steps| - 1]);
      StepKeepsInv(Run(START, steps[..|steps| - 1]), steps[|steps| - 1]);
    }
  }

  // ---------------------------------------------------------------------
  // What the invariant gives for whole runs
  // ---------------------------------------------------------------------

  /** In no run is a call answered twice. */
  lemma AnsweredAtMostOnce(steps: seq<Step>, i: nat, j: nat)
    requires Runs(START, steps) && i < j < |Run(START, steps).calls.resumed|
    ensures Run(START, steps).calls.resumed[i].session != Run(START, steps).calls.resumed[j].session
  {
    EveryRunKeepsInv(steps);
  }

  /** An answered call waits no longer, and the coroutine suspended under its number got the outcome. */
  lemma AnsweredIsOver(steps: seq<Step>, i: nat)
    requires Runs(START, steps) && i < |Run(START, steps).calls.resumed|
    ensures var c := Run(START, steps).calls;
            && c.resumed[i].session !in c.pending && c.resumed[i].session !in c.timeouts
            && c.resumed[i].session in c.callers && c.resumed[i].co == c.callers[c.resumed[i].session]
  {
    EveryRunKeepsInv(steps);
    var c := Run(START, steps).calls;
    assert Resumed(c, c.resumed[i].session);
  }

  /** The state before step i of a run; after the last step for i = |steps|. */
  ghost function After(m: Manager, steps: seq<Step>, i: nat): Manager
    requires Runs(m, steps) && i <= |steps|
    decreases |steps|
  {
    if i == |steps| then Run(m, steps) else After(m, steps[..|steps| - 1], i)
  }

  /** No step of the run ends a call while another waiting call has its number. */
  ghost predicate NoneCrossed(m: Manager, steps: seq<Step>)
    requires Runs(m, steps)
  {
    forall i :: 0 <= i < |steps| && steps[i].OnCall? ==> !Crossed(After(m, steps, i).calls, steps[i].call)
  }

  lemma NoneCrossedStep(m: Manager, steps: seq<Step>)
    requires Runs(m, steps) && steps != []
    ensures var last := |steps| - 1;
            NoneCrossed(m, steps) <==>
            && NoneCrossed(m, steps[..last])
            && (steps[last].OnCall? ==> !Crossed(Run(m, steps[..last]).calls, steps[last].call))
  {
    hide Run, Apply, Crossed;
    var last := |steps| - 1;
    assert After(m, steps, last) == Run(m, steps[..last]);
    forall i | 0 <= i < last ensures After(m, steps, i) == After(m, steps[..last], i) && steps[..last][i] == steps[i] {
    }
    if NoneCrossed(m, steps) {
      forall i | 0 <= i < last && steps[..last][i].OnCall?
        ensures !Crossed(After(m, steps[..last], i).calls, steps[..last][i].call)
      {
        assert !Crossed(After(m, steps, i).calls, steps[i].call);
      }
    }
  }

  /**
   * In every run of the whole manager each call gets only outcomes of its own, from the handler that
   * serves that very call or from its timeout, if and only if no step ends a call while another waiting
   * call has its number.
   */
  lemma {:induction false} OwnAnswersExactly(steps: seq<Step>)
    requires Runs(START, steps)
    ensures OwnOutcomes(Run(START, steps).calls) <==> NoneCrossed(START, steps)
  {
    if steps != [] {
      hide OwnOutcomes, NoneCrossed, Crossed, CallApply;
      var last := |steps| - 1;
      OwnAnswersExactly(steps[..last]);
      NoneCrossedStep(START, steps);
      OwnManagerStep(Run(START, steps[..last]), steps[last]);
    }
  }

  lemma OwnManagerStep(m: Manager, step: Step)
    requires Enabled(m, step)
    ensures OwnOutcomes(Apply(m, step).calls) <==>
            OwnOutcomes(m.calls) && (step.OnCall? ==> !Crossed(m.calls, step.call))
  {
    if step.OnCall? {
      OwnStep(m.calls, step.call);
    }
  }

  /** In no run does a one-shot timer both fire and get cancelled, or fire twice. */
  lemma FiresOrCancels(steps: seq<Step>, id: Id)
    requires Runs(START, steps) && id in Run(START, steps).timers.fired
    ensures id !in Run(START, steps).timers.cancelled && id !in Run(START, steps).timers.live
    ensures Distinct(Run(START, steps).timers.fired)
  {
    EveryRunKeepsInv(steps);
  }

  /** In no run is a task run twice, or run after it was cancelled or rolled back. */
  lemma RunsAtMostOnce(steps: seq<Step>, id: Id)
    requires Runs(START, steps) && id in Run(START, steps).tasks.ran
    ensures Distinct(Run(START, steps).tasks.ran) && !Pending(Run(START, steps).tasks.pending, id)
    ensures id !in Run(START, steps).tasks.cancelled && id !in Run(START, steps).tasks.rolledBack
  {
    EveryRunKeepsInv(steps);
  }

  // ---------------------------------------------------------------------
  // After exit
  // ---------------------------------------------------------------------

  /** Nothing of the service can run: no actor, no live timer, and only tasks that will be rolled back. */
  ghost predicate Quiet(m: Manager, service: string) {
    && service !in m.reg.actors
    && (forall task :: task in m.tasks.pending && task.service == service ==> task.id in m.tasks.inFlight)
    && (forall id :: id in m.timers.live ==> m.timers.live[id].service != service)
  }

  /** The tasks of all other services are the same in both. */
  ghost predicate OtherTasksKept(t: Tasks, t': Tasks, service: string) {
    && (forall task: Task :: task.service != service ==> (task in t.pending <==> task in t'.pending))
    && (forall s :: s != service ==> At(t.byService, s) == At(t'.byService, s))
  }

  /** The timers of all other services are the same in both. */
  ghost predicate OtherTimersKept(t: Timers, t': Timers, service: string) {
    && (forall id :: id in t.live && t.live[id].service != service ==> id in t'.live && t'.live[id] == t.live[id])
    && (forall id :: id in t'.live && t'.live[id].service != service ==> id in t.live && t.live[id] == t'.live[id])
    && t'.starting == t.starting
    && (forall s :: s != service ==> At(t.byService, s) == At(t'.byService, s))
  }

  ghost predicate OtherTimeoutsKept(c: Calls, c': Calls, service: string) {
    && c'.pending == c.pending
    && forall k :: k in c.pending && c.pending[k].service != service ==> (k in c.timeouts <==> k in c'.timeouts)
  }

  ghost predicate OthersUnchanged(m: Manager, m': Manager, service: string) {
    && OtherTasksKept(m.tasks, m'.tasks, service)
    && OtherTimersKept(m.timers, m'.timers, service)
    && OtherTimeoutsKept(m.calls, m'.calls, service)
    && Reg.OthersKept(m.reg, m'.reg, {service})
    && m'.reg.services == m.reg.services - {service}
  }

  /** Nothing of the service is left, apart from timers in the middle of being scheduled. */
  ghost predicate Gone(m: Manager, service: string) {
    && service !in m.reg.services && service !in m.reg.actors
    && Reg.NoNamesOf(m.reg, {service})
    && (forall task :: task in m.tasks.pending ==> task.service != service)
    && (forall id :: id in m.timers.live && m.timers.live[id].service == service ==> id in m.timers.starting)
    && (forall k :: k in m.calls.timeouts && k in m.calls.pending ==> m.calls.pending[k].service != service)
  }

  /** A timer of the service is between its two scheduling steps. */
  ghost predicate MidScheduling(t: Timers, service: string) {
    exists id :: id in t.starting && id in t.live && t.live[id].service == service
  }

  lemma ExitTasks(t: Tasks, service: string, actors: set<string>)
    requires TaskInv(t)
    ensures OtherTasksKept(t, TaskApply(t, CancelTasks(service), actors), service)
  {
    CancelTasksKeepsInv(t, service, actors);
  }

  lemma ExitTimers(t: Timers, service: string, actors: set<string>)
    requires TimerInv(t)
    ensures OtherTimersKept(t, TimerApply(t, CancelTimers(service), actors), service)
    ensures (forall id :: id in TimerApply(t, CancelTimers(service), actors).live ==>
               TimerApply(t, CancelTimers(service), actors).live[id].service != service)
            <==> !MidScheduling(t, service)
  {
    var t' := TimerApply(t, CancelTimers(service), actors);
    CancelTimersKeepsInv(t, service, actors);
    if MidScheduling(t, service) {
      var id :| id in t.starting && id in t.live && t.live[id].service == service;
      assert id in t'.live && t'.live[id] == t.live[id];
    }
  }

  lemma ExitCalls(c: Calls, service: string)
    ensures OtherTimeoutsKept(c, CallApply(c, DropTimeouts(service)), service)
  {
  }

  /** Exit touches no other service. */
  lemma ExitKeepsOthers(m: Manager, id: string, hook: seq<Reg.NameOp>)
    requires Inv(m) && id in m.reg.services
    ensures OthersUnchanged(m, Apply(m, Exit(id, hook)), id)
  {
    var m' := Apply(m, Exit(id, hook));
    assert Reg.OthersKept(m.reg, m'.reg, {id}) && m'.reg.services == m.reg.services - {id} by {
      Reg.ExitKeepsInv(m.reg, id, hook);
    }
    assert OtherTasksKept(m.tasks, m'.tasks, id) by {
      ExitTasks(m.tasks, id, m.reg.actors);
    }
    assert OtherTimersKept(m.timers, m'.timers, id) by {
      ExitTimers(m.timers, id, m.reg.actors);
    }
    ExitCalls(m.calls, id);
  }

  /** Exit takes out everything a running service has. */
  lemma ExitTakesAll(m: Manager, id: string, hook: seq<Reg.NameOp>)
    requires Inv(m) && id in m.reg.services
    ensures Gone(Apply(m, Exit(id, hook)), id)
  {
    hide TaskInv, TimerInv, CallInv, Reg.Inv, Reg.Exit;
    var m' := Apply(m, Exit(id, hook));
    Reg.ExitKeepsInv(m.reg, id, hook);
    assert forall task :: task in m'.tasks.pending ==> task.service != id by {
      CancelTasksKeepsInv(m.tasks, id, m.reg.actors);
    }
    assert forall k :: k in m'.timers.live && m'.timers.live[k].service == id ==> k in m'.timers.starting by {
      CancelTimersKeepsInv(m.timers, id, m.reg.actors);
    }
  }

  /**
   * The service is quiet after exit if and only if none of its timers was caught in the middle of being
   * scheduled.
   */
  lemma ExitSilencesExactly(m: Manager, id: string, hook: seq<Reg.NameOp>)
    requires Inv(m) && id in m.reg.services
    ensures Quiet(Apply(m, Exit(id, hook)), id) <==> !MidScheduling(m.timers, id)
  {
    ExitTakesAll(m, id, hook);
    ExitTimers(m.timers, id, m.reg.actors);
  }

  /** An exit whose critical sections follow each other directly is the exit step. */
  lemma ExitInSections(m: Manager, id: string)
    requires Inv(m) && id in m.reg.services
    ensures var cancelled := Apply(Apply(m, OnTask(CancelTasks(id))), OnTimer(CancelTimers(id)));
            var ended := Apply(Apply(cancelled, OnCall(DropTimeouts(id))), Unlist(id));
            ended.(reg := ended.reg.(exits := m.reg.exits + [id])) == Apply(m, Exit(id, []))
  {
  }

  /** Once quiet, a service stays quiet until it is spawned again. */
  lemma QuietStep(m: Manager, step: Step, service: string)
    requires Inv(m) && Enabled(m, step) && Quiet(m, service)
    requires step != BeginSpawn(service)
    ensures Quiet(Apply(m, step), service)
  {
    match step {
      case OnTask(task) => QuietTasks(m, task, service);
      case OnTimer(timer) => QuietTimers(m, timer, service);
      case Exit(id, hook) =>
        if id in m.reg.services {
          QuietExit(m, id, hook, service);
        }
      case Name(owner, op) => Reg.RenameKeepsInv(m.reg, owner, op);
      case _ =>
    }
  }

  lemma QuietExit(m: Manager, id: string, hook: seq<Reg.NameOp>, service: string)
    requires Inv(m) && id in m.reg.services && Quiet(m, service)
    ensures Quiet(Apply(m, Exit(id, hook)), service)
  {
    Reg.ExitKeepsInv(m.reg, id, hook);
    CancelTasksKeepsInv(m.tasks, id, m.reg.actors);
    CancelTimersKeepsInv(m.timers, id, m.reg.actors);
    hide TaskInv, TimerInv, CallInv, Reg.Inv;
  }

  lemma QuietTasks(m: Manager, step: TaskStep, service: string)
    requires Inv(m) && TaskEnabled(m.tasks, step) && Quiet(m, service)
    ensures forall task :: task in TaskApply(m.tasks, step, m.reg.actors).pending && task.service == service ==>
              task.id in TaskApply(m.tasks, step, m.reg.actors).inFlight
    ensures TaskApply(m.tasks, step, m.reg.actors).ran != m.tasks.ran ==>
              step.RunTask? && Task(step.id, service) !in m.tasks.pending
  {
    var t, t' := m.tasks, TaskApply(m.tasks, step, m.reg.actors);
    match step {
      case Enqueue(s) =>
      case Route(id) =>
        DropSpec(t.pending, {id});
        forall task | task in t'.pending && task.service == service ensures task.id in t'.inFlight {
          if task.id == id {
            assert false;
          }
        }
      case RunTask(id) => DropSpec(t.pending, {id});
      case CancelTasks(s) => CancelTasksKeepsInv(t, s, m.reg.actors);
    }
  }

  lemma QuietTimers(m: Manager, step: TimerStep, service: string)
    requires Inv(m) && TimerEnabled(m.timers, step) && Quiet(m, service)
    ensures forall id :: id in TimerApply(m.timers, step, m.reg.actors).live ==>
              TimerApply(m.timers, step, m.reg.actors).live[id].service != service
  {
  }

  /** Along any run without a new spawn of it, an exited service stays quiet. */
  lemma {:induction false} StaysQuiet(m: Manager, steps: seq<Step>, service: string)
    requires Inv(m) && Quiet(m, service) && Runs(m, steps)
    requires BeginSpawn(service) !in steps
    ensures Inv(Run(m, steps)) && Quiet(Run(m, steps), service)
  {
    if steps != [] {
      var before, last := steps[..|steps| - 1], steps[|steps| - 1];
      assert last in steps;
      StaysQuiet(m, before, service);
      StepKeepsInv(Run(m, before), last);
      QuietStep(Run(m, before), last, service);
    }
  }
}
