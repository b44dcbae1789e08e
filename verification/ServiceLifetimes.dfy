/**
 * What a service leaves behind when it goes: the tasks and timers of a service followed through
 * arbitrary runs, and from that when an interleaved exit or a failed on_init leaves nothing.
 */
module ServiceLifetimes {
  import opened Collections
  import opened Scheduling
  import opened SuspendedCalls
  import opened ServiceManager
  import Reg = ServiceRegistry

  /** Task k of the service is queued and its actor has been told to run it. */
  ghost predicate Due(m: Manager, k: Id, service: string) {
    Task(k, service) in m.tasks.pending && k !in m.tasks.inFlight
  }

  ghost predicate Ticking(m: Manager, k: Id, service: string) {
    k in m.timers.live && m.timers.live[k].service == service
  }

  lemma QuietMeans(m: Manager, service: string)
    ensures Quiet(m, service) <==>
            service !in m.reg.actors && (forall k :: !Due(m, k, service)) && (forall k :: !Ticking(m, k, service))
  {
    if forall k :: !Due(m, k, service) {
      forall task | task in m.tasks.pending && task.service == service ensures task.id in m.tasks.inFlight {
        assert task == Task(task.id, service) && !Due(m, task.id, service);
      }
    }
    if forall k :: !Ticking(m, k, service) {
      forall id | id in m.timers.live ensures m.timers.live[id].service != service {
        assert !Ticking(m, id, service);
      }
    }
  }

  // ---------------------------------------------------------------------
  // Steps that begin and end a task or timer
  // ---------------------------------------------------------------------

  ghost predicate ExitsNow(m: Manager, step: Step, service: string) {
    step.Exit? && step.id == service && service in m.reg.services
  }

  /** The step sends a queued task to the actor of its service. */
  ghost predicate Sends(m: Manager, step: Step, k: Id, service: string) {
    step == OnTask(Route(k)) && Task(k, service) in m.tasks.pending && service in m.reg.actors
  }

  /** The step runs the task, or cancels all tasks of the service. */
  ghost predicate EndsTask(m: Manager, step: Step, k: Id, service: string) {
    step == OnTask(RunTask(k)) || step == OnTask(CancelTasks(service)) || ExitsNow(m, step, service)
  }

  /** The step schedules the timer. */
  ghost predicate Schedules(m: Manager, step: Step, k: Id, service: string) {
    && step.OnTimer? && step.timer.Schedule? && step.timer.service == service
    && service in m.reg.actors && k == Id(m.timers.next)
  }

  /** The step fires the timer for good, cancels it, fails to start it, or cancels the timers of the service. */
  ghost predicate EndsTimer(m: Manager, step: Step, k: Id, service: string) {
    || step == OnTimer(CancelTimer(k))
    || step == OnTimer(Started(k, false))
    || (step == OnTimer(Fire(k)) && k in m.timers.live && !m.timers.live[k].repeating)
    || ((step == OnTimer(CancelTimers(service)) || ExitsNow(m, step, service)) && k !in m.timers.starting)
  }

  lemma DueTaskStep(t: Tasks, step: TaskStep, actors: set<string>, k: Id, service: string)
    requires TaskInv(t) && TaskEnabled(t, step)
    ensures Task(k, service) in TaskApply(t, step, actors).pending && k !in TaskApply(t, step, actors).inFlight <==>
            || (Task(k, service) in t.pending && k !in t.inFlight && step != RunTask(k) && step != CancelTasks(service))
            || (step == Route(k) && Task(k, service) in t.pending && service in actors)
  {
    match step {
      case Enqueue(s) =>
      case Route(id) =>
        DropSpec(t.pending, {id});
        if Task(k, service) in t.pending && id == k {
          RoutedToItsOwn(t, k, service);
        }
      case RunTask(id) => DropSpec(t.pending, {id});
      case CancelTasks(s) => CancelTasksKeepsInv(t, s, actors);
    }
  }

  lemma RoutedToItsOwn(t: Tasks, k: Id, service: string)
    requires TaskInv(t) && k in t.inFlight && Task(k, service) in t.pending
    ensures t.inFlight[k] == service
  {
    var i :| 0 <= i < |t.pending| && t.pending[i] == Task(k, service);
    assert t.pending[i].id == k;
  }

  lemma DueStep(m: Manager, step: Step, k: Id, service: string)
    requires Inv(m) && Enabled(m, step)
    ensures Due(Apply(m, step), k, service) <==>
            (Due(m, k, service) && !EndsTask(m, step, k, service)) || Sends(m, step, k, service)
  {
    hide TaskInv, TimerInv, CallInv, Reg.Inv;
    match step {
      case OnTask(task) =>
        hide TaskApply;
        DueTaskStep(m.tasks, task, m.reg.actors, k, service);
      case Exit(id, hook) =>
        hide TaskApply;
        DueTaskStep(m.tasks, CancelTasks(id), m.reg.actors, k, service);
      case _ =>
    }
  }

  lemma TickingStep(m: Manager, step: Step, k: Id, service: string)
    requires Inv(m) && Enabled(m, step)
    ensures Ticking(Apply(m, step), k, service) <==>
            (Ticking(m, k, service) && !EndsTimer(m, step, k, service)) || Schedules(m, step, k, service)
  {
    hide TaskInv, CallInv, Reg.Inv;
    match step {
      case OnTimer(timer) => TickingTimerStep(m, timer, k, service);
      case Exit(id, hook) =>
        if id in m.reg.services {
          CancelTimersKeepsInv(m.timers, id, m.reg.actors);
        }
      case _ =>
    }
  }

  lemma TickingTimerStep(m: Manager, timer: TimerStep, k: Id, service: string)
    requires TimerInv(m.timers) && TimerEnabled(m.timers, timer)
    ensures Ticking(m.(timers := TimerApply(m.timers, timer, m.reg.actors)), k, service) <==>
            || (Ticking(m, k, service) && !EndsTimer(m, OnTimer(timer), k, service))
            || Schedules(m, OnTimer(timer), k, service)
  {
    if timer.CancelTimers? {
      CancelTimersKeepsInv(m.timers, timer.service, m.reg.actors);
    } else if timer.Schedule? {
      assert !Issued(m.timers.next, Id(m.timers.next));
    }
  }

  // ---------------------------------------------------------------------
  // Whole runs
  // ---------------------------------------------------------------------

  /** From position `from` on, no step ends the task. */
  ghost predicate TaskStays(m: Manager, steps: seq<Step>, k: Id, service: string, from: nat)
    requires Runs(m, steps)
  {
    forall j :: from <= j < |steps| ==> !EndsTask(After(m, steps, j), steps[j], k, service)
  }

  ghost predicate TimerStays(m: Manager, steps: seq<Step>, k: Id, service: string, from: nat)
    requires Runs(m, steps)
  {
    forall j :: from <= j < |steps| ==> !EndsTimer(After(m, steps, j), steps[j], k, service)
  }

  /** Step i sends task k, and no later step ends it. */
  ghost predicate SentAndLeft(m: Manager, steps: seq<Step>, k: Id, service: string, i: nat)
    requires Runs(m, steps)
  {
    i < |steps| && Sends(After(m, steps, i), steps[i], k, service) && TaskStays(m, steps, k, service, i + 1)
  }

  /** Step i schedules timer k, and no later step ends it. */
  ghost predicate ScheduledAndLeft(m: Manager, steps: seq<Step>, k: Id, service: string, i: nat)
    requires Runs(m, steps)
  {
    i < |steps| && Schedules(After(m, steps, i), steps[i], k, service) && TimerStays(m, steps, k, service, i + 1)
  }

  ghost predicate TaskLeft(m: Manager, steps: seq<Step>, k: Id, service: string)
    requires Runs(m, steps)
  {
    exists i: nat :: SentAndLeft(m, steps, k, service, i)
  }

  ghost predicate TimerLeft(m: Manager, steps: seq<Step>, k: Id, service: string)
    requires Runs(m, steps)
  {
    exists i: nat :: ScheduledAndLeft(m, steps, k, service, i)
  }

  lemma TaskStaysStep(m: Manager, steps: seq<Step>, k: Id, service: string, from: nat)
    requires Runs(m, steps) && steps != [] && from <= |steps| - 1
    ensures var last := |steps| - 1;
            TaskStays(m, steps, k, service, from) <==>
            TaskStays(m, steps[..last], k, service, from) && !EndsTask(Run(m, steps[..last]), steps[last], k, service)
  {
    hide EndsTask, Run, Apply;
    var last := |steps| - 1;
    assert After(m, steps, last) == Run(m, steps[..last]);
    forall j | from <= j < last
      ensures After(m, steps, j) == After(m, steps[..last], j) && steps[j] == steps[..last][j]
    {
    }
    if TaskStays(m, steps, k, service, from) {
      forall j | from <= j < last ensures !EndsTask(After(m, steps[..last], j), steps[..last][j], k, service) {
        assert !EndsTask(After(m, steps, j), steps[j], k, service);
      }
    }
  }

  lemma TimerStaysStep(m: Manager, steps: seq<Step>, k: Id, service: string, from: nat)
    requires Runs(m, steps) && steps != [] && from <= |steps| - 1
    ensures var last := |steps| - 1;
            TimerStays(m, steps, k, service, from) <==>
            TimerStays(m, steps[..last], k, service, from) && !EndsTimer(Run(m, steps[..last]), steps[last], k, service)
  {
    hide EndsTimer, Run, Apply;
    var last := |steps| - 1;
    assert After(m, steps, last) == Run(m, steps[..last]);
    forall j | from <= j < last
      ensures After(m, steps, j) == After(m, steps[..last], j) && steps[j] == steps[..last][j]
    {
    }
    if TimerStays(m, steps, k, service, from) {
      forall j | from <= j < last ensures !EndsTimer(After(m, steps[..last], j), steps[..last][j], k, service) {
        assert !EndsTimer(After(m, steps, j), steps[j], k, service);
      }
    }
  }

  /** One more step: whoever was left stays unless it ends, or this step sends. */
  lemma SentStep(m: Manager, steps: seq<Step>, k: Id, service: string)
    requires Runs(m, steps) && steps != []
    ensures var last := |steps| - 1;
            var before := Run(m, steps[..last]);
            TaskLeft(m, steps, k, service) <==>
            || (TaskLeft(m, steps[..last], k, service) && !EndsTask(before, steps[last], k, service))
            || Sends(before, steps[last], k, service)
  {
    hide EndsTask, Sends, Run, Apply;
    var last := |steps| - 1;
    assert After(m, steps, last) == Run(m, steps[..last]);
    if TaskLeft(m, steps, k, service) {
      var i: nat :| SentAndLeft(m, steps, k, service, i);
      if i < last {
        hide TaskStays;
        TaskStaysStep(m, steps, k, service, i + 1);
        assert After(m, steps, i) == After(m, steps[..last], i) && steps[i] == steps[..last][i];
        assert SentAndLeft(m, steps[..last], k, service, i);
      }
    }
    if Sends(Run(m, steps[..last]), steps[last], k, service) {
      assert SentAndLeft(m, steps, k, service, last);
    }
    if TaskLeft(m, steps[..last], k, service) && !EndsTask(Run(m, steps[..last]), steps[last], k, service) {
      var i: nat :| SentAndLeft(m, steps[..last], k, service, i);
      hide TaskStays;
      TaskStaysStep(m, steps, k, service, i + 1);
      assert After(m, steps, i) == After(m, steps[..last], i) && steps[i] == steps[..last][i];
      assert SentAndLeft(m, steps, k, service, i);
    }
  }

  lemma ScheduledStep(m: Manager, steps: seq<Step>, k: Id, service: string)
    requires Runs(m, steps) && steps != []
    ensures var last := |steps| - 1;
            var before := Run(m, steps[..last]);
            TimerLeft(m, steps, k, service) <==>
            || (TimerLeft(m, steps[..last], k, service) && !EndsTimer(before, steps[last], k, service))
            || Schedules(before, steps[last], k, service)
  {
    hide EndsTimer, Schedules, Run, Apply;
    var last := |steps| - 1;
    assert After(m, steps, last) == Run(m, steps[..last]);
    if TimerLeft(m, steps, k, service) {
      var i: nat :| ScheduledAndLeft(m, steps, k, service, i);
      if i < last {
        hide TimerStays;
        TimerStaysStep(m, steps, k, service, i + 1);
        assert After(m, steps, i) == After(m, steps[..last], i) && steps[i] == steps[..last][i];
        assert ScheduledAndLeft(m, steps[..last], k, service, i);
      }
    }
    if Schedules(Run(m, steps[..last]), steps[last], k, service) {
      assert ScheduledAndLeft(m, steps, k, service, last);
    }
    if TimerLeft(m, steps[..last], k, service) && !EndsTimer(Run(m, steps[..last]), steps[last], k, service) {
      var i: nat :| ScheduledAndLeft(m, steps[..last], k, service, i);
      hide TimerStays;
      TimerStaysStep(m, steps, k, service, i + 1);
      assert After(m, steps, i) == After(m, steps[..last], i) && steps[i] == steps[..last][i];
      assert ScheduledAndLeft(m, steps, k, service, i);
    }
  }

  lemma {:induction false} RunFromInv(m: Manager, steps: seq<Step>)
    requires Inv(m) && Runs(m, steps)
    ensures Inv(Run(m, steps))
  {
    if steps != [] {
      RunFromInv(m, steps[..|steps| - 1]);
      StepKeepsInv(Run(m, steps[..|steps| - 1]), steps[|steps| - 1]);
    }
  }

  /** A task is due at the end of a run exactly when it was due before or was sent, and nothing ended it since. */
  lemma {:induction false} DueExactly(m: Manager, steps: seq<Step>, k: Id, service: string)
    requires Inv(m) && Runs(m, steps)
    ensures Due(Run(m, steps), k, service) <==>
            || (Due(m, k, service) && TaskStays(m, steps, k, service, 0))
            || TaskLeft(m, steps, k, service)
  {
    if steps != [] {
      hide Inv, Due, EndsTask, Sends, Apply, TaskStays, TaskLeft;
      var before := steps[..|steps| - 1];
      DueExactly(m, before, k, service);
      RunFromInv(m, before);
      DueStep(Run(m, before), steps[|steps| - 1], k, service);
      TaskStaysStep(m, steps, k, service, 0);
      SentStep(m, steps, k, service);
    }
  }

  /** The same for a timer. */
  lemma {:induction false} TickingExactly(m: Manager, steps: seq<Step>, k: Id, service: string)
    requires Inv(m) && Runs(m, steps)
    ensures Ticking(Run(m, steps), k, service) <==>
            || (Ticking(m, k, service) && TimerStays(m, steps, k, service, 0))
            || TimerLeft(m, steps, k, service)
  {
    if steps != [] {
      hide Inv, Ticking, EndsTimer, Schedules, Apply, TimerStays, TimerLeft;
      var before := steps[..|steps| - 1];
      TickingExactly(m, before, k, service);
      RunFromInv(m, before);
      TickingStep(Run(m, before), steps[|steps| - 1], k, service);
      TimerStaysStep(m, steps, k, service, 0);
      ScheduledStep(m, steps, k, service);
    }
  }

  // ---------------------------------------------------------------------
  // A failed on_init
  // ---------------------------------------------------------------------

  /** Some step sends a queued task of the service to its actor, and no later step runs or cancels it. */
  ghost predicate LeavesTask(m: Manager, steps: seq<Step>, service: string)
    requires Runs(m, steps)
  {
    exists k :: TaskLeft(m, steps, k, service)
  }

  /** Some step schedules a timer of the service, and no later step fires it for good or cancels it. */
  ghost predicate LeavesTimer(m: Manager, steps: seq<Step>, service: string)
    requires Runs(m, steps)
  {
    exists k :: TimerLeft(m, steps, k, service)
  }

  /** From a start without due tasks, those at the end are the ones the steps left. */
  lemma DueAfter(m: Manager, steps: seq<Step>, service: string)
    requires Inv(m) && Runs(m, steps) && forall k :: !Due(m, k, service)
    ensures (exists k :: Due(Run(m, steps), k, service)) <==> LeavesTask(m, steps, service)
  {
    hide Inv, Due, TaskLeft, TaskStays, Run, Runs;
    if k :| Due(Run(m, steps), k, service) {
      DueExactly(m, steps, k, service);
      assert TaskLeft(m, steps, k, service);
    }
    if k :| TaskLeft(m, steps, k, service) {
      DueExactly(m, steps, k, service);
    }
  }

  /** The same for timers. */
  lemma TickingAfter(m: Manager, steps: seq<Step>, service: string)
    requires Inv(m) && Runs(m, steps) && forall k :: !Ticking(m, k, service)
    ensures (exists k :: Ticking(Run(m, steps), k, service)) <==> LeavesTimer(m, steps, service)
  {
    hide Inv, Ticking, TimerLeft, TimerStays, Run, Runs;
    if k :| Ticking(Run(m, steps), k, service) {
      TickingExactly(m, steps, k, service);
      assert TimerLeft(m, steps, k, service);
    }
    if k :| TimerLeft(m, steps, k, service) {
      TickingExactly(m, steps, k, service);
    }
  }

  /**
   * A spawn of a quiet service whose on_init fails, with any steps while on_init runs: nothing of the
   * service is left if and only if the steps left no task and no timer of it.
   */
  lemma FailedInitExactly(m: Manager, id: string, steps: seq<Step>)
    requires Inv(m) && Quiet(m, id) && Runs(Apply(m, BeginSpawn(id)), steps)
    ensures var begun := Apply(m, BeginSpawn(id));
            Quiet(Apply(Run(begun, steps), InitFailed(id)), id) <==>
            !LeavesTask(begun, steps, id) && !LeavesTimer(begun, steps, id)
  {
    hide LeavesTask, LeavesTimer, Run, Runs;
    var begun := Apply(m, BeginSpawn(id));
    StepKeepsInv(m, BeginSpawn(id));
    hide Inv;
    QuietMeans(m, id);
    forall k ensures !Due(begun, k, id) && !Ticking(begun, k, id) {
      assert !Due(m, k, id) && !Ticking(m, k, id);
    }
    DueAfter(begun, steps, id);
    TickingAfter(begun, steps, id);
    var ended := Run(begun, steps);
    Unactored(ended, Apply(ended, InitFailed(id)), id);
  }

  /** A step that only drops the actor leaves quiet behind exactly when no task is due and no timer ticks. */
  lemma Unactored(m: Manager, m': Manager, service: string)
    requires m'.tasks == m.tasks && m'.timers == m.timers && service !in m'.reg.actors
    ensures Quiet(m', service) <==> !(exists k :: Due(m, k, service)) && !(exists k :: Ticking(m, k, service))
  {
    QuietMeans(m', service);
    assert forall k :: Due(m', k, service) <==> Due(m, k, service);
    assert forall k :: Ticking(m', k, service) <==> Ticking(m, k, service);
  }

  lemma TwoSteps(m: Manager, s1: Step, s2: Step)
    requires Enabled(m, s1) && Enabled(Apply(m, s1), s2)
    ensures Runs(m, [s1, s2]) && Run(m, [s1, s2]) == Apply(Apply(m, s1), s2)
    ensures After(m, [s1, s2], 0) == m && After(m, [s1, s2], 1) == Apply(m, s1)
  {
    hide Apply, Enabled;
    assert [s1, s2][..1] == [s1] && [s1][..0] == [];
    assert Runs(m, []) && Runs(m, [s1]) && Run(m, [s1]) == Apply(m, s1);
    assert After(m, [s1], 0) == m && After(m, [s1], 1) == Apply(m, s1);
    assert After(m, [s1, s2], 0) == After(m, [s1], 0) && After(m, [s1, s2], 1) == After(m, [s1], 1);
  }

  /** What a run leaves is still there after the service has been taken off the tables. */
  lemma LeftIsNotQuiet(m: Manager, steps: seq<Step>, k: Id, service: string, last: Step)
    requires Inv(m) && Runs(m, steps) && (last == InitFailed(service) || last == Unlist(service))
    requires TaskLeft(m, steps, k, service) || TimerLeft(m, steps, k, service)
    ensures !Quiet(Apply(Run(m, steps), last), service)
  {
    DueExactly(m, steps, k, service);
    TickingExactly(m, steps, k, service);
    hide TaskLeft, TimerLeft, TaskStays, TimerStays, Run, Runs, Inv;
    Unactored(Run(m, steps), Apply(Run(m, steps), last), service);
  }

  /** A task forked during on_init is left, from every state: its actor gets the id, and is then let go of. */
  lemma FailedInitLeavesTask(m: Manager, id: string)
    requires Inv(m) && id != ""
    ensures var begun := Apply(m, BeginSpawn(id));
            var steps := [OnTask(Enqueue(id)), OnTask(Route(Id(m.tasks.next)))];
            Runs(begun, steps) && !Quiet(Apply(Run(begun, steps), InitFailed(id)), id)
  {
    var begun, k := Apply(m, BeginSpawn(id)), Id(m.tasks.next);
    var s1, s2 := OnTask(Enqueue(id)), OnTask(Route(k));
    TwoSteps(begun, s1, s2);
    var queued := Apply(begun, s1).tasks.pending;
    assert queued[|queued| - 1] == Task(k, id);
    assert SentAndLeft(begun, [s1, s2], k, id, 1);
    assert TaskLeft(begun, [s1, s2], k, id);
    StepKeepsInv(m, BeginSpawn(id));
    LeftIsNotQuiet(begun, [s1, s2], k, id, InitFailed(id));
  }

  /** So is a timer scheduled during on_init. */
  lemma FailedInitLeavesTimer(m: Manager, id: string, repeating: bool)
    requires Inv(m)
    ensures var begun := Apply(m, BeginSpawn(id));
            var steps := [OnTimer(Schedule(id, repeating)), OnTimer(Started(Id(m.timers.next), true))];
            Runs(begun, steps) && !Quiet(Apply(Run(begun, steps), InitFailed(id)), id)
  {
    var begun, k := Apply(m, BeginSpawn(id)), Id(m.timers.next);
    var s1, s2 := OnTimer(Schedule(id, repeating)), OnTimer(Started(k, true));
    TwoSteps(begun, s1, s2);
    assert TimerStays(begun, [s1, s2], k, id, 1);
    assert ScheduledAndLeft(begun, [s1, s2], k, id, 0);
    assert TimerLeft(begun, [s1, s2], k, id);
    StepKeepsInv(m, BeginSpawn(id));
    LeftIsNotQuiet(begun, [s1, s2], k, id, InitFailed(id));
  }

  // ---------------------------------------------------------------------
  // An exit with other steps between its critical sections
  // ---------------------------------------------------------------------

  lemma {:induction false} RunsConcat(m: Manager, a: seq<Step>, b: seq<Step>)
    requires Runs(m, a) && Runs(Run(m, a), b)
    ensures Runs(m, a + b) && Run(m, a + b) == Run(Run(m, a), b)
    decreases |b|
  {
    if b == [] {
      assert a + b == a;
    } else {
      hide Apply, Enabled;
      var before := b[..|b| - 1];
      RunsConcat(m, a, before);
      assert (a + b)[..|a + b| - 1] == a + before;
    }
  }

  /** A timer of the service is between its two scheduling steps, and no step ends it. */
  ghost predicate LeavesHalfScheduled(m: Manager, steps: seq<Step>, service: string)
    requires Runs(m, steps)
  {
    exists k :: Ticking(m, k, service) && k in m.timers.starting && TimerStays(m, steps, k, service, 0)
  }

  /** Every timer of the service that is indexed in m is cancelled by one of the steps. */
  ghost predicate CancelsIndexed(m: Manager, steps: seq<Step>, service: string) {
    forall k :: k in At(m.timers.byService, service) ==> OnTimer(CancelTimer(k)) in steps
  }

  lemma IndexedIsCancelled(m: Manager, steps: seq<Step>, service: string, k: Id)
    requires Runs(m, steps) && CancelsIndexed(m, steps, service) && k in At(m.timers.byService, service)
    ensures !TimerStays(m, steps, k, service, 0)
  {
    hide Run, Runs, After;
    var j :| 0 <= j < |steps| && steps[j] == OnTimer(CancelTimer(k));
    assert EndsTimer(After(m, steps, j), steps[j], k, service);
  }

  lemma IndexedOrHalfScheduled(m: Manager, service: string, k: Id)
    requires Inv(m) && Ticking(m, k, service)
    ensures k in At(m.timers.byService, service) || k in m.timers.starting
  {
  }

  lemma TickingAfterExit(m: Manager, steps: seq<Step>, service: string)
    requires Inv(m) && Runs(m, steps) && CancelsIndexed(m, steps, service)
    ensures (exists k :: Ticking(Run(m, steps), k, service)) <==>
            LeavesTimer(m, steps, service) || LeavesHalfScheduled(m, steps, service)
  {
    hide Inv, Ticking, CancelsIndexed, TimerStays, TimerLeft, Run, Runs;
    if k :| Ticking(Run(m, steps), k, service) {
      TickingExactly(m, steps, k, service);
      if !TimerLeft(m, steps, k, service) {
        IndexedOrHalfScheduled(m, service, k);
        NotIndexed(m, steps, service, k);
        assert LeavesHalfScheduled(m, steps, service);
      }
    }
    if k :| TimerLeft(m, steps, k, service) {
      TickingExactly(m, steps, k, service);
    }
    if k :| Ticking(m, k, service) && k in m.timers.starting && TimerStays(m, steps, k, service, 0) {
      TickingExactly(m, steps, k, service);
    }
  }

  lemma NotIndexed(m: Manager, steps: seq<Step>, service: string, k: Id)
    requires Runs(m, steps) && CancelsIndexed(m, steps, service) && TimerStays(m, steps, k, service, 0)
    ensures k !in At(m.timers.byService, service)
  {
    hide *;
    if k in At(m.timers.byService, service) {
      IndexedIsCancelled(m, steps, service, k);
      assert false;
    }
  }

  lemma CancelledTasksAreNotDue(m: Manager, service: string)
    requires Inv(m)
    ensures forall k :: !Due(Apply(m, OnTask(CancelTasks(service))), k, service)
  {
    CancelTasksKeepsInv(m.tasks, service, m.reg.actors);
  }

  /**
   * An exit as the code performs it, with any steps in between: the tasks are cancelled, then the indexed
   * timers are listed, then they are cancelled one by one and the call timeouts dropped among `after`,
   * and at last the service is unlisted. Nothing of the service is left if and only if
   *   - no step after the cancelling of tasks sends a task of it that is not run or cancelled again,
   *   - no step after the listing of timers schedules one that is not ended again, and
   *   - no timer that was half scheduled at the listing is left.
   */
  lemma InterleavedExitExactly(m: Manager, id: string, between: seq<Step>, after: seq<Step>)
    requires Inv(m) && Runs(Apply(m, OnTask(CancelTasks(id))), between)
    requires Runs(Run(Apply(m, OnTask(CancelTasks(id))), between), after)
    requires CancelsIndexed(Run(Apply(m, OnTask(CancelTasks(id))), between), after, id)
    ensures var cancelled := Apply(m, OnTask(CancelTasks(id)));
            var listed := Run(cancelled, between);
            && Runs(cancelled, between + after)
            && (Quiet(Apply(Run(listed, after), Unlist(id)), id) <==>
                && !LeavesTask(cancelled, between + after, id)
                && !LeavesTimer(listed, after, id)
                && !LeavesHalfScheduled(listed, after, id))
  {
    hide LeavesTask, LeavesTimer, LeavesHalfScheduled, CancelsIndexed, Run, Runs, Inv;
    var cancelled := Apply(m, OnTask(CancelTasks(id)));
    StepKeepsInv(m, OnTask(CancelTasks(id)));
    RunFromInv(cancelled, between);
    var listed := Run(cancelled, between);
    RunsConcat(cancelled, between, after);
    CancelledTasksAreNotDue(m, id);
    DueAfter(cancelled, between + after, id);
    TickingAfterExit(listed, after, id);
    var ended := Run(listed, after);
    Unactored(ended, Apply(ended, Unlist(id)), id);
  }

  /** None of the steps routes a queued task of the service. */
  ghost predicate RoutesNone(m: Manager, steps: seq<Step>, service: string)
    requires Runs(m, steps)
  {
    forall i, k :: 0 <= i < |steps| && steps[i] == OnTask(Route(k)) ==>
      Task(k, service) !in After(m, steps, i).tasks.pending
  }

  /** None of the steps schedules a timer for the service. */
  predicate SchedulesNone(steps: seq<Step>, service: string) {
    forall i :: 0 <= i < |steps| && steps[i].OnTimer? && steps[i].timer.Schedule? ==> steps[i].timer.service != service
  }

  lemma RoutesNoneLeavesNone(m: Manager, steps: seq<Step>, service: string)
    requires Runs(m, steps) && RoutesNone(m, steps, service)
    ensures !LeavesTask(m, steps, service)
  {
    hide Run, Runs, After;
    forall k ensures !TaskLeft(m, steps, k, service) {
    }
  }

  lemma SchedulesNoneLeavesNone(m: Manager, steps: seq<Step>, service: string)
    requires Runs(m, steps) && SchedulesNone(steps, service)
    ensures !LeavesTimer(m, steps, service)
  {
    hide Run, Runs, After;
    forall k ensures !TimerLeft(m, steps, k, service) {
    }
  }

  /** In particular, whatever else happens in between, an exit nobody interferes with leaves nothing. */
  lemma UndisturbedExit(m: Manager, id: string, between: seq<Step>, after: seq<Step>)
    requires Inv(m) && Runs(Apply(m, OnTask(CancelTasks(id))), between)
    requires Runs(Run(Apply(m, OnTask(CancelTasks(id))), between), after)
    requires CancelsIndexed(Run(Apply(m, OnTask(CancelTasks(id))), between), after, id)
    requires !MidScheduling(Run(Apply(m, OnTask(CancelTasks(id))), between).timers, id)
    requires SchedulesNone(after, id)
    requires Runs(Apply(m, OnTask(CancelTasks(id))), between + after)
    requires RoutesNone(Apply(m, OnTask(CancelTasks(id))), between + after, id)
    ensures Quiet(Apply(Run(Run(Apply(m, OnTask(CancelTasks(id))), between), after), Unlist(id)), id)
  {
    hide LeavesTask, LeavesTimer, CancelsIndexed, RoutesNone, SchedulesNone, Run, Runs, Inv, TimerStays;
    var cancelled := Apply(m, OnTask(CancelTasks(id)));
    InterleavedExitExactly(m, id, between, after);
    RoutesNoneLeavesNone(cancelled, between + after, id);
    SchedulesNoneLeavesNone(Run(cancelled, between), after, id);
  }

  /** Steps that cancel single timers, each indexed for the service in m. */
  ghost predicate OnlyCancels(m: Manager, steps: seq<Step>, service: string) {
    forall i :: 0 <= i < |steps| ==>
      steps[i].OnTimer? && steps[i].timer.CancelTimer? && steps[i].timer.id in At(m.timers.byService, service)
  }

  /** Steps that can be taken in every state. */
  predicate AlwaysEnabled(steps: seq<Step>) {
    forall i :: 0 <= i < |steps| ==>
      || (steps[i].OnTimer? && !steps[i].timer.Started?)
      || (steps[i].OnCall? && !steps[i].call.Suspend?)
  }

  lemma {:induction false} AlwaysRuns(m: Manager, steps: seq<Step>)
    requires AlwaysEnabled(steps)
    ensures Runs(m, steps)
  {
    if steps != [] {
      AlwaysRuns(m, steps[..|steps| - 1]);
    }
  }

  /** The first step schedules a timer that none of the others cancels. */
  lemma FirstScheduleStays(m: Manager, id: string, steps: seq<Step>, k: Id)
    requires Runs(m, steps) && id in m.reg.actors && k == Id(m.timers.next)
    requires |steps| > 0 && steps[0] == OnTimer(Schedule(id, false))
    requires forall i :: 0 < i < |steps| ==>
               (steps[i].OnTimer? && steps[i].timer.CancelTimer? && steps[i].timer.id != k) || steps[i].OnCall?
    ensures TimerLeft(m, steps, k, id)
  {
    AfterIsRun(m, steps, 0);
    hide Run, Runs, After, Apply;
    assert steps[..0] == [];
    assert After(m, steps, 0) == m by {
      NoStepsNoChange(m);
    }
    forall j | 1 <= j < |steps| ensures !EndsTimer(After(m, steps, j), steps[j], k, id) {
    }
    assert ScheduledAndLeft(m, steps, k, id, 0);
  }

  lemma NoStepsNoChange(m: Manager)
    ensures Runs(m, []) && Run(m, []) == m
  {
  }

  /**
   * From every consistent state of a service with an actor: an exit that cancels its tasks, lists its
   * timers and cancels those listed, during which the service schedules one more timer, leaves that timer.
   */
  lemma TimerScheduledDuringExit(m: Manager, id: string, cancels: seq<Step>)
    requires Inv(m) && id in m.reg.actors && OnlyCancels(m, cancels, id) && CancelsIndexed(m, cancels, id)
    ensures var cancelled := Apply(m, OnTask(CancelTasks(id)));
            var after := [OnTimer(Schedule(id, false))] + cancels + [OnCall(DropTimeouts(id))];
            && Runs(cancelled, after) && CancelsIndexed(cancelled, after, id)
            && !Quiet(Apply(Run(cancelled, after), Unlist(id)), id)
  {
    var cancelled, k := Apply(m, OnTask(CancelTasks(id))), Id(m.timers.next);
    var after := [OnTimer(Schedule(id, false))] + cancels + [OnCall(DropTimeouts(id))];
    StepKeepsInv(m, OnTask(CancelTasks(id)));
    assert cancelled.timers == m.timers && cancelled.reg == m.reg;
    assert k !in At(m.timers.byService, id) by {
      assert !Issued(m.timers.next, k);
    }
    hide Inv, Apply;
    forall i | 0 <= i < |cancels| ensures after[i + 1] == cancels[i] {
    }
    forall i | 0 < i < |after| - 1
      ensures after[i].OnTimer? && after[i].timer.CancelTimer? && after[i].timer.id != k
    {
      assert after[i] == cancels[i - 1];
    }
    assert AlwaysEnabled(after);
    AlwaysRuns(cancelled, after);
    FirstScheduleStays(cancelled, id, after, k);
    hide TimerLeft, AlwaysEnabled;
    LeftIsNotQuiet(cancelled, after, k, id, Unlist(id));
    assert CancelsIndexed(cancelled, after, id) by {
      forall j | j in At(m.timers.byService, id) ensures OnTimer(CancelTimer(j)) in after {
        assert OnTimer(CancelTimer(j)) in cancels;
      }
    }
  }

  // ---------------------------------------------------------------------
  // Shutdown
  // ---------------------------------------------------------------------

  /** Exit the services of `ids` from the last to the first. */
  function ExitAll(m: Manager, ids: seq<string>, hooks: map<string, seq<Reg.NameOp>>): Manager
    decreases |ids|
  {
    if ids == [] then m
    else
      var last := ids[|ids| - 1];
      ExitAll(Apply(m, Exit(last, Reg.Hook(hooks, last))), ids[..|ids| - 1], hooks)
  }

  lemma StaysWithoutActor(m: Manager, id: string, hook: seq<Reg.NameOp>, service: string)
    requires Inv(m) && service !in m.reg.actors
    ensures service !in Apply(m, Exit(id, hook)).reg.actors
  {
    hide TaskApply, TimerApply, CallApply, Reg.Exit;
    Reg.ExitKeepsInv(m.reg, id, hook);
  }

  /** The exit of one service neither silences another one without an actor nor brings it back. */
  lemma ExitOfAnother(m: Manager, id: string, hook: seq<Reg.NameOp>, service: string)
    requires Inv(m) && id != service && service !in m.reg.actors
    ensures Quiet(Apply(m, Exit(id, hook)), service) <==> Quiet(m, service)
    ensures service !in Apply(m, Exit(id, hook)).reg.actors
  {
    hide Inv, Apply, Quiet, Due, Ticking;
    var step := Exit(id, hook);
    StaysWithoutActor(m, id, hook, service);
    QuietMeans(m, service);
    QuietMeans(Apply(m, step), service);
    forall k ensures Due(Apply(m, step), k, service) <==> Due(m, k, service) {
      DueStep(m, step, k, service);
    }
    forall k ensures Ticking(Apply(m, step), k, service) <==> Ticking(m, k, service) {
      TickingStep(m, step, k, service);
    }
  }

  lemma {:induction false} LaterExits(m: Manager, ids: seq<string>, hooks: map<string, seq<Reg.NameOp>>,
                                      service: string)
    requires Inv(m) && service !in ids && service !in m.reg.actors
    ensures Quiet(ExitAll(m, ids, hooks), service) <==> Quiet(m, service)
    decreases |ids|
  {
    if ids != [] {
      hide Inv, Apply, Quiet;
      var last := ids[|ids| - 1];
      var e := Apply(m, Exit(last, Reg.Hook(hooks, last)));
      assert last in ids;
      ExitOfAnother(m, last, Reg.Hook(hooks, last), service);
      StepKeepsInv(m, Exit(last, Reg.Hook(hooks, last)));
      LaterExits(e, ids[..|ids| - 1], hooks, service);
    }
  }

  lemma SameMidScheduling(m: Manager, id: string, hook: seq<Reg.NameOp>, service: string)
    requires Inv(m) && id != service && id in m.reg.services
    ensures MidScheduling(Apply(m, Exit(id, hook)).timers, service) <==> MidScheduling(m.timers, service)
  {
    var t := Apply(m, Exit(id, hook)).timers;
    ExitTimers(m.timers, id, m.reg.actors);
    assert OtherTimersKept(m.timers, t, id);
    hide Apply, Inv;
    if k :| k in t.starting && k in t.live && t.live[k].service == service {
      assert k in m.timers.live && m.timers.live[k] == t.live[k];
    }
  }

  /** The last service exits: the others stay, in order. */
  lemma LastGoes(m: Manager, last: string, hook: seq<Reg.NameOp>)
    requires Inv(m) && m.reg.order != [] && last == m.reg.order[|m.reg.order| - 1]
    ensures var e := Apply(m, Exit(last, hook));
            && Inv(e) && e.reg.order == m.reg.order[..|m.reg.order| - 1] && last !in e.reg.order
            && e.reg.services == m.reg.services - {last} && last !in e.reg.actors && last in m.reg.services
  {
    assert last in m.reg.order;
    StepKeepsInv(m, Exit(last, hook));
    Reg.LastExit(m.reg, last, hook);
    hide TaskInv, TimerInv, CallInv, Reg.Exit, TaskApply, TimerApply, CallApply;
  }

  /**
   * A sequential shutdown, last spawned first, leaves nothing of a service if and only if none of its
   * timers was half scheduled.
   */
  lemma {:induction false} ShutdownSilencesExactly(m: Manager, hooks: map<string, seq<Reg.NameOp>>, service: string)
    requires Inv(m) && service in m.reg.services
    ensures Quiet(ExitAll(m, m.reg.order, hooks), service) <==> !MidScheduling(m.timers, service)
    decreases |m.reg.order|
  {
    assert m.reg.order != [] by {
      assert service in m.reg.order;
    }
    hide Inv, Apply, Quiet, MidScheduling;
    var last := m.reg.order[|m.reg.order| - 1];
    var hook := Reg.Hook(hooks, last);
    var e := Apply(m, Exit(last, hook));
    LastGoes(m, last, hook);
    if service == last {
      ExitSilencesExactly(m, last, hook);
      LaterExits(e, e.reg.order, hooks, service);
    } else {
      SameMidScheduling(m, last, hook, service);
      ShutdownSilencesExactly(e, hooks, service);
    }
  }

  // ---------------------------------------------------------------------
  // After that
  // ---------------------------------------------------------------------

  lemma {:induction false} AfterIsRun(m: Manager, steps: seq<Step>, i: nat)
    requires Runs(m, steps) && i <= |steps|
    ensures Runs(m, steps[..i]) && After(m, steps, i) == Run(m, steps[..i])
    decreases |steps|
  {
    if i == |steps| {
      assert steps[..i] == steps;
    } else {
      AfterIsRun(m, steps[..|steps| - 1], i);
      assert steps[..|steps| - 1][..i] == steps[..i];
    }
  }

  /** Along any run without a new spawn of it, a quiet service runs no task and fires no timer. */
  lemma QuietRunsNothing(m: Manager, steps: seq<Step>, service: string, i: nat, k: Id)
    requires Inv(m) && Quiet(m, service) && Runs(m, steps) && BeginSpawn(service) !in steps && i < |steps|
    ensures steps[i] == OnTask(RunTask(k)) ==> Task(k, service) !in After(m, steps, i).tasks.pending
    ensures steps[i] == OnTimer(Fire(k)) ==> !Ticking(After(m, steps, i), k, service)
  {
    AfterIsRun(m, steps, i);
    AfterIsRun(m, steps, i + 1);
    assert steps[..i + 1][..i] == steps[..i];
    StaysQuiet(m, steps[..i], service);
    if steps[i] == OnTask(RunTask(k)) {
      RoutedIsNotInFlight(Run(m, steps[..i]), k);
    }
  }

  lemma RoutedIsNotInFlight(m: Manager, k: Id)
    requires Inv(m) && Enabled(m, OnTask(RunTask(k)))
    ensures k !in m.tasks.inFlight
  {
  }
}
