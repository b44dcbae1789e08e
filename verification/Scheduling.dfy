/** Forked tasks and actor timers: two queues, each with a per-service index. */
module Scheduling {
  import opened Collections

  datatype Id = Id(n: nat)

  type Index = map<string, set<Id>>

  function At(index: Index, service: string): set<Id> {
    if service in index then index[service] else {}
  }

  function Insert(index: Index, service: string, id: Id): Index {
    index[service := At(index, service) + {id}]
  }

  /** Take an id out of the index; an entry that becomes empty is dropped. */
  function Erase(index: Index, service: string, id: Id): Index {
    if service !in index then index
    else if index[service] - {id} == {} then index - {service}
    else index[service := index[service] - {id}]
  }

  lemma EraseAt(index: Index, service: string, id: Id)
    ensures forall s :: At(Erase(index, service, id), s) == if s == service then At(index, s) - {id} else At(index, s)
  {
    if service in index && index[service] - {id} == {} {
      assert At(index, service) - {id} == {};
    }
  }

  // ---------------------------------------------------------------------
  // Forked tasks
  // ---------------------------------------------------------------------

  datatype Task = Task(id: Id, service: string)

  datatype Tasks = Tasks(
    next: nat,
    pending: seq<Task>,
    byService: Index,
    inFlight: map<Id, string>,    // enqueued, the owner's actor not looked up yet
    routed: set<Id>,              // the owner's actor has been sent the task id
    ran: seq<Id>,
    cancelled: set<Id>,
    rolledBack: set<Id>)

  const NO_TASKS := Tasks(1, [], map[], map[], {}, [], {}, {})

  datatype TaskStep =
    | Enqueue(service: string)      // first half of enqueue_forked_task
    | Route(id: Id)                 // second half: look the actor up, send or roll back
    | RunTask(id: Id)               // the actor receives the task id
    | CancelTasks(service: string)

  function Drop(pending: seq<Task>, ids: set<Id>): seq<Task> {
    if pending == [] then []
    else
      var last := pending[|pending| - 1];
      Drop(pending[..|pending| - 1], ids) + (if last.id in ids then [] else [last])
  }

  predicate Pending(pending: seq<Task>, id: Id) {
    exists i :: 0 <= i < |pending| && pending[i].id == id
  }

  /** Position of a task id in the queue, or the queue's length. */
  function Find(pending: seq<Task>, id: Id): (i: nat)
    ensures i <= |pending|
    ensures i < |pending| ==> pending[i].id == id
    ensures forall j :: 0 <= j < i ==> pending[j].id != id
  {
    if pending == [] then 0
    else
      var i := Find(pending[..|pending| - 1], id);
      if i < |pending| - 1 || pending[|pending| - 1].id == id then i else |pending|
  }

  predicate TaskEnabled(t: Tasks, step: TaskStep) {
    match step
    case Route(id) => id in t.inFlight
    case RunTask(id) => id in t.routed
    case _ => true
  }

  function TaskApply(t: Tasks, step: TaskStep, actors: set<string>): Tasks
    requires TaskEnabled(t, step)
  {
    match step
    case Enqueue(service) =>
      if service == "" then t
      else
        var id := Id(t.next);
        t.(next := t.next + 1, pending := t.pending + [Task(id, service)],
           byService := Insert(t.byService, service, id), inFlight := t.inFlight[id := service])
    case Route(id) =>
      var service := t.inFlight[id];
      var s := t.(inFlight := t.inFlight - {id});
      if service in actors then s.(routed := s.routed + {id})
      else s.(pending := Drop(s.pending, {id}), byService := Erase(s.byService, service, id),
              rolledBack := if Pending(s.pending, id) then s.rolledBack + {id} else s.rolledBack)
    case RunTask(id) =>
      var i := Find(t.pending, id);
      if i == |t.pending| then t
      else t.(pending := Drop(t.pending, {id}), byService := Erase(t.byService, t.pending[i].service, id),
              ran := t.ran + [id])
    case CancelTasks(service) =>
      t.(pending := Drop(t.pending, At(t.byService, service)), byService := t.byService - {service},
         cancelled := t.cancelled + At(t.byService, service))
  }

  predicate Issued(next: nat, id: Id) {
    1 <= id.n < next
  }

  /** The index lists exactly the queued tasks, service by service, and has no empty entry. */
  ghost predicate TasksIndexed(t: Tasks) {
    && (forall s, id :: id in At(t.byService, s) <==> Task(id, s) in t.pending)
    && (forall s :: s in t.byService ==> t.byService[s] != {})
  }

  ghost predicate DistinctIds(pending: seq<Task>) {
    forall i, j :: 0 <= i < j < |pending| ==> pending[i].id != pending[j].id
  }

  /** Each issued id is pending, has run, was cancelled or was rolled back: exactly one of these. */
  ghost predicate TaskFates(t: Tasks) {
    && t.next >= 1
    && DistinctIds(t.pending)
    && Distinct(t.ran)
    && (forall id :: Issued(t.next, id) <==>
          Pending(t.pending, id) || id in t.ran || id in t.cancelled || id in t.rolledBack)
    && (forall id :: Pending(t.pending, id) ==> id !in t.ran && id !in t.cancelled && id !in t.rolledBack)
    && (forall id :: id in t.ran ==> id !in t.cancelled && id !in t.rolledBack)
    && t.cancelled !! t.rolledBack
  }

  /** A queued task either still has to be routed or its actor knows about it. */
  ghost predicate TaskRoutes(t: Tasks) {
    && t.routed !! t.inFlight.Keys
    && (forall id :: id in t.routed || id in t.inFlight ==> Issued(t.next, id))
    && (forall i :: 0 <= i < |t.pending| ==>
          t.pending[i].id in t.routed ||
          (t.pending[i].id in t.inFlight && t.inFlight[t.pending[i].id] == t.pending[i].service))
  }

  ghost predicate TaskInv(t: Tasks) {
    TasksIndexed(t) && TaskFates(t) && TaskRoutes(t)
  }

  lemma {:induction false} DropSpec(pending: seq<Task>, ids: set<Id>)
    ensures forall task :: task in Drop(pending, ids) <==> task in pending && task.id !in ids
    ensures DistinctIds(pending) ==> DistinctIds(Drop(pending, ids))
  {
    if pending != [] {
      var last := |pending| - 1;
      DropSpec(pending[..last], ids);
      assert pending == pending[..last] + [pending[last]];
      var rest := Drop(pending[..last], ids);
      assert forall i :: 0 <= i < |rest| ==> rest[i] in pending[..last];
    }
  }

  lemma DropPending(pending: seq<Task>, ids: set<Id>)
    ensures forall id :: Pending(Drop(pending, ids), id) <==> Pending(pending, id) && id !in ids
  {
    DropSpec(pending, ids);
    var rest := Drop(pending, ids);
    forall id ensures Pending(rest, id) <==> Pending(pending, id) && id !in ids {
      if Pending(rest, id) {
        var i :| 0 <= i < |rest| && rest[i].id == id;
        assert rest[i] in rest;
      }
      if Pending(pending, id) && id !in ids {
        var i :| 0 <= i < |pending| && pending[i].id == id;
        assert pending[i] in pending && pending[i] in rest;
      }
    }
  }

  /** A task id is queued under one service only. */
  lemma OneService(pending: seq<Task>, a: Task, b: Task)
    requires DistinctIds(pending) && a in pending && b in pending && a.id == b.id
    ensures a == b
  {
  }

  lemma PendingAppend(pending: seq<Task>, task: Task)
    ensures forall id :: Pending(pending + [task], id) <==> Pending(pending, id) || id == task.id
  {
    var longer := pending + [task];
    forall id ensures Pending(longer, id) <==> Pending(pending, id) || id == task.id {
      assert longer[|pending|].id == task.id;
      if Pending(pending, id) {
        var i :| 0 <= i < |pending| && pending[i].id == id;
        assert longer[i].id == id;
      }
    }
  }

  lemma EnqueueFates(t: Tasks, service: string)
    requires TaskFates(t)
    ensures TaskFates(t.(next := t.next + 1, pending := t.pending + [Task(Id(t.next), service)]))
  {
    var task := Task(Id(t.next), service);
    PendingAppend(t.pending, task);
    assert !Issued(t.next, task.id);
    forall i | 0 <= i < |t.pending| ensures t.pending[i].id != task.id {
      assert Pending(t.pending, t.pending[i].id);
    }
  }

  lemma EnqueueIndexed(t: Tasks, task: Task)
    requires TasksIndexed(t)
    ensures TasksIndexed(t.(pending := t.pending + [task], byService := Insert(t.byService, task.service, task.id)))
  {
    var index := Insert(t.byService, task.service, task.id);
    forall s, id ensures id in At(index, s) <==> Task(id, s) in t.pending + [task] {
      assert At(index, s) == if s == task.service then At(t.byService, s) + {task.id} else At(t.byService, s);
    }
  }

  lemma EnqueueKeepsInv(t: Tasks, service: string, actors: set<string>)
    requires TaskInv(t)
    ensures TaskInv(TaskApply(t, Enqueue(service), actors))
  {
    if service != "" {
      var t', id := TaskApply(t, Enqueue(service), actors), Id(t.next);
      EnqueueFates(t, service);
      assert TaskFates(t');
      EnqueueIndexed(t, Task(id, service));
      assert TasksIndexed(t');
      assert !Issued(t.next, id);
      assert TaskRoutes(t');
    }
  }

  /** Taking one queued task out, with its index entry. */
  lemma TakeOut(t: Tasks, task: Task, t': Tasks)
    requires TasksIndexed(t) && DistinctIds(t.pending) && task in t.pending
    requires t'.pending == Drop(t.pending, {task.id})
    requires t'.byService == Erase(t.byService, task.service, task.id)
    ensures TasksIndexed(t') && DistinctIds(t'.pending)
  {
    DropSpec(t.pending, {task.id});
    EraseAt(t.byService, task.service, task.id);
    forall s, id ensures id in At(t'.byService, s) <==> Task(id, s) in t'.pending {
      if id == task.id && Task(id, s) in t.pending {
        OneService(t.pending, task, Task(id, s));
      }
    }
  }

  lemma RunTaskKeepsInv(t: Tasks, id: Id, actors: set<string>)
    requires TaskInv(t) && TaskEnabled(t, RunTask(id))
    ensures TaskInv(TaskApply(t, RunTask(id), actors))
  {
    var i := Find(t.pending, id);
    if i < |t.pending| {
      var t' := TaskApply(t, RunTask(id), actors);
      TakeOut(t, t.pending[i], t');
      DropPending(t.pending, {id});
      DropSpec(t.pending, {id});
      assert Pending(t.pending, id);
      RoutesAfterDrop(t, t');
    }
  }

  lemma RoutesAfterDrop(t: Tasks, t': Tasks)
    requires TaskRoutes(t) && t'.routed == t.routed && t'.inFlight == t.inFlight && t'.next == t.next
    requires forall task :: task in t'.pending ==> task in t.pending
    ensures TaskRoutes(t')
  {
    forall i | 0 <= i < |t'.pending|
      ensures t'.pending[i].id in t'.routed ||
              (t'.pending[i].id in t'.inFlight && t'.inFlight[t'.pending[i].id] == t'.pending[i].service)
    {
      assert t'.pending[i] in t.pending;
    }
  }

  lemma CancelTasksKeepsInv(t: Tasks, service: string, actors: set<string>)
    requires TaskInv(t)
    ensures TaskInv(TaskApply(t, CancelTasks(service), actors))
    ensures forall task :: task in TaskApply(t, CancelTasks(service), actors).pending <==>
                           task in t.pending && task.service != service
  {
    var t', ids := TaskApply(t, CancelTasks(service), actors), At(t.byService, service);
    DropSpec(t.pending, ids);
    DropPending(t.pending, ids);
    RoutesAfterDrop(t, t');
    forall task ensures task in t'.pending <==> task in t.pending && task.service != service {
      if task in t.pending && task.id in ids {
        OneService(t.pending, task, Task(task.id, service));
      }
      if task in t.pending && task.service == service {
        assert task == Task(task.id, service);
      }
    }
    forall id | id in ids ensures Pending(t.pending, id) {
      assert Task(id, service) in t.pending;
    }
    forall s, id ensures id in At(t'.byService, s) <==> Task(id, s) in t'.pending {
      assert At(t'.byService, s) == if s == service then {} else At(t.byService, s);
    }
  }

  lemma RouteKeepsInv(t: Tasks, id: Id, actors: set<string>)
    requires TaskInv(t) && TaskEnabled(t, Route(id))
    ensures TaskInv(TaskApply(t, Route(id), actors))
  {
    var service, t' := t.inFlight[id], TaskApply(t, Route(id), actors);
    if service !in actors {
      DropSpec(t.pending, {id});
      DropPending(t.pending, {id});
      if Pending(t.pending, id) {
        var i :| 0 <= i < |t.pending| && t.pending[i].id == id;
        TakeOut(t, t.pending[i], t');
      } else {
        NotQueued(t, id, service);
      }
      forall i | 0 <= i < |t'.pending|
        ensures t'.pending[i].id in t'.routed ||
                (t'.pending[i].id in t'.inFlight && t'.inFlight[t'.pending[i].id] == t'.pending[i].service)
      {
        assert t'.pending[i] in t.pending && t'.pending[i].id != id;
      }
    }
  }

  lemma PendingHas(pending: seq<Task>, task: Task)
    requires task in pending
    ensures Pending(pending, task.id)
  {
  }

  /** Rolling back a task that was cancelled meanwhile changes nothing. */
  lemma NotQueued(t: Tasks, id: Id, service: string)
    requires TasksIndexed(t) && !Pending(t.pending, id)
    ensures Drop(t.pending, {id}) == t.pending && Erase(t.byService, service, id) == t.byService
  {
    forall task | task in t.pending ensures task.id != id {
      PendingHas(t.pending, task);
    }
    DropAbsent(t.pending, id);
    assert Task(id, service) !in t.pending;
    EraseAbsent(t.byService, service, id);
  }

  lemma EraseAbsent(index: Index, service: string, id: Id)
    requires id !in At(index, service) && (service in index ==> index[service] != {})
    ensures Erase(index, service, id) == index
  {
    if service in index {
      assert index[service] - {id} == index[service];
    }
  }

  lemma {:induction false} DropAbsent(pending: seq<Task>, id: Id)
    requires forall task :: task in pending ==> task.id != id
    ensures Drop(pending, {id}) == pending
  {
    if pending != [] {
      var last := |pending| - 1;
      assert pending[last] in pending && pending[last].id !in {id};
      forall task | task in pending[..last] ensures task.id != id {
        assert task in pending;
      }
      DropAbsent(pending[..last], id);
      assert pending == pending[..last] + [pending[last]];
    }
  }

  lemma TaskStepKeepsInv(t: Tasks, step: TaskStep, actors: set<string>)
    requires TaskInv(t) && TaskEnabled(t, step)
    ensures TaskInv(TaskApply(t, step, actors))
  {
    match step {
      case Enqueue(service) => EnqueueKeepsInv(t, service, actors);
      case Route(id) => RouteKeepsInv(t, id, actors);
      case RunTask(id) => RunTaskKeepsInv(t, id, actors);
      case CancelTasks(service) => CancelTasksKeepsInv(t, service, actors);
    }
  }

  // ---------------------------------------------------------------------
  // Actor timers
  // ---------------------------------------------------------------------

  datatype Timer = Timer(service: string, repeating: bool)

  datatype Timers = Timers(
    next: nat,
    live: map<Id, Timer>,
    byService: Index,
    starting: set<Id>,       // in the table, the driver not started and the index not updated yet
    fired: seq<Id>,          // one-shot timers whose callback has been started
    cancelled: set<Id>,
    failed: set<Id>)         // the driver could not be started

  const NO_TIMERS := Timers(1, map[], map[], {}, [], {}, {})

  datatype TimerStep =
    | Schedule(service: string, repeating: bool)    // first half of schedule_actor_timer_*
    | Started(id: Id, ok: bool)                     // second half: the driver runs, or not
    | Fire(id: Id)
    | CancelTimer(id: Id)
    | CancelTimers(service: string)

  predicate TimerEnabled(t: Timers, step: TimerStep) {
    step.Started? ==> step.id in t.starting
  }

  function TimerApply(t: Timers, step: TimerStep, actors: set<string>): Timers
    requires TimerEnabled(t, step)
  {
    match step
    case Schedule(service, repeating) =>
      if service !in actors then t
      else
        var id := Id(t.next);
        t.(next := t.next + 1, live := t.live[id := Timer(service, repeating)], starting := t.starting + {id})
    case Started(id, ok) =>
      var s := t.(starting := t.starting - {id});
      if id !in t.live then s
      else if ok then s.(byService := Insert(s.byService, s.live[id].service, id))
      else s.(live := s.live - {id}, failed := s.failed + {id})
    case Fire(id) =>
      if id !in t.live || t.live[id].repeating then t
      else
        var service := t.live[id].service;
        t.(live := t.live - {id}, byService := t.byService[service := At(t.byService, service) - {id}],
           fired := t.fired + [id])
    case CancelTimer(id) =>
      if id !in t.live then t
      else t.(live := t.live - {id}, byService := Erase(t.byService, t.live[id].service, id),
              cancelled := t.cancelled + {id})
    case CancelTimers(service) =>
      var ids := At(t.byService, service);
      t.(live := t.live - ids, byService := if ids == {} then t.byService else t.byService - {service},
         cancelled := t.cancelled + ids)
  }

  /** The index lists exactly the timers whose scheduling is complete. */
  ghost predicate TimersIndexed(t: Timers) {
    forall s, id :: id in At(t.byService, s) <==> id in t.live && t.live[id].service == s && id !in t.starting
  }

  /** Each issued id is live, has fired, was cancelled or failed to start: exactly one of these. */
  ghost predicate TimerFates(t: Timers) {
    && t.next >= 1
    && Distinct(t.fired)
    && (forall id :: Issued(t.next, id) <==> id in t.live || id in t.fired || id in t.cancelled || id in t.failed)
    && (forall id :: id in t.starting ==> Issued(t.next, id))
    && (forall id :: id in t.live ==> id !in t.fired && id !in t.cancelled && id !in t.failed)
    && (forall id :: id in t.fired ==> id !in t.cancelled && id !in t.failed)
    && t.cancelled !! t.failed
  }

  ghost predicate TimerInv(t: Timers) {
    TimersIndexed(t) && TimerFates(t)
  }

  lemma ScheduleKeepsInv(t: Timers, service: string, repeating: bool, actors: set<string>)
    requires TimerInv(t)
    ensures TimerInv(TimerApply(t, Schedule(service, repeating), actors))
  {
    assert !Issued(t.next, Id(t.next));
  }

  lemma StartedKeepsInv(t: Timers, id: Id, ok: bool, actors: set<string>)
    requires TimerInv(t) && id in t.starting
    ensures TimerInv(TimerApply(t, Started(id, ok), actors))
  {
    var t' := TimerApply(t, Started(id, ok), actors);
    if id in t.live && ok {
      var service := t.live[id].service;
      assert forall s :: At(t'.byService, s) == if s == service then At(t.byService, s) + {id} else At(t.byService, s);
    }
  }

  lemma FireKeepsInv(t: Timers, id: Id, actors: set<string>)
    requires TimerInv(t)
    ensures TimerInv(TimerApply(t, Fire(id), actors))
  {
    var t' := TimerApply(t, Fire(id), actors);
    if id in t.live && !t.live[id].repeating {
      var service := t.live[id].service;
      assert forall s :: At(t'.byService, s) == if s == service then At(t.byService, s) - {id} else At(t.byService, s);
      assert id in t'.fired;
    }
  }

  lemma CancelTimerKeepsInv(t: Timers, id: Id, actors: set<string>)
    requires TimerInv(t)
    ensures TimerInv(TimerApply(t, CancelTimer(id), actors))
  {
    if id in t.live {
      EraseAt(t.byService, t.live[id].service, id);
    }
  }

  lemma CancelTimersKeepsInv(t: Timers, service: string, actors: set<string>)
    requires TimerInv(t)
    ensures TimerInv(TimerApply(t, CancelTimers(service), actors))
    ensures forall id :: id in TimerApply(t, CancelTimers(service), actors).live <==>
                         id in t.live && (t.live[id].service == service ==> id in t.starting)
  {
    var t' := TimerApply(t, CancelTimers(service), actors);
    assert forall s :: At(t'.byService, s) == if s == service then {} else At(t.byService, s);
  }

  lemma TimerStepKeepsInv(t: Timers, step: TimerStep, actors: set<string>)
    requires TimerInv(t) && TimerEnabled(t, step)
    ensures TimerInv(TimerApply(t, step, actors))
  {
    match step {
      case Schedule(service, repeating) => ScheduleKeepsInv(t, service, repeating, actors);
      case Started(id, ok) => StartedKeepsInv(t, id, ok, actors);
      case Fire(id) => FireKeepsInv(t, id, actors);
      case CancelTimer(id) => CancelTimerKeepsInv(t, id, actors);
      case CancelTimers(service) => CancelTimersKeepsInv(t, service, actors);
    }
  }
}
