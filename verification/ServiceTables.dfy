/** The tables of the service manager, updated in place, each operation tied to its step. */
module ServiceTables {
  import opened Collections
  import opened Scheduling
  import opened SuspendedCalls
  import opened Reg = ServiceRegistry

  class NameTable {
    var services: set<string>
    var published: map<string, string>
    var owned: map<string, set<string>>
    var order: seq<string>
    var actors: set<string>
    var exits: seq<string>
    var stopping: bool

    function State(): Registry
      reads this
    {
      Registry(services, published, owned, order, actors, exits)
    }

    constructor ()
      ensures State() == EMPTY && Inv(State()) && !stopping
    {
      services, published, owned, order, actors, exits, stopping := {}, map[], map[], [], {}, [], false;
    }

    method RegisterName(owner: string, name: string) returns (ok: bool)
      requires Inv(State())
      modifies this`published, this`owned
      ensures ok == Accepts(old(State()), owner, Register(name))
      ensures State() == Rename(old(State()), owner, Register(name)) && Inv(State())
    {
      RenameKeepsInv(State(), owner, Register(name));
      if owner == "" || !ValidName(name) {
        return false;
      }
      if name in published && published[name] != owner {
        return false;
      }
      published := published[name := owner];
      owned := owned[owner := (if owner in owned then owned[owner] else {}) + {name}];
      ok := true;
    }

    method UnregisterName(owner: string, name: string) returns (ok: bool)
      requires Inv(State())
      modifies this`published, this`owned
      ensures ok == Accepts(old(State()), owner, Unregister(name))
      ensures State() == Rename(old(State()), owner, Unregister(name)) && Inv(State())
    {
      RenameKeepsInv(State(), owner, Unregister(name));
      if owner == "" || name !in published || published[name] != owner {
        return false;
      }
      published := published - {name};
      if owner in owned {
        owned := owned[owner := owned[owner] - {name}];
      }
      ok := true;
    }

    /** The critical section that ends a spawn. */
    method CommitSpawn(id: string) returns (ok: bool)
      requires Inv(State())
      modifies this
      ensures State() == Commit(old(State()), id) && Inv(State()) && stopping == old(stopping)
      ensures ok == (id !in old(services) && id !in old(published))
    {
      CommitKeepsInv(State(), id);
      if id in services || id in published {
        actors := actors - {id};
        return false;
      }
      services := services + {id};
      published := published[id := id];
      owned := owned[id := (if id in owned then owned[id] else {}) + {id}];
      order := order + [id];
      ok := true;
    }

    /** Erase the names of an owner one by one. */
    method EraseNames(owner: string)
      modifies this`published, this`owned
      ensures State() == DropNames(old(State()), owner)
    {
      if owner in owned {
        var rest := owned[owner];
        while rest != {}
          invariant owned == old(owned) && rest <= owned[owner]
          invariant published == old(published) - (owned[owner] - rest)
          decreases rest
        {
          var name :| name in rest;
          published := published - {name};
          rest := rest - {name};
        }
        owned := owned - {owner};
      } else {
        assert published == published - {} && owned == owned - {owner};
      }
    }

    /** Erase-remove on the spawn order. */
    method EraseFromOrder(id: string)
      modifies this`order
      ensures order == Removed(old(order), id)
    {
      var kept := [];
      for i := 0 to |order|
        invariant kept == Removed(order[..i], id)
      {
        assert order[..i + 1][..i] == order[..i];
        if order[i] != id {
          kept := kept + [order[i]];
        }
      }
      assert order[..|order|] == order;
      order := kept;
    }

    /** on_exit, with the names it registers and unregisters on behalf of the service. */
    method CallOnExit(id: string, hook: seq<NameOp>)
      requires Inv(State())
      modifies this`published, this`owned, this`exits
      ensures Inv(State())
      ensures State() == RenameAll(old(State()), id, hook).(exits := old(exits) + [id])
    {
      for i := 0 to |hook|
        invariant State() == RenameAll(old(State()), id, hook[..i]) && Inv(State())
        invariant exits == old(exits)
      {
        assert hook[..i + 1][..i] == hook[..i];
        var ok;
        match hook[i] {
          case Register(name) => ok := RegisterName(id, name);
          case Unregister(name) => ok := UnregisterName(id, name);
        }
      }
      assert hook[..|hook|] == hook;
      exits := exits + [id];
    }

    method ExitService(id: string, hook: seq<NameOp>)
      requires Inv(State())
      modifies this
      ensures State() == Exit(old(State()), id, hook) && Inv(State()) && stopping == old(stopping)
    {
      ghost var before := State();
      ExitKeepsInv(before, id, hook);
      RenameAllKeepsInv(before, id, hook);
      if id !in services {
        return;
      }
      CallOnExit(id, hook);
      EraseNames(id);
      services := services - {id};
      EraseFromOrder(id);
      actors := actors - {id};
    }

    /** Exit every service, last spawned first. */
    method ShutdownAll(hooks: map<string, seq<NameOp>>)
      requires Inv(State())
      modifies this
      ensures stopping && ShutDown(old(State()), State())
    {
      ghost var before := State();
      assert Distinct(order);
      hide Inv;
      hide ShutDown;
      hide Exit;
      hide ExitBackwards;
      hide Elements;
      hide Distinct;
      ShutdownSpec(before, hooks);
      stopping := true;
      var snapshot, seen, i := order, {}, |order|;
      assert snapshot[..|snapshot|] == snapshot;
      NothingSeen(snapshot);
      while i > 0
        invariant 0 <= i <= |snapshot| && stopping && Inv(State())
        invariant seen == Elements(snapshot[i..])
        invariant ExitBackwards(State(), snapshot[..i], hooks) == ExitBackwards(before, before.order, hooks)
      {
        i := i - 1;
        var id := snapshot[i];
        OneMoreBack(State(), snapshot, i, hooks);
        NotSeenYet(snapshot, i);
        if id !in seen && id in services {
          ExitService(id, Hook(hooks, id));
        }
        seen := seen + {id};
      }
      assert State() == ExitBackwards(State(), snapshot[..0], hooks) by {
        NoneLeft(State(), hooks);
      }
      order := [];
    }
  }

  lemma OneMoreBack(r: Registry, ids: seq<string>, i: nat, hooks: map<string, seq<NameOp>>)
    requires i < |ids|
    ensures ExitBackwards(r, ids[..i + 1], hooks) ==
            ExitBackwards(Exit(r, ids[i], Hook(hooks, ids[i])), ids[..i], hooks)
    ensures ids[i] !in r.services ==> Exit(r, ids[i], Hook(hooks, ids[i])) == r
  {
    assert ids[..i + 1][..i] == ids[..i];
  }

  function Elements(s: seq<string>): set<string> {
    set x | x in s
  }

  lemma NothingSeen(s: seq<string>)
    ensures Elements(s[|s|..]) == {}
  {
  }

  lemma NotSeenYet(s: seq<string>, i: nat)
    requires Distinct(s) && i < |s|
    ensures s[i] !in Elements(s[i + 1..]) && Elements(s[i..]) == Elements(s[i + 1..]) + {s[i]}
  {
    assert s[i..] == [s[i]] + s[i + 1..];
  }

  lemma NoneLeft(r: Registry, hooks: map<string, seq<NameOp>>)
    ensures ExitBackwards(r, [], hooks) == r
  {
  }

  class ForkQueue {
    var next: nat
    var pending: seq<Task>
    var byService: Index
    var inFlight: map<Id, string>
    var routed: set<Id>
    var ran: seq<Id>
    var cancelled: set<Id>
    var rolledBack: set<Id>

    function State(): Tasks
      reads this
    {
      Tasks(next, pending, byService, inFlight, routed, ran, cancelled, rolledBack)
    }

    constructor ()
      ensures State() == NO_TASKS
    {
      next, pending, byService, inFlight, routed, ran, cancelled, rolledBack := 1, [], map[], map[], {}, [], {}, {};
    }

    /** remove_if on the queue. */
    method RemoveIf(ids: set<Id>)
      modifies this`pending
      ensures pending == Drop(old(pending), ids)
    {
      var kept := [];
      for i := 0 to |pending|
        invariant kept == Drop(pending[..i], ids)
      {
        assert pending[..i + 1][..i] == pending[..i];
        if pending[i].id !in ids {
          kept := kept + [pending[i]];
        }
      }
      assert pending[..|pending|] == pending;
      pending := kept;
    }

    /** Take an id out of the index, dropping the entry when it becomes empty. */
    method EraseFromIndex(service: string, id: Id)
      modifies this`byService
      ensures byService == Erase(old(byService), service, id)
    {
      if service in byService {
        byService := byService[service := byService[service] - {id}];
        if byService[service] == {} {
          byService := byService - {service};
          assert byService == old(byService) - {service};
        }
      }
    }

    method EnqueueForkedTask(service: string) returns (id: Id)
      requires TaskInv(State())
      modifies this
      ensures State() == TaskApply(old(State()), Enqueue(service), {}) && TaskInv(State())
      ensures service != "" ==> id == Id(old(next))
    {
      TaskStepKeepsInv(State(), Enqueue(service), {});
      if service == "" {
        return Id(0);
      }
      id := Id(next);
      next := next + 1;
      pending := pending + [Task(id, service)];
      byService := byService[service := (if service in byService then byService[service] else {}) + {id}];
      inFlight := inFlight[id := service];
    }

    /** Send the id to the owner's actor, or take the task back when there is none. */
    method RouteForkedTask(id: Id, actors: set<string>) returns (sent: bool)
      requires TaskInv(State()) && id in inFlight
      modifies this
      ensures State() == TaskApply(old(State()), Route(id), actors) && TaskInv(State())
      ensures sent == (old(inFlight)[id] in actors)
    {
      hide TaskInv;
      TaskStepKeepsInv(State(), Route(id), actors);
      var service := inFlight[id];
      inFlight := inFlight - {id};
      if service in actors {
        routed := routed + {id};
        return true;
      }
      EraseFromIndex(service, id);
      if Pending(pending, id) {
        rolledBack := rolledBack + {id};
      }
      RemoveIf({id});
      sent := false;
    }

    /** The actor's handler: find the task, take it out of queue and index, and run it. */
    method RunReadyForkTask(id: Id) returns (found: bool)
      requires TaskInv(State()) && id in routed
      modifies this
      ensures State() == TaskApply(old(State()), RunTask(id), {}) && TaskInv(State())
      ensures found == Pending(old(pending), id)
    {
      hide TaskInv;
      TaskStepKeepsInv(State(), RunTask(id), {});
      var i := 0;
      while i < |pending| && pending[i].id != id
        invariant 0 <= i <= |pending|
        invariant forall j :: 0 <= j < i ==> pending[j].id != id
      {
        i := i + 1;
      }
      found := i < |pending|;
      if found {
        assert i == Find(pending, id);
        EraseFromIndex(pending[i].service, id);
        RemoveIf({id});
        ran := ran + [id];
      }
    }

    method CancelForService(service: string)
      requires TaskInv(State())
      modifies this
      ensures State() == TaskApply(old(State()), CancelTasks(service), {}) && TaskInv(State())
    {
      hide TaskInv;
      TaskStepKeepsInv(State(), CancelTasks(service), {});
      if service !in byService {
        CancelNothing(State(), service);
        return;
      }
      var ids := byService[service];
      byService := byService - {service};
      RemoveIf(ids);
      cancelled := cancelled + ids;
    }
  }

  class TimerTable {
    var next: nat
    var live: map<Id, Timer>
    var byService: Index
    var starting: set<Id>
    var fired: seq<Id>
    var cancelled: set<Id>
    var failed: set<Id>

    function State(): Timers
      reads this
    {
      Timers(next, live, byService, starting, fired, cancelled, failed)
    }

    constructor ()
      ensures State() == NO_TIMERS
    {
      next, live, byService, starting, fired, cancelled, failed := 1, map[], map[], {}, [], {}, {};
    }

    method FireTimer(id: Id) returns (found: bool)
      requires TimerInv(State())
      modifies this
      ensures State() == TimerApply(old(State()), Fire(id), {}) && TimerInv(State())
      ensures found == (id in old(live))
    {
      TimerStepKeepsInv(State(), Fire(id), {});
      found := id in live;
      if found && !live[id].repeating {
        var service := live[id].service;
        byService := byService[service := (if service in byService then byService[service] else {}) - {id}];
        live := live - {id};
        fired := fired + [id];
      }
    }

    method Cancel(id: Id) returns (found: bool)
      requires TimerInv(State())
      modifies this
      ensures State() == TimerApply(old(State()), CancelTimer(id), {}) && TimerInv(State())
      ensures found == (id in old(live))
    {
      TimerStepKeepsInv(State(), CancelTimer(id), {});
      found := id in live;
      if found {
        var service := live[id].service;
        if service in byService {
          byService := byService[service := byService[service] - {id}];
          if byService[service] == {} {
            byService := byService - {service};
            assert byService == old(byService) - {service};
          }
        }
        live := live - {id};
        cancelled := cancelled + {id};
      }
    }

    /** exit cancels the indexed timers of a service one by one. */
    method CancelForService(service: string)
      requires TimerInv(State())
      modifies this
      ensures State() == TimerApply(old(State()), CancelTimers(service), {}) && TimerInv(State())
    {
      ghost var before := State();
      TimerStepKeepsInv(before, CancelTimers(service), {});
      var ids := if service in byService then byService[service] else {};
      var rest := ids;
      while rest != {}
        invariant rest <= ids && TimerInv(State())
        invariant State() == CancelledSome(before, service, ids - rest)
        decreases rest
      {
        var id :| id in rest;
        assert id in live && live[id].service == service;
        CancelOneMore(before, service, ids - rest, id);
        var found := Cancel(id);
        assert ids - (rest - {id}) == (ids - rest) + {id};
        rest := rest - {id};
      }
    }
  }

  /** The timers after some of the indexed timers of a service have been cancelled. */
  ghost function CancelledSome(t: Timers, service: string, ids: set<Id>): Timers {
    t.(live := t.live - ids, cancelled := t.cancelled + ids,
       byService := if ids == {} then t.byService
                    else if At(t.byService, service) <= ids then t.byService - {service}
                    else t.byService[service := At(t.byService, service) - ids])
  }

  lemma CancelOneMore(t: Timers, service: string, ids: set<Id>, id: Id)
    requires ids < At(t.byService, service) && id in At(t.byService, service) && id !in ids
    requires id in t.live && t.live[id].service == service
    ensures TimerApply(CancelledSome(t, service, ids), CancelTimer(id), {}) == CancelledSome(t, service, ids + {id})
  {
    var c := CancelledSome(t, service, ids);
    assert At(c.byService, service) == At(t.byService, service) - ids;
    assert At(t.byService, service) - ids - {id} == At(t.byService, service) - (ids + {id});
    assert c.live - {id} == t.live - (ids + {id});
    assert c.cancelled + {id} == t.cancelled + (ids + {id});
    assert Erase(c.byService, service, id) == CancelledSome(t, service, ids + {id}).byService;
  }

  class CallTable {
    var next: nat
    var pending: map<Id, Waiter>
    var handlers: map<Coroutine, Call>
    var timeouts: set<Id>
    var nextSync: nat
    var sync: set<Id>
    var callers: map<Id, Coroutine>
    var resumed: seq<Resumption>
    var signals: seq<Signal>

    function State(): Calls
      reads this
    {
      Calls(next, pending, handlers, timeouts, nextSync, sync, callers, resumed, signals)
    }

    constructor ()
      ensures State() == NO_CALLS
    {
      next, pending, handlers, timeouts, nextSync, sync := 1, map[], map[], {}, 1, {};
      callers, resumed, signals := map[], [], [];
    }

    method SuspendForCall(co: Coroutine, service: string, deadline: int, actors: set<string>) returns (session: Id)
      requires CallInv(State())
      modifies this
      ensures State() == CallApply(old(State()), Suspend(co, service, deadline, service != "" && service in actors))
      ensures CallInv(State()) && session == Id(old(next))
    {
      CallStepKeepsInv(State(), Suspend(co, service, deadline, service != "" && service in actors));
      session := Id(next);
      next := next + 1;
      pending := pending[session := Waiter(co, service, deadline)];
      callers := callers[session := co];
      if service != "" && service in actors {
        timeouts := timeouts + {session};
      }
    }

    /** Looks at the number of the call only. */
    method ResumeCaller(from: Call, ok: bool, values: string)
      requires CallInv(State())
      modifies this
      ensures State() == Resume(old(State()), from, ok, values) && CallInv(State())
    {
      ResumeKeepsInv(State(), from, ok, values);
      var session := from.session;
      if session in sync {
        sync := sync - {session};
        signals := signals + [Signal(session, ok, values, from)];
        return;
      }
      if session !in pending {
        return;
      }
      var waiter := pending[session];
      pending := pending - {session};
      timeouts := timeouts - {session};
      resumed := resumed + [Resumption(session, waiter.co, ok, values, from)];
    }

    method OnHandlerCompleted(co: Coroutine, values: string)
      requires CallInv(State())
      modifies this
      ensures State() == CallApply(old(State()), Complete(co, values)) && CallInv(State())
    {
      if co !in handlers {
        return;
      }
      var call := handlers[co];
      ghost var before := State();
      handlers := handlers - {co};
      assert forall k :: Resumed(State(), k) <==> Resumed(before, k);
      ResumeCaller(call, true, values);
    }

    /** Resume every expired call with a timeout error, in any order. */
    method CheckCallTimeouts(now: int) returns (count: nat)
      requires CallInv(State())
      modifies this
      ensures CallInv(State()) && count == |Expired(old(pending), now)|
      ensures TimedOut(old(State()), State(), Expired(old(pending), now))
      ensures forall k :: k in pending ==> pending[k].deadline > now || k in old(sync)
    {
      hide TimedOut, CallInv;
      ghost var before := State();
      var expired := Expired(pending, now);
      var rest := expired;
      assert expired - rest == {};
      NothingTimedOut(before);
      while rest != {}
        invariant rest <= expired && CallInv(State())
        invariant TimedOut(before, State(), expired - rest)
        decreases rest
      {
        var session :| session in rest;
        TimeOutOneMore(before, State(), expired - rest, session);
        ResumeCaller(Suspended(session), false, TIMEOUT);
        assert expired - (rest - {session}) == (expired - rest) + {session};
        rest := rest - {session};
      }
      assert expired - rest == expired;
      StillPending(before, State(), now);
      count := |expired|;
    }
  }

  /**
   * From c to c' exactly the sessions `done` have been timed out: those with a live blocking call of the
   * same number used that call up, all others are over and each was resumed once with a timeout error.
   */
  ghost predicate TimedOut(c: Calls, c': Calls, done: set<Id>) {
    && c' == c.(sync := c.sync - done, pending := c.pending - (done - c.sync), timeouts := c.timeouts - (done - c.sync),
                resumed := c'.resumed, signals := c'.signals)
    && ResumedAll(c, c', done - c.sync)
    && SignalledAll(c, c', done * c.sync)
  }

  /** The sessions `done` of c, and no others, have been resumed with a timeout error in c'. */
  ghost predicate ResumedAll(c: Calls, c': Calls, done: set<Id>) {
    && c.resumed <= c'.resumed && |c'.resumed| == |c.resumed| + |done|
    && forall k :: k in done && k in c.pending ==>
         Resumption(k, c.pending[k].co, false, TIMEOUT, Suspended(k)) in c'.resumed[|c.resumed|..]
  }

  /** The blocking calls `done` of c, and no others, have been signalled with a timeout error in c'. */
  ghost predicate SignalledAll(c: Calls, c': Calls, done: set<Id>) {
    && c.signals <= c'.signals && |c'.signals| == |c.signals| + |done|
    && forall k :: k in done ==> Signal(k, false, TIMEOUT, Suspended(k)) in c'.signals[|c.signals|..]
  }

  lemma ResumeOneMore(c: Calls, c': Calls, c'': Calls, done: set<Id>, k: Id)
    requires ResumedAll(c, c', done) && k in c.pending && k !in done
    requires c''.resumed == c'.resumed + [Resumption(k, c.pending[k].co, false, TIMEOUT, Suspended(k))]
    ensures ResumedAll(c, c'', done + {k})
  {
    var r := Resumption(k, c.pending[k].co, false, TIMEOUT, Suspended(k));
    assert c''.resumed[|c.resumed|..] == c'.resumed[|c.resumed|..] + [r];
  }

  lemma SignalOneMore(c: Calls, c': Calls, c'': Calls, done: set<Id>, k: Id)
    requires SignalledAll(c, c', done) && k !in done
    requires c''.signals == c'.signals + [Signal(k, false, TIMEOUT, Suspended(k))]
    ensures SignalledAll(c, c'', done + {k})
  {
    assert c''.signals[|c.signals|..] == c'.signals[|c.signals|..] + [Signal(k, false, TIMEOUT, Suspended(k))];
  }

  lemma TimeOutShadowed(c: Calls, c': Calls, done: set<Id>, k: Id)
    requires TimedOut(c, c', done) && k in c.pending && k !in done && k in c.sync
    ensures TimedOut(c, Resume(c', Suspended(k), false, TIMEOUT), done + {k})
  {
    hide ResumedAll, SignalledAll;
    var c'' := Resume(c', Suspended(k), false, TIMEOUT);
    assert done + {k} - c.sync == done - c.sync && (done + {k}) * c.sync == (done * c.sync) + {k};
    assert c.sync - done - {k} == c.sync - (done + {k});
    SignalOneMore(c, c', c'', done * c.sync, k);
    SameResumed(c, c', c'', done - c.sync);
  }

  lemma TimeOutPlain(c: Calls, c': Calls, done: set<Id>, k: Id)
    requires TimedOut(c, c', done) && k in c.pending && k !in done && k !in c.sync
    ensures TimedOut(c, Resume(c', Suspended(k), false, TIMEOUT), done + {k})
  {
    hide ResumedAll, SignalledAll;
    var c'', over := Resume(c', Suspended(k), false, TIMEOUT), done - c.sync;
    assert done + {k} - c.sync == over + {k} && (done + {k}) * c.sync == done * c.sync;
    assert c.sync - (done + {k}) == c.sync - done;
    assert c.timeouts - over - {k} == c.timeouts - (over + {k});
    assert c.pending - over - {k} == c.pending - (over + {k});
    ResumeOneMore(c, c', c'', over, k);
    SameSignals(c, c', c'', done * c.sync);
  }

  lemma SameResumed(c: Calls, c': Calls, c'': Calls, done: set<Id>)
    requires ResumedAll(c, c', done) && c''.resumed == c'.resumed
    ensures ResumedAll(c, c'', done)
  {
  }

  lemma SameSignals(c: Calls, c': Calls, c'': Calls, done: set<Id>)
    requires SignalledAll(c, c', done) && c''.signals == c'.signals
    ensures SignalledAll(c, c'', done)
  {
  }

  lemma TimeOutOneMore(c: Calls, c': Calls, done: set<Id>, k: Id)
    requires TimedOut(c, c', done) && k in c.pending && k !in done
    ensures TimedOut(c, Resume(c', Suspended(k), false, TIMEOUT), done + {k})
  {
    hide TimedOut;
    if k in c.sync {
      TimeOutShadowed(c, c', done, k);
    } else {
      TimeOutPlain(c, c', done, k);
    }
  }

  lemma NothingTimedOut(c: Calls)
    ensures TimedOut(c, c, {})
  {
    assert c.sync - {} == c.sync && {} - c.sync == {} && {} * c.sync == {};
    assert c.pending - {} == c.pending && c.timeouts - {} == c.timeouts;
  }

  lemma StillPending(c: Calls, c': Calls, now: int)
    requires TimedOut(c, c', Expired(c.pending, now))
    ensures forall k :: k in c'.pending ==> c'.pending[k].deadline > now || k in c.sync
  {
  }

  function Expired(pending: map<Id, Waiter>, now: int): set<Id> {
    set k | k in pending && pending[k].deadline <= now
  }

  lemma CancelNothing(t: Tasks, service: string)
    requires service !in t.byService
    ensures TaskApply(t, CancelTasks(service), {}) == t
  {
    DropNone(t.pending);
    assert t.byService - {service} == t.byService && t.cancelled + {} == t.cancelled;
  }

  lemma {:induction false} DropNone(pending: seq<Task>)
    ensures Drop(pending, {}) == pending
  {
    if pending != [] {
      DropNone(pending[..|pending| - 1]);
    }
  }
}
