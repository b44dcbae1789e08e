/** Calls between services: suspended coroutines, blocking calls from outside, and their timeouts. */
module SuspendedCalls {
  import opened Collections
  import opened Scheduling

  type Coroutine = string

  /** A coroutine suspended in a call. */
  datatype Waiter = Waiter(co: Coroutine, service: string, deadline: int)

  /** A call: each kind numbers its calls on its own, and the messages carry the number only. */
  datatype Call = Suspended(session: Id) | Blocking(session: Id)

  /** One delivery to a suspended coroutine, and the call whose handler or timeout it came from. */
  datatype Resumption = Resumption(session: Id, co: Coroutine, ok: bool, values: string, from: Call)

  /** One delivery to a blocked thread. */
  datatype Signal = Signal(session: Id, ok: bool, values: string, from: Call)

  datatype Calls = Calls(
    next: nat,                          // next_call_session
    pending: map<Id, Waiter>,
    handlers: map<Coroutine, Call>,     // handler coroutine -> the call it serves, of which the code keeps the number
    timeouts: set<Id>,                  // sessions with a timeout driver
    nextSync: nat,                      // next_sync_call_session, a counter of its own
    sync: set<Id>,                      // live blocking calls
    callers: map<Id, Coroutine>,        // every session ever issued, with its caller
    resumed: seq<Resumption>,
    signals: seq<Signal>)

  const NO_CALLS := Calls(1, map[], map[], {}, 1, {}, map[], [], [])

  const TIMEOUT := "timeout"

  datatype CallStep =
    | Suspend(co: Coroutine, service: string, deadline: int, timed: bool)
    | Tag(co: Coroutine, call: Call)
    | Complete(co: Coroutine, values: string)
    | TimeoutFired(session: Id)
    | BeginSync
    | EndSync(session: Id)
    | DropTimeouts(service: string)

  /** resume_caller: a live blocking call with this number comes first, whatever kind of call is answered. */
  function Resume(c: Calls, from: Call, ok: bool, values: string): Calls {
    var session := from.session;
    if session in c.sync then
      c.(sync := c.sync - {session}, signals := c.signals + [Signal(session, ok, values, from)])
    else if session in c.pending then
      c.(pending := c.pending - {session}, timeouts := c.timeouts - {session},
         resumed := c.resumed + [Resumption(session, c.pending[session].co, ok, values, from)])
    else c
  }

  function CallApply(c: Calls, step: CallStep): Calls {
    match step
    case Suspend(co, service, deadline, timed) =>
      var session := Id(c.next);
      c.(next := c.next + 1, pending := c.pending[session := Waiter(co, service, deadline)],
         callers := c.callers[session := co],
         timeouts := if timed then c.timeouts + {session} else c.timeouts)
    case Tag(co, call) => if call.session.n == 0 then c else c.(handlers := c.handlers[co := call])
    case Complete(co, values) =>
      if co !in c.handlers then c
      else Resume(c.(handlers := c.handlers - {co}), c.handlers[co], true, values)
    case TimeoutFired(session) => Resume(c.(timeouts := c.timeouts - {session}), Suspended(session), false, TIMEOUT)
    case BeginSync => c.(nextSync := c.nextSync + 1, sync := c.sync + {Id(c.nextSync)})
    case EndSync(session) => c.(sync := c.sync - {session})
    case DropTimeouts(service) =>
      c.(timeouts := set k | k in c.timeouts && !(k in c.pending && c.pending[k].service == service))
  }

  /** The sessions that have been resumed. */
  ghost predicate Resumed(c: Calls, session: Id) {
    exists i :: 0 <= i < |c.resumed| && c.resumed[i].session == session
  }

  /** Timeout drivers exist only for pending calls. */
  ghost predicate DriversArePending(c: Calls) {
    c.timeouts <= c.pending.Keys
  }

  /** Each issued session is pending or has been resumed, never both, and resumed at most once. */
  ghost predicate CallFates(c: Calls) {
    && c.next >= 1
    && (forall k :: Issued(c.next, k) <==> k in c.callers)
    && (forall k :: k in c.callers <==> k in c.pending || Resumed(c, k))
    && (forall k :: k in c.pending ==> !Resumed(c, k) && c.pending[k].co == c.callers[k])
    && (forall i, j :: 0 <= i < j < |c.resumed| ==> c.resumed[i].session != c.resumed[j].session)
  }

  /** Every resumption went to the coroutine that was suspended under its session. */
  ghost predicate RightCallers(c: Calls) {
    forall i :: 0 <= i < |c.resumed| ==>
      c.resumed[i].session in c.callers && c.resumed[i].co == c.callers[c.resumed[i].session]
  }

  ghost predicate CallInv(c: Calls) {
    DriversArePending(c) && CallFates(c) && RightCallers(c)
  }

  lemma ResumedAppend(c: Calls, c': Calls, r: Resumption)
    requires c'.resumed == c.resumed + [r]
    ensures forall k :: Resumed(c', k) <==> Resumed(c, k) || k == r.session
  {
    forall k ensures Resumed(c', k) <==> Resumed(c, k) || k == r.session {
      assert c'.resumed[|c.resumed|].session == r.session;
      if Resumed(c, k) {
        var i :| 0 <= i < |c.resumed| && c.resumed[i].session == k;
        assert c'.resumed[i].session == k;
      }
    }
  }

  lemma ResumeKeepsInv(c: Calls, from: Call, ok: bool, values: string)
    requires CallInv(c)
    ensures CallInv(Resume(c, from, ok, values))
  {
    var c', session := Resume(c, from, ok, values), from.session;
    if session !in c.sync && session in c.pending {
      ResumedAppend(c, c', Resumption(session, c.pending[session].co, ok, values, from));
      forall i | 0 <= i < |c.resumed| ensures c.resumed[i].session != session {
        assert Resumed(c, c.resumed[i].session);
      }
    } else {
      assert c'.resumed == c.resumed;
      assert forall k :: Resumed(c', k) <==> Resumed(c, k);
    }
  }

  lemma SuspendKeepsInv(c: Calls, step: CallStep)
    requires CallInv(c) && step.Suspend?
    ensures CallInv(CallApply(c, step))
  {
    assert !Issued(c.next, Id(c.next));
    assert forall k :: Resumed(CallApply(c, step), k) <==> Resumed(c, k);
  }

  lemma CallStepKeepsInv(c: Calls, step: CallStep)
    requires CallInv(c)
    ensures CallInv(CallApply(c, step))
  {
    match step {
      case Suspend(_, _, _, _) => SuspendKeepsInv(c, step);
      case Complete(co, values) =>
        if co in c.handlers {
          var h := c.(handlers := c.handlers - {co});
          assert forall k :: Resumed(h, k) <==> Resumed(c, k);
          ResumeKeepsInv(h, c.handlers[co], true, values);
        }
      case TimeoutFired(session) =>
        var h := c.(timeouts := c.timeouts - {session});
        assert forall k :: Resumed(h, k) <==> Resumed(c, k);
        ResumeKeepsInv(h, Suspended(session), false, TIMEOUT);
      case _ =>
        assert forall k :: Resumed(CallApply(c, step), k) <==> Resumed(c, k);
    }
  }

  // ---------------------------------------------------------------------
  // Delivery
  // ---------------------------------------------------------------------

  /** Where an outcome belongs: to the very call it came from, if that call is still waiting. */
  function Deliver(c: Calls, to: Call, ok: bool, values: string): Calls {
    match to
    case Suspended(session) =>
      if session !in c.pending then c
      else c.(pending := c.pending - {session}, timeouts := c.timeouts - {session},
              resumed := c.resumed + [Resumption(session, c.pending[session].co, ok, values, to)])
    case Blocking(session) =>
      if session !in c.sync then c
      else c.(sync := c.sync - {session}, signals := c.signals + [Signal(session, ok, values, to)])
  }

  /** The same steps with outcomes delivered to where they belong. */
  function IdealApply(c: Calls, step: CallStep): Calls {
    match step
    case Complete(co, values) =>
      if co !in c.handlers then c else Deliver(c.(handlers := c.handlers - {co}), c.handlers[co], true, values)
    case TimeoutFired(session) => Deliver(c.(timeouts := c.timeouts - {session}), Suspended(session), false, TIMEOUT)
    case _ => CallApply(c, step)
  }

  /** The outcome of a call would reach another one: a live blocking call, or a suspended one after it. */
  predicate Crosses(c: Calls, from: Call) {
    match from
    case Suspended(session) => session in c.sync
    case Blocking(session) => session !in c.sync && session in c.pending
  }

  predicate Crossed(c: Calls, step: CallStep) {
    match step
    case Complete(co, _) => co in c.handlers && Crosses(c, c.handlers[co])
    case TimeoutFired(session) => Crosses(c, Suspended(session))
    case _ => false
  }

  /** A step delivers where it should if and only if no other waiting call has the number. */
  lemma RoutesExactly(c: Calls, step: CallStep)
    ensures CallApply(c, step) == IdealApply(c, step) <==> !Crossed(c, step)
  {
    if Crossed(c, step) {
      var code, ideal := CallApply(c, step), IdealApply(c, step);
      assert |code.signals| > |ideal.signals| || |code.resumed| > |ideal.resumed|;
    }
  }

  /** Every outcome delivered so far came from the call that received it. */
  ghost predicate OwnOutcomes(c: Calls) {
    && (forall i :: 0 <= i < |c.resumed| ==> c.resumed[i].from == Suspended(c.resumed[i].session))
    && (forall i :: 0 <= i < |c.signals| ==> c.signals[i].from == Blocking(c.signals[i].session))
  }

  lemma OwnStep(c: Calls, step: CallStep)
    ensures OwnOutcomes(CallApply(c, step)) <==> OwnOutcomes(c) && !Crossed(c, step)
  {
    match step {
      case Complete(co, values) =>
        if co in c.handlers {
          OwnResume(c.(handlers := c.handlers - {co}), c.handlers[co], true, values);
        }
      case TimeoutFired(session) =>
        OwnResume(c.(timeouts := c.timeouts - {session}), Suspended(session), false, TIMEOUT);
      case _ =>
    }
  }

  lemma OwnResume(c: Calls, from: Call, ok: bool, values: string)
    ensures OwnOutcomes(Resume(c, from, ok, values)) <==> OwnOutcomes(c) && !Crosses(c, from)
  {
    var c' := Resume(c, from, ok, values);
    assert c.resumed <= c'.resumed && c.signals <= c'.signals;
    if |c'.resumed| > |c.resumed| {
      assert c'.resumed[|c.resumed|].from == Suspended(c'.resumed[|c.resumed|].session) <==> !Crosses(c, from);
    }
    if |c'.signals| > |c.signals| {
      assert c'.signals[|c.signals|].from == Blocking(c'.signals[|c.signals|].session) <==> !Crosses(c, from);
    }
    if OwnOutcomes(c') {
      assert forall i :: 0 <= i < |c.resumed| ==> c.resumed[i] == c'.resumed[i];
      assert forall i :: 0 <= i < |c.signals| ==> c.signals[i] == c'.signals[i];
    }
  }

  function CallRun(c: Calls, steps: seq<CallStep>): Calls {
    if steps == [] then c else CallApply(CallRun(c, steps[..|steps| - 1]), steps[|steps| - 1])
  }

  function IdealRun(c: Calls, steps: seq<CallStep>): Calls {
    if steps == [] then c else IdealApply(IdealRun(c, steps[..|steps| - 1]), steps[|steps| - 1])
  }

  /** No step of the run ends a call while another waiting call has its number. */
  ghost predicate NeverCrossed(c: Calls, steps: seq<CallStep>) {
    forall i :: 0 <= i < |steps| ==> !Crossed(CallRun(c, steps[..i]), steps[i])
  }

  lemma NeverCrossedStep(c: Calls, steps: seq<CallStep>)
    requires steps != []
    ensures var last := |steps| - 1;
            NeverCrossed(c, steps) <==>
            NeverCrossed(c, steps[..last]) && !Crossed(CallRun(c, steps[..last]), steps[last])
  {
    hide CallRun, Crossed;
    var before := steps[..|steps| - 1];
    forall i | 0 <= i < |before| ensures before[..i] == steps[..i] && before[i] == steps[i] {
    }
    if NeverCrossed(c, before) && !Crossed(CallRun(c, before), steps[|steps| - 1]) {
      forall i | 0 <= i < |steps| ensures !Crossed(CallRun(c, steps[..i]), steps[i]) {
        if i < |before| {
          assert before[..i] == steps[..i];
        }
      }
    }
  }

  /** Over every run: each call gets only its own outcomes if and only if no step crossed. */
  lemma {:induction false} OwnOutcomesExactly(steps: seq<CallStep>)
    ensures OwnOutcomes(CallRun(NO_CALLS, steps)) <==> NeverCrossed(NO_CALLS, steps)
  {
    if steps != [] {
      hide Crossed, CallApply, OwnOutcomes, NeverCrossed;
      var last := |steps| - 1;
      OwnOutcomesExactly(steps[..last]);
      OwnStep(CallRun(NO_CALLS, steps[..last]), steps[last]);
      NeverCrossedStep(NO_CALLS, steps);
    }
  }

  lemma {:induction false} IdealIsOwn(c: Calls, steps: seq<CallStep>)
    requires OwnOutcomes(c)
    ensures OwnOutcomes(IdealRun(c, steps))
  {
    if steps != [] {
      var last := |steps| - 1;
      IdealIsOwn(c, steps[..last]);
      IdealStepOwn(IdealRun(c, steps[..last]), steps[last]);
    }
  }

  lemma IdealStepOwn(c: Calls, step: CallStep)
    requires OwnOutcomes(c)
    ensures OwnOutcomes(IdealApply(c, step))
  {
  }

  lemma {:induction false} UncrossedIsIdeal(c: Calls, steps: seq<CallStep>)
    requires NeverCrossed(c, steps)
    ensures CallRun(c, steps) == IdealRun(c, steps)
  {
    if steps != [] {
      hide Crossed, CallApply, IdealApply, NeverCrossed;
      var last := |steps| - 1;
      NeverCrossedStep(c, steps);
      UncrossedIsIdeal(c, steps[..last]);
      RoutesExactly(CallRun(c, steps[..last]), steps[last]);
    }
  }

  /** Over every run: the code is the ideal router if and only if no step crossed. */
  lemma RefinesIdealExactly(steps: seq<CallStep>)
    ensures CallRun(NO_CALLS, steps) == IdealRun(NO_CALLS, steps) <==> NeverCrossed(NO_CALLS, steps)
  {
    hide *;
    if NeverCrossed(NO_CALLS, steps) {
      UncrossedIsIdeal(NO_CALLS, steps);
    }
    NothingDelivered();
    IdealIsOwn(NO_CALLS, steps);
    OwnOutcomesExactly(steps);
  }

  lemma NothingDelivered()
    ensures OwnOutcomes(NO_CALLS)
  {
  }

  /** No blocking call is made, and no handler serves one. */
  predicate OnlySuspended(steps: seq<CallStep>) {
    forall i :: 0 <= i < |steps| ==> !steps[i].BeginSync? && (steps[i].Tag? ==> steps[i].call.Suspended?)
  }

  /** Nobody blocks, and all handlers serve suspended calls. */
  ghost predicate NoneBlocking(c: Calls) {
    c.sync == {} && forall co :: co in c.handlers ==> c.handlers[co].Suspended?
  }

  lemma NoneBlockingStep(c: Calls, step: CallStep)
    requires NoneBlocking(c) && !step.BeginSync? && (step.Tag? ==> step.call.Suspended?)
    ensures !Crossed(c, step) && NoneBlocking(CallApply(c, step))
  {
  }

  /** Services that call each other only from coroutines never cross. */
  lemma {:induction false} OnlySuspendedNeverCrosses(steps: seq<CallStep>)
    requires OnlySuspended(steps)
    ensures NeverCrossed(NO_CALLS, steps) && NoneBlocking(CallRun(NO_CALLS, steps))
  {
    if steps != [] {
      hide NoneBlocking, NeverCrossed, Crossed, CallApply;
      var last := |steps| - 1;
      OnlySuspendedNeverCrosses(steps[..last]);
      NeverCrossedStep(NO_CALLS, steps);
      NoneBlockingStep(CallRun(NO_CALLS, steps[..last]), steps[last]);
    }
  }

  /** Once its timeout is handled, a call is over, unless a live blocking call has the same number. */
  lemma TimeoutEndsExactly(c: Calls, session: Id)
    requires CallInv(c) && session in c.pending
    ensures session !in CallApply(c, TimeoutFired(session)).pending <==> session !in c.sync
    ensures session !in CallApply(c, TimeoutFired(session)).timeouts
  {
  }

  lemma FourSteps(s1: CallStep, s2: CallStep, s3: CallStep, s4: CallStep)
    ensures CallRun(NO_CALLS, [s1, s2, s3, s4]) == CallApply(CallApply(CallApply(CallApply(NO_CALLS, s1), s2), s3), s4)
  {
    hide CallApply;
    assert [s1][..0] == [] && [s1, s2][..1] == [s1] && [s1, s2, s3][..2] == [s1, s2];
    assert [s1, s2, s3, s4][..3] == [s1, s2, s3];
    assert CallRun(NO_CALLS, [s1]) == CallApply(NO_CALLS, s1);
    assert CallRun(NO_CALLS, [s1, s2]) == CallApply(CallApply(NO_CALLS, s1), s2);
    assert CallRun(NO_CALLS, [s1, s2, s3]) == CallApply(CallRun(NO_CALLS, [s1, s2]), s3);
  }

  /**
   * Both counters start at 1, so the first suspended call and the first blocking call share a number:
   * the answer meant for the coroutine goes to the blocked thread and the coroutine stays suspended.
   */
  lemma AnswerGoesAstray(caller: Coroutine, callee: Coroutine, service: string, values: string)
    ensures var c := CallRun(NO_CALLS, [Suspend(caller, service, 5000, true), BeginSync, Tag(callee, Suspended(Id(1))),
                                        Complete(callee, values)]);
            c.signals == [Signal(Id(1), true, values, Suspended(Id(1)))] && c.resumed == [] && Id(1) in c.pending
  {
    FourSteps(Suspend(caller, service, 5000, true), BeginSync, Tag(callee, Suspended(Id(1))), Complete(callee, values));
  }

  /**
   * The other way round: a blocking call gives up waiting, and the late answer of its handler goes to
   * the coroutine that has been suspended under the same number since.
   */
  lemma LateAnswerGoesAstray(caller: Coroutine, callee: Coroutine, service: string, values: string)
    ensures var steps := [BeginSync, EndSync(Id(1)), Suspend(caller, service, 5000, true),
                          Tag(callee, Blocking(Id(1))), Complete(callee, values)];
            CallRun(NO_CALLS, steps).resumed == [Resumption(Id(1), caller, true, values, Blocking(Id(1)))]
  {
    var s1, s2, s3, s4 := BeginSync, EndSync(Id(1)), Suspend(caller, service, 5000, true), Tag(callee, Blocking(Id(1)));
    var s5 := Complete(callee, values);
    FourSteps(s1, s2, s3, s4);
    assert [s1, s2, s3, s4, s5][..4] == [s1, s2, s3, s4];
    var c := CallRun(NO_CALLS, [s1, s2, s3, s4]);
    assert CallRun(NO_CALLS, [s1, s2, s3, s4, s5]) == CallApply(c, s5);
    assert Id(1) in c.pending && Id(1) !in c.sync;
  }
}
