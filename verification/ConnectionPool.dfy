/**
 * The database connection pools of the MySQL and PostgreSQL plugins as one protocol: many threads, one
 * mutex, one condition variable. Every step below is one critical section, or one move of a thread that
 * happens outside the lock.
 */
module ConnectionPool {
  import opened Collections

  datatype Driver = MySql | PostgreSql

  datatype ThreadId = ThreadId(n: nat)

  datatype Conn = Conn(n: nat)

  datatype Thread =
    | Idle                  // not acquiring, or the acquire failed
    | Full                  // MySQL only: probed a full pool and released the lock again
    | Waiting               // blocked on the condition variable
    | Notified              // woken, but has not looked at the pool yet
    | Opening               // reserved a slot and connects outside the lock
    | Holding(conn: Conn)   // owns a guard

  datatype Kind = IsIdle | IsFull | IsWaiting | IsNotified | IsOpening | IsHolding

  function KindOf(t: Thread): Kind {
    match t
    case Idle => IsIdle
    case Full => IsFull
    case Waiting => IsWaiting
    case Notified => IsNotified
    case Opening => IsOpening
    case Holding(_) => IsHolding
  }

  type Threads = map<ThreadId, Thread>

  datatype Pool = Pool(driver: Driver, poolSize: int, currentSize: int, free: seq<Conn>, nextConn: nat,
                       threads: Threads)

  datatype Wake = Nobody | Wake(who: ThreadId)

  datatype Step =
    | Probe(t: ThreadId)                     // the first critical section of an acquire
    | Enter(t: ThreadId)                     // MySQL: lock again, evaluate the wait predicate
    | Recheck(t: ThreadId)                   // a woken thread evaluates the wait predicate
    | Expire(t: ThreadId)                    // a wait times out; the predicate is evaluated once more
    | Spurious(t: ThreadId)                  // a wake-up without notification
    | Opened(t: ThreadId)                    // the connect succeeded
    | OpenFailed(t: ThreadId, wake: Wake)    // the connect failed: give the slot back, notify one
    | Release(t: ThreadId, wake: Wake)       // guard destroyed, connection good
    | Discard(t: ThreadId, wake: Wake)       // guard destroyed, connection broken

  // ---------------------------------------------------------------------
  // Steps
  // ---------------------------------------------------------------------

  /** The predicate a thread waits for. PostgreSQL's looks at the free list only. */
  predicate WaitPredicate(p: Pool) {
    p.free != [] || (p.driver == MySql && p.currentSize < p.poolSize)
  }

  function Move(p: Pool, t: ThreadId, state: Thread): Pool {
    p.(threads := p.threads[t := state])
  }

  /** Take the oldest free connection, or else reserve a slot. */
  function Obtain(p: Pool, t: ThreadId): Pool {
    if p.free != [] then Move(p.(free := p.free[1..]), t, Holding(p.free[0]))
    else Move(p.(currentSize := p.currentSize + 1), t, Opening)
  }

  /** Give one slot back. PostgreSQL guards the decrement, MySQL does not. */
  function DropSlot(p: Pool): Pool {
    if p.driver == PostgreSql && p.currentSize <= 0 then p else p.(currentSize := p.currentSize - 1)
  }

  function Notify(p: Pool, wake: Wake): Pool {
    match wake
    case Nobody => p
    case Wake(who) => Move(p, who, Notified)
  }

  function Apply(p: Pool, step: Step): Pool
    requires Enabled(p, step)
  {
    match step
    case Probe(t) =>
      if p.free != [] || p.currentSize < p.poolSize then Obtain(p, t)
      else Move(p, t, if p.driver == MySql then Full else Waiting)
    case Enter(t) => if WaitPredicate(p) then Obtain(p, t) else Move(p, t, Waiting)
    case Recheck(t) => if WaitPredicate(p) then Obtain(p, t) else Move(p, t, Waiting)
    case Expire(t) => if WaitPredicate(p) then Obtain(p, t) else Move(p, t, Idle)
    case Spurious(t) => Move(p, t, Notified)
    case Opened(t) => Move(p.(nextConn := p.nextConn + 1), t, Holding(Conn(p.nextConn)))
    case OpenFailed(t, wake) => Notify(DropSlot(Move(p, t, Idle)), wake)
    case Release(t, wake) => Notify(Move(p.(free := p.free + [p.threads[t].conn]), t, Idle), wake)
    case Discard(t, wake) => Notify(DropSlot(Move(p, t, Idle)), wake)
  }

  predicate Enabled(p: Pool, step: Step) {
    && step.t in p.threads
    && match step
       case Probe(t) => p.threads[t] == Idle
       case Enter(t) => p.threads[t] == Full
       case Recheck(t) => p.threads[t] == Notified
       case Expire(t) => p.threads[t] == Waiting || p.threads[t] == Notified
       case Spurious(t) => p.threads[t] == Waiting
       case Opened(t) => p.threads[t] == Opening
       case OpenFailed(t, wake) => p.threads[t] == Opening && Wakes(p.threads, wake)
       case Release(t, wake) => p.threads[t].Holding? && Wakes(p.threads, wake)
       case Discard(t, wake) => p.threads[t].Holding? && Wakes(p.threads, wake)
  }

  /** notify_one wakes some thread blocked on the condition variable, if there is one. */
  predicate Wakes(threads: Threads, wake: Wake) {
    match wake
    case Nobody => forall t :: t in threads ==> threads[t] != Waiting
    case Wake(who) => who in threads && threads[who] == Waiting
  }

  function Init(driver: Driver, poolSize: int, n: nat): Pool {
    Pool(driver, poolSize, 0, [], 0, map i | 0 <= i < n :: ThreadId(i) := Idle)
  }

  ghost predicate Runs(p: Pool, steps: seq<Step>)
    decreases |steps|, 0
  {
    steps == [] ||
    (Runs(p, steps[..|steps| - 1]) && Enabled(Run(p, steps[..|steps| - 1]), steps[|steps| - 1]))
  }

  ghost function Run(p: Pool, steps: seq<Step>): Pool
    requires Runs(p, steps)
    decreases |steps|, 1
  {
    if steps == [] then p else Apply(Run(p, steps[..|steps| - 1]), steps[|steps| - 1])
  }

  // ---------------------------------------------------------------------
  // Counting threads
  // ---------------------------------------------------------------------

  function InState(threads: Threads, k: Kind): set<ThreadId> {
    set t | t in threads && KindOf(threads[t]) == k
  }

  function Count(threads: Threads, k: Kind): nat {
    |InState(threads, k)|
  }

  /** The count of k after thread t moves: t leaves one count and joins another. */
  function Moved(threads: Threads, t: ThreadId, state: Thread, k: Kind): int
    requires t in threads
  {
    Count(threads, k) - (if KindOf(threads[t]) == k then 1 else 0) + (if KindOf(state) == k then 1 else 0)
  }

  lemma WithoutOne(s: set<ThreadId>, t: ThreadId)
    ensures |s| == |s - {t}| + (if t in s then 1 else 0)
  {
    if t in s {
      assert s == (s - {t}) + {t};
    } else {
      assert s == s - {t};
    }
  }

  lemma CountMove(threads: Threads, t: ThreadId, state: Thread, k: Kind)
    requires t in threads
    ensures Count(threads[t := state], k) == Moved(threads, t, state, k)
  {
    hide KindOf;
    var before, after := InState(threads, k), InState(threads[t := state], k);
    assert after - {t} == before - {t};
    hide InState;
    assert t in after <==> KindOf(state) == k;
    assert t in before <==> KindOf(threads[t]) == k;
    WithoutOne(before, t);
    WithoutOne(after, t);
  }

  lemma CountMoves(p: Pool, t: ThreadId, state: Thread)
    requires t in p.threads
    ensures Count(p.threads[t := state], IsWaiting) == Moved(p.threads, t, state, IsWaiting)
    ensures Count(p.threads[t := state], IsNotified) == Moved(p.threads, t, state, IsNotified)
    ensures Count(p.threads[t := state], IsOpening) == Moved(p.threads, t, state, IsOpening)
    ensures Count(p.threads[t := state], IsHolding) == Moved(p.threads, t, state, IsHolding)
  {
    CountMove(p.threads, t, state, IsWaiting);
    CountMove(p.threads, t, state, IsNotified);
    CountMove(p.threads, t, state, IsOpening);
    CountMove(p.threads, t, state, IsHolding);
  }

  lemma SomeThread(threads: Threads, k: Kind) returns (t: ThreadId)
    requires Count(threads, k) > 0
    ensures t in threads && KindOf(threads[t]) == k
  {
    t := Pick(InState(threads, k));
  }

  lemma CountPositive(threads: Threads, t: ThreadId)
    requires t in threads
    ensures Count(threads, KindOf(threads[t])) > 0
  {
    assert t in InState(threads, KindOf(threads[t]));
  }

  // ---------------------------------------------------------------------
  // Conservation
  // ---------------------------------------------------------------------

  /** Free, checked out and being opened make up the current size, which respects the limit. */
  ghost predicate Conserved(p: Pool) {
    && p.currentSize == |p.free| + Count(p.threads, IsHolding) + Count(p.threads, IsOpening)
    && p.currentSize <= Max(p.poolSize, 0)
  }

  /** Every connection has one owner: a place in the free list or one guard. */
  ghost predicate SingleOwner(p: Pool) {
    && Distinct(p.free)
    && (forall i :: 0 <= i < |p.free| ==> p.free[i].n < p.nextConn)
    && (forall t :: t in p.threads && p.threads[t].Holding? ==>
          p.threads[t].conn.n < p.nextConn && p.threads[t].conn !in p.free)
    && (forall t, u :: t in p.threads && u in p.threads && t != u && p.threads[t].Holding? && p.threads[u].Holding? ==>
          p.threads[t].conn != p.threads[u].conn)
  }

  /** What the waiting threads of a driver can be woken up for. */
  function Wanted(p: Pool): int {
    |p.free| + (if p.driver == MySql then Max(p.poolSize - p.currentSize, 0) else 0)
  }

  /** Free connections plus slots nobody has reserved. */
  function Available(p: Pool): int {
    |p.free| + Max(p.poolSize - p.currentSize, 0)
  }

  /** While some thread is blocked, enough others are already on their way. */
  ghost predicate Covered(p: Pool) {
    Count(p.threads, IsWaiting) == 0 || Wanted(p) <= Count(p.threads, IsNotified)
  }

  ghost predicate Inv(p: Pool) {
    Conserved(p) && SingleOwner(p) && Covered(p)
  }

  lemma NotifyCounts(p: Pool, wake: Wake)
    requires Wakes(p.threads, wake)
    ensures Count(Notify(p, wake).threads, IsHolding) == Count(p.threads, IsHolding)
    ensures Count(Notify(p, wake).threads, IsOpening) == Count(p.threads, IsOpening)
    ensures Count(p.threads, IsWaiting) == 0 ==> Count(Notify(p, wake).threads, IsWaiting) == 0
    ensures Count(p.threads, IsWaiting) > 0 ==>
              Count(Notify(p, wake).threads, IsNotified) == Count(p.threads, IsNotified) + 1
  {
    match wake {
      case Nobody =>
        if Count(p.threads, IsWaiting) > 0 {
          var t := SomeThread(p.threads, IsWaiting);
          assert false;
        }
      case Wake(who) =>
        CountMoves(p, who, Notified);
        CountPositive(p.threads, who);
    }
  }

  /** A thread that is not blocked does not change who can be woken. */
  lemma WakesUnchanged(threads: Threads, t: ThreadId, wake: Wake)
    requires t in threads && threads[t] != Waiting && Wakes(threads[t := Idle], wake)
    ensures Wakes(threads, wake)
  {
    if wake == Nobody {
      forall u | u in threads ensures threads[u] != Waiting {
        assert u in threads[t := Idle];
      }
    }
  }

  lemma ObtainKeepsInv(p: Pool, t: ThreadId)
    requires Inv(p) && t in p.threads
    requires KindOf(p.threads[t]) != IsHolding && KindOf(p.threads[t]) != IsOpening
    requires p.free != [] || p.currentSize < p.poolSize
    requires KindOf(p.threads[t]) == IsNotified ==> WaitPredicate(p)
    ensures Inv(Obtain(p, t))
  {
    CountMoves(p, t, Obtain(p, t).threads[t]);
    if p.free != [] {
      assert p.free[0] in p.free;
      assert forall i :: 0 <= i < |p.free[1..]| ==> p.free[1..][i] == p.free[i + 1];
    }
  }

  /** A thread that holds nothing moves to another state in which it holds nothing. */
  lemma MoveKeepsOwners(p: Pool, t: ThreadId, state: Thread)
    requires SingleOwner(p) && t in p.threads && !state.Holding?
    ensures SingleOwner(Move(p, t, state))
  {
  }

  /** Giving back a connection or a slot makes one more thing available and wakes one more thread. */
  lemma GiveBackKeepsInv(p: Pool, t: ThreadId, wake: Wake)
    requires Inv(p) && t in p.threads && (p.threads[t] == Opening || p.threads[t].Holding?) && Wakes(p.threads, wake)
    ensures Inv(Notify(DropSlot(Move(p, t, Idle)), wake))
    ensures p.currentSize > 0
  {
    CountMoves(p, t, Idle);
    CountPositive(p.threads, t);
    var q := DropSlot(Move(p, t, Idle));
    MoveKeepsOwners(p, t, Idle);
    NotifyCounts(q, wake);
    assert SingleOwner(q);
    if wake.Wake? {
      MoveKeepsOwners(q, wake.who, Notified);
    }
  }

  /** The connection goes from its guard to the free list. */
  lemma ReturnKeepsOwners(p: Pool, t: ThreadId)
    requires SingleOwner(p) && t in p.threads && p.threads[t].Holding?
    ensures SingleOwner(Move(p.(free := p.free + [p.threads[t].conn]), t, Idle))
  {
  }

  lemma ReleaseKeepsInv(p: Pool, t: ThreadId, wake: Wake)
    requires Inv(p) && t in p.threads && p.threads[t].Holding? && Wakes(p.threads, wake)
    ensures Inv(Apply(p, Release(t, wake)))
  {
    hide SingleOwner;
    hide InState;
    CountMoves(p, t, Idle);
    CountPositive(p.threads, t);
    ReturnKeepsOwners(p, t);
    var q := Move(p.(free := p.free + [p.threads[t].conn]), t, Idle);
    NotifyCounts(q, wake);
    if wake.Wake? {
      MoveKeepsOwners(q, wake.who, Notified);
    }
  }

  /** A thread that gets nothing stops, when there is nothing its driver could be woken up for. */
  lemma StallKeepsInv(p: Pool, t: ThreadId, state: Thread)
    requires Inv(p) && t in p.threads
    requires p.threads[t] != Opening && !p.threads[t].Holding?
    requires state == Idle || state == Full || state == Waiting
    requires Wanted(p) == 0 || (state == Full && p.threads[t] != Notified)
    ensures Inv(Move(p, t, state))
  {
    CountMoves(p, t, state);
    MoveKeepsOwners(p, t, state);
  }

  /** Evaluating the wait predicate: go ahead if it holds, otherwise stop in the given state. */
  lemma LookKeepsInv(p: Pool, t: ThreadId, state: Thread)
    requires Inv(p) && t in p.threads
    requires p.threads[t] != Opening && !p.threads[t].Holding?
    requires state == Idle || state == Waiting
    ensures Inv(if WaitPredicate(p) then Obtain(p, t) else Move(p, t, state))
  {
    if WaitPredicate(p) {
      ObtainKeepsInv(p, t);
    } else {
      StallKeepsInv(p, t, state);
    }
  }

  lemma OpenedKeepsInv(p: Pool, t: ThreadId)
    requires Inv(p) && t in p.threads && p.threads[t] == Opening
    ensures Inv(Apply(p, Opened(t)))
  {
    CountMoves(p, t, Holding(Conn(p.nextConn)));
  }

  lemma SpuriousKeepsInv(p: Pool, t: ThreadId)
    requires Inv(p) && t in p.threads && p.threads[t] == Waiting
    ensures Inv(Move(p, t, Notified))
  {
    CountMoves(p, t, Notified);
    CountPositive(p.threads, t);
    MoveKeepsOwners(p, t, Notified);
  }

  lemma StepKeepsInv(p: Pool, step: Step)
    requires Inv(p) && Enabled(p, step)
    ensures Inv(Apply(p, step))
  {
    match step {
      case Probe(t) =>
        if p.free != [] || p.currentSize < p.poolSize {
          ObtainKeepsInv(p, t);
        } else {
          StallKeepsInv(p, t, if p.driver == MySql then Full else Waiting);
        }
      case Enter(t) => LookKeepsInv(p, t, Waiting);
      case Recheck(t) => LookKeepsInv(p, t, Waiting);
      case Expire(t) => LookKeepsInv(p, t, Idle);
      case Spurious(t) => SpuriousKeepsInv(p, t);
      case Opened(t) => OpenedKeepsInv(p, t);
      case OpenFailed(t, wake) => GiveBackKeepsInv(p, t, wake);
      case Release(t, wake) => ReleaseKeepsInv(p, t, wake);
      case Discard(t, wake) => GiveBackKeepsInv(p, t, wake);
    }
  }

  lemma {:induction false} RunKeepsInv(p: Pool, steps: seq<Step>)
    requires Inv(p) && Runs(p, steps)
    ensures Inv(Run(p, steps))
  {
    if steps != [] {
      RunKeepsInv(p, steps[..|steps| - 1]);
      StepKeepsInv(Run(p, steps[..|steps| - 1]), steps[|steps| - 1]);
    }
  }

  lemma InitInv(driver: Driver, poolSize: int, n: nat)
    ensures Inv(Init(driver, poolSize, n))
  {
    var threads := Init(driver, poolSize, n).threads;
    assert InState(threads, IsHolding) == {} && InState(threads, IsOpening) == {};
    assert InState(threads, IsWaiting) == {};
  }

  // ---------------------------------------------------------------------
  // Theorems over every run
  // ---------------------------------------------------------------------

  /** Conservation and single ownership, for both drivers and every interleaving. */
  lemma PoolConservation(driver: Driver, poolSize: int, n: nat, steps: seq<Step>)
    requires Runs(Init(driver, poolSize, n), steps)
    ensures Conserved(Run(Init(driver, poolSize, n), steps))
    ensures SingleOwner(Run(Init(driver, poolSize, n), steps))
  {
    InitInv(driver, poolSize, n);
    RunKeepsInv(Init(driver, poolSize, n), steps);
  }

  /** The `current_size > 0` tests before each decrement are never false. */
  lemma DecrementIsNeverSkipped(driver: Driver, poolSize: int, n: nat, steps: seq<Step>, step: Step)
    requires Runs(Init(driver, poolSize, n), steps) && Enabled(Run(Init(driver, poolSize, n), steps), step)
    requires step.OpenFailed? || step.Discard?
    ensures Run(Init(driver, poolSize, n), steps).currentSize > 0
  {
    var p := Run(Init(driver, poolSize, n), steps);
    InitInv(driver, poolSize, n);
    RunKeepsInv(Init(driver, poolSize, n), steps);
    GiveBackKeepsInv(p, step.t, step.wake);
  }

  /** At least as many threads are awake as could be served, up to the number that wait at all. */
  ghost predicate NoLostWakeup(p: Pool) {
    Count(p.threads, IsNotified) >=
    Min(Available(p), Count(p.threads, IsWaiting) + Count(p.threads, IsNotified))
  }

  /** MySQL: no wake-up is ever lost. */
  lemma MySqlNoLostWakeup(poolSize: int, n: nat, steps: seq<Step>)
    requires Runs(Init(MySql, poolSize, n), steps)
    ensures NoLostWakeup(Run(Init(MySql, poolSize, n), steps))
  {
    InitInv(MySql, poolSize, n);
    RunKeepsInv(Init(MySql, poolSize, n), steps);
    DriverIsFixed(Init(MySql, poolSize, n), steps);
  }

  lemma {:induction false} DriverIsFixed(p: Pool, steps: seq<Step>)
    requires Runs(p, steps)
    ensures Run(p, steps).driver == p.driver && Run(p, steps).poolSize == p.poolSize
    ensures Run(p, steps).threads.Keys == p.threads.Keys
  {
    if steps != [] {
      DriverIsFixed(p, steps[..|steps| - 1]);
    }
  }

  /**
   * MySQL: if a thread is blocked while a connection or slot is available, some woken thread will get
   * one as soon as it runs.
   */
  lemma MySqlBlockedMeansServed(poolSize: int, n: nat, steps: seq<Step>) returns (t: ThreadId)
    requires Runs(Init(MySql, poolSize, n), steps)
    requires Available(Run(Init(MySql, poolSize, n), steps)) > 0
    requires Count(Run(Init(MySql, poolSize, n), steps).threads, IsWaiting) > 0
    ensures Enabled(Run(Init(MySql, poolSize, n), steps), Recheck(t))
    ensures var served := Apply(Run(Init(MySql, poolSize, n), steps), Recheck(t)).threads[t];
            served == Opening || served.Holding?
  {
    MySqlNoLostWakeup(poolSize, n, steps);
    DriverIsFixed(Init(MySql, poolSize, n), steps);
    t := SomeThread(Run(Init(MySql, poolSize, n), steps).threads, IsNotified);
  }

  // PostgreSQL waits for a free connection only, so a freed slot can go unused.

  /** The state after the first k of n threads have each reserved a slot. */
  function Reserved(poolSize: int, n: nat, k: nat): Pool {
    Pool(PostgreSql, poolSize, k, [], 0, map i | 0 <= i < n :: ThreadId(i) := if i < k then Opening else Idle)
  }

  lemma {:induction false} ReserveRun(poolSize: nat, n: nat, k: nat) returns (steps: seq<Step>)
    requires k <= poolSize < n
    ensures Runs(Init(PostgreSql, poolSize, n), steps)
    ensures Run(Init(PostgreSql, poolSize, n), steps) == Reserved(poolSize, n, k)
  {
    if k == 0 {
      steps := [];
    } else {
      hide *;
      var before := ReserveRun(poolSize, n, k - 1);
      ReserveOne(poolSize, n, k - 1);
      Extend(Init(PostgreSql, poolSize, n), before, Probe(ThreadId(k - 1)));
      steps := before + [Probe(ThreadId(k - 1))];
    }
  }

  lemma ReserveOne(poolSize: nat, n: nat, k: nat)
    requires k < poolSize < n
    ensures Enabled(Reserved(poolSize, n, k), Probe(ThreadId(k)))
    ensures Apply(Reserved(poolSize, n, k), Probe(ThreadId(k))) == Reserved(poolSize, n, k + 1)
  {
  }

  lemma Extend(p: Pool, steps: seq<Step>, step: Step)
    requires Runs(p, steps) && Enabled(Run(p, steps), step)
    ensures Runs(p, steps + [step]) && Run(p, steps + [step]) == Apply(Run(p, steps), step)
  {
    assert (steps + [step])[..|steps + [step]| - 1] == steps;
  }

  /** The three last steps of the run that loses a wake-up. */
  lemma LastSteps(poolSize: nat, n: nat, first: ThreadId, last: ThreadId)
    requires 0 < poolSize < n && first == ThreadId(0) && last == ThreadId(poolSize)
    ensures var p := Reserved(poolSize, n, poolSize);
            && Enabled(p, Probe(last))
            && Apply(p, Probe(last)) == Move(p, last, Waiting)
            && Enabled(Move(p, last, Waiting), OpenFailed(first, Wake(last)))
            && Apply(Move(p, last, Waiting), OpenFailed(first, Wake(last))) ==
               Pool(PostgreSql, poolSize, poolSize - 1, [], 0, p.threads[first := Idle][last := Notified])
  {
    var p := Reserved(poolSize, n, poolSize);
    assert p.threads[last := Waiting][first := Idle][last := Notified] == p.threads[first := Idle][last := Notified];
  }

  /** The woken thread looks for a free connection, finds none and blocks again. */
  lemma SleepsAgain(poolSize: nat, threads: Threads, last: ThreadId)
    requires poolSize > 0 && last in threads && threads[last] == Notified
    ensures var p := Pool(PostgreSql, poolSize, poolSize - 1, [], 0, threads);
            Enabled(p, Recheck(last)) && Apply(p, Recheck(last)) == p.(threads := threads[last := Waiting])
  {
  }

  lemma AsleepBesideSlot(poolSize: nat, n: nat, first: ThreadId, last: ThreadId)
    requires 0 < poolSize < n && first == ThreadId(0) && last == ThreadId(poolSize)
    ensures var threads := Reserved(poolSize, n, poolSize).threads[first := Idle][last := Waiting];
            !NoLostWakeup(Pool(PostgreSql, poolSize, poolSize - 1, [], 0, threads))
  {
    var threads := Reserved(poolSize, n, poolSize).threads[first := Idle][last := Waiting];
    CountPositive(threads, last);
    assert InState(threads, IsNotified) == {};
  }

  /**
   * PostgreSQL, any positive pool size and any larger number of threads: every slot is being opened, one
   * more thread waits, one open fails and wakes it, and it goes back to sleep beside the slot that is now
   * free.
   */
  lemma PgLosesWakeup(poolSize: nat, n: nat) returns (steps: seq<Step>)
    requires 0 < poolSize < n
    ensures Runs(Init(PostgreSql, poolSize, n), steps)
    ensures !NoLostWakeup(Run(Init(PostgreSql, poolSize, n), steps))
  {
    hide *;
    var init, first, last := Init(PostgreSql, poolSize, n), ThreadId(0), ThreadId(poolSize);
    steps := ReserveRun(poolSize, n, poolSize);
    LastSteps(poolSize, n, first, last);
    Extend(init, steps, Probe(last));
    Extend(init, steps + [Probe(last)], OpenFailed(first, Wake(last)));
    steps := steps + [Probe(last)] + [OpenFailed(first, Wake(last))];
    var threads := Run(init, steps).threads;
    SleepsAgain(poolSize, threads, last);
    Extend(init, steps, Recheck(last));
    steps := steps + [Recheck(last)];
    assert threads[last := Waiting] ==
           Reserved(poolSize, n, poolSize).threads[first := Idle][last := Waiting];
    AsleepBesideSlot(poolSize, n, first, last);
  }

  /** With a slot for every thread, nobody ever has to wait. */
  ghost predicate NobodyWaits(p: Pool) {
    && Conserved(p) && |p.threads| <= p.poolSize
    && forall t :: t in p.threads ==> p.threads[t] == Idle || p.threads[t] == Opening || p.threads[t].Holding?
  }

  /** A thread that is idle is not among those that hold or open, so there is room for it. */
  lemma RoomForOneMore(p: Pool, t: ThreadId)
    requires Conserved(p) && |p.threads| <= p.poolSize && t in p.threads && p.threads[t] == Idle && p.free == []
    ensures p.currentSize < p.poolSize
  {
    var busy := InState(p.threads, IsHolding) + InState(p.threads, IsOpening);
    assert InState(p.threads, IsHolding) !! InState(p.threads, IsOpening);
    assert busy <= p.threads.Keys - {t};
    SubsetIsSmaller(busy, p.threads.Keys - {t});
  }

  lemma NobodyWaitsStep(p: Pool, step: Step)
    requires Inv(p) && NobodyWaits(p) && Enabled(p, step)
    ensures NobodyWaits(Apply(p, step))
  {
    StepKeepsInv(p, step);
    hide Inv, SingleOwner, Covered, InState;
    assert Conserved(Apply(p, step)) by { StepConserves(p, step); }
    hide Conserved;
    assert Apply(p, step).threads.Keys == p.threads.Keys;
    if step.Probe? && p.free == [] {
      RoomForOneMore(p, step.t);
    }
  }

  lemma StepConserves(p: Pool, step: Step)
    requires Inv(p) && Enabled(p, step)
    ensures Conserved(Apply(p, step))
  {
    StepKeepsInv(p, step);
  }

  lemma {:induction false} NobodyEverWaits(p: Pool, steps: seq<Step>)
    requires Inv(p) && NobodyWaits(p) && Runs(p, steps)
    ensures Inv(Run(p, steps)) && NobodyWaits(Run(p, steps))
  {
    if steps != [] {
      hide Inv, NobodyWaits, Apply;
      NobodyEverWaits(p, steps[..|steps| - 1]);
      NobodyWaitsStep(Run(p, steps[..|steps| - 1]), steps[|steps| - 1]);
      StepKeepsInv(Run(p, steps[..|steps| - 1]), steps[|steps| - 1]);
    }
  }

  /** Threads 0 to n - 1, all idle. */
  lemma InitThreads(driver: Driver, poolSize: int, n: nat)
    ensures |Init(driver, poolSize, n).threads| == n
  {
    var ids := set i | 0 <= i < n :: ThreadId(i);
    assert Init(driver, poolSize, n).threads.Keys == ids;
    ThreadCount(n);
  }

  lemma {:induction false} ThreadCount(n: nat)
    ensures |set i | 0 <= i < n :: ThreadId(i)| == n
  {
    if n > 0 {
      ThreadCount(n - 1);
      assert (set i | 0 <= i < n :: ThreadId(i)) == (set i | 0 <= i < n - 1 :: ThreadId(i)) + {ThreadId(n - 1)};
    }
  }

  lemma EnoughSlots(poolSize: int, n: nat, steps: seq<Step>)
    requires Runs(Init(PostgreSql, poolSize, n), steps) && n <= poolSize
    ensures NoLostWakeup(Run(Init(PostgreSql, poolSize, n), steps))
  {
    var start := Init(PostgreSql, poolSize, n);
    InitInv(PostgreSql, poolSize, n);
    InitThreads(PostgreSql, poolSize, n);
    assert NobodyWaits(start);
    hide *;
    NobodyEverWaits(start, steps);
    NobodyToWake(Run(start, steps));
  }

  lemma NobodyToWake(p: Pool)
    requires NobodyWaits(p)
    ensures NoLostWakeup(p)
  {
    assert InState(p.threads, IsWaiting) == {} && InState(p.threads, IsNotified) == {};
  }

  lemma NoCapacity(poolSize: int, n: nat, steps: seq<Step>)
    requires Runs(Init(PostgreSql, poolSize, n), steps) && poolSize <= 0
    ensures NoLostWakeup(Run(Init(PostgreSql, poolSize, n), steps))
  {
    InitInv(PostgreSql, poolSize, n);
    RunKeepsInv(Init(PostgreSql, poolSize, n), steps);
    DriverIsFixed(Init(PostgreSql, poolSize, n), steps);
  }

  ghost predicate NeverLosesWakeup(poolSize: int, n: nat) {
    forall steps :: Runs(Init(PostgreSql, poolSize, n), steps) ==>
      NoLostWakeup(Run(Init(PostgreSql, poolSize, n), steps))
  }

  /**
   * PostgreSQL with n threads never loses a wake-up, in any run, exactly when there is a slot for every
   * thread; a pool without capacity has none to lose.
   */
  lemma PgNoLostWakeupExactly(poolSize: int, n: nat)
    ensures NeverLosesWakeup(poolSize, n) <==> poolSize <= 0 || n <= poolSize
  {
    hide NoLostWakeup, Run, Runs, Init;
    if poolSize <= 0 || n <= poolSize {
      forall steps | Runs(Init(PostgreSql, poolSize, n), steps)
        ensures NoLostWakeup(Run(Init(PostgreSql, poolSize, n), steps))
      {
        if poolSize <= 0 {
          NoCapacity(poolSize, n, steps);
        } else {
          EnoughSlots(poolSize, n, steps);
        }
      }
    } else {
      var steps := PgLosesWakeup(poolSize, n);
    }
  }

  /** PostgreSQL does not lose the wake-ups for connections that come back. */
  lemma PgCoversFreeConnections(poolSize: int, n: nat, steps: seq<Step>)
    requires Runs(Init(PostgreSql, poolSize, n), steps)
    requires Count(Run(Init(PostgreSql, poolSize, n), steps).threads, IsWaiting) > 0
    ensures |Run(Init(PostgreSql, poolSize, n), steps).free| <=
            Count(Run(Init(PostgreSql, poolSize, n), steps).threads, IsNotified)
  {
    InitInv(PostgreSql, poolSize, n);
    RunKeepsInv(Init(PostgreSql, poolSize, n), steps);
    DriverIsFixed(Init(PostgreSql, poolSize, n), steps);
  }

  // ---------------------------------------------------------------------
  // The instance: each critical section updates the fields as one step of the protocol
  // ---------------------------------------------------------------------

  class PoolInstance {
    const driver: Driver
    const poolSize: int
    var currentSize: int
    var freeList: seq<Conn>
    var nextConn: nat
    var threads: Threads

    function State(): Pool
      reads this
    {
      Pool(driver, poolSize, currentSize, freeList, nextConn, threads)
    }

    constructor (driver: Driver, poolSize: int, n: nat)
      ensures State() == Init(driver, poolSize, n) && Inv(State())
    {
      this.driver, this.poolSize := driver, poolSize;
      currentSize, freeList, nextConn := 0, [], 0;
      threads := map i | 0 <= i < n :: ThreadId(i) := Idle;
      InitInv(driver, poolSize, n);
    }

    /** First critical section of an acquire: take, reserve a slot, or find the pool full. */
    method BeginAcquire(t: ThreadId)
      requires Inv(State()) && Enabled(State(), Probe(t))
      modifies this
      ensures State() == Apply(old(State()), Probe(t)) && Inv(State())
    {
      StepKeepsInv(State(), Probe(t));
      if freeList != [] {
        threads := threads[t := Holding(freeList[0])];
        freeList := freeList[1..];
      } else if currentSize < poolSize {
        currentSize := currentSize + 1;
        threads := threads[t := Opening];
      } else {
        threads := threads[t := if driver == MySql then Full else Waiting];
      }
    }

    /** The body of the wait loop: evaluate the predicate under the lock, then go ahead or stop. */
    method EvaluateWait(t: ThreadId, expired: bool)
      requires Inv(State()) && t in threads
      requires threads[t] == Full || threads[t] == Notified || (expired && threads[t] == Waiting)
      requires expired ==> threads[t] != Full
      modifies this
      ensures Inv(State())
      ensures State() == Apply(old(State()),
                               if expired then Expire(t) else if old(threads[t]) == Full then Enter(t) else Recheck(t))
    {
      StepKeepsInv(State(), if expired then Expire(t) else if threads[t] == Full then Enter(t) else Recheck(t));
      var ready := freeList != [] || (driver == MySql && currentSize < poolSize);
      if !ready {
        threads := threads[t := if expired then Idle else Waiting];
      } else if freeList != [] {
        threads := threads[t := Holding(freeList[0])];
        freeList := freeList[1..];
      } else {
        currentSize := currentSize + 1;
        threads := threads[t := Opening];
      }
    }

    /** notify_one: any blocked thread may be the one that wakes. */
    method NotifyOne() returns (wake: Wake)
      modifies this`threads
      ensures Wakes(old(threads), wake) && State() == Notify(old(State()), wake)
    {
      if t :| t in threads && threads[t] == Waiting {
        threads := threads[t := Notified];
        wake := Wake(t);
      } else {
        wake := Nobody;
      }
    }

    /** The connect outside the lock has finished; a failure gives the slot back. */
    method FinishOpen(t: ThreadId, ok: bool) returns (wake: Wake)
      requires Inv(State()) && t in threads && threads[t] == Opening
      modifies this
      ensures Inv(State())
      ensures ok ==> State() == Apply(old(State()), Opened(t))
      ensures !ok ==> Enabled(old(State()), OpenFailed(t, wake)) && State() == Apply(old(State()), OpenFailed(t, wake))
    {
      if ok {
        StepKeepsInv(State(), Opened(t));
        threads := threads[t := Holding(Conn(nextConn))];
        nextConn := nextConn + 1;
        wake := Nobody;
      } else {
        ghost var before := State();
        threads := threads[t := Idle];
        if driver == MySql || currentSize > 0 {
          currentSize := currentSize - 1;
        }
        wake := NotifyOne();
        WakesUnchanged(before.threads, t, wake);
        StepKeepsInv(before, OpenFailed(t, wake));
      }
    }

    /** The guard's destructor. */
    method DestroyGuard(t: ThreadId, broken: bool) returns (wake: Wake)
      requires Inv(State()) && t in threads && threads[t].Holding?
      modifies this
      ensures Inv(State())
      ensures Enabled(old(State()), if broken then Discard(t, wake) else Release(t, wake))
      ensures State() == Apply(old(State()), if broken then Discard(t, wake) else Release(t, wake))
    {
      ghost var before := State();
      if broken {
        if driver == MySql || currentSize > 0 {
          currentSize := currentSize - 1;
        }
      } else {
        freeList := freeList + [threads[t].conn];
      }
      threads := threads[t := Idle];
      wake := NotifyOne();
      WakesUnchanged(before.threads, t, wake);
      StepKeepsInv(before, if broken then Discard(t, wake) else Release(t, wake));
    }

    /** Shutdown: with nothing checked out, draining the free list leaves an empty pool. */
    method Drain()
      requires Inv(State()) && Count(threads, IsHolding) == 0 && Count(threads, IsOpening) == 0
      modifies this
      ensures freeList == [] && currentSize == 0 && threads == old(threads)
    {
      while freeList != []
        invariant currentSize == |freeList| + (if driver == MySql then old(currentSize) - |freeList| else 0)
        invariant threads == old(threads) && |freeList| <= old(currentSize)
        decreases |freeList|
      {
        freeList := freeList[1..];
        if driver == PostgreSql && currentSize > 0 {
          currentSize := currentSize - 1;
        }
      }
      if driver == MySql {
        currentSize := 0;
      }
    }
  }
}
