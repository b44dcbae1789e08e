/** The TCP listener: stored sessions, per-IP counters and the two connection limits. */
module Listener {
  datatype SessionId = SessionId(n: nat)

  /** The textual form of a remote address. */
  datatype Ip = Ip(text: string)

  /** How far the one accept in progress has got. */
  datatype Phase = Ready | TotalChecked(ip: Ip) | IpChecked(ip: Ip)

  datatype State = State(maxConnections: nat, maxPerIp: nat, sessions: map<SessionId, Ip>, counts: map<Ip, nat>,
                         next: nat, phase: Phase)

  datatype Step =
    | CheckTotal(ip: Ip)      // a connection arrives; first critical section
    | CheckIp                     // second critical section
    | Store                       // third: the session is created and stored
    | Remove(id: SessionId)       // kick, or close of a session; repeated closes included
    | Stop

  predicate Enabled(s: State, step: Step) {
    match step
    case CheckTotal(_) => s.phase.Ready?
    case CheckIp => s.phase.TotalChecked?
    case Store => s.phase.IpChecked?
    case _ => true
  }

  function CountOf(counts: map<Ip, nat>, ip: Ip): nat {
    if ip in counts then counts[ip] else 0
  }

  function Apply(s: State, step: Step): State
    requires Enabled(s, step)
  {
    match step
    case CheckTotal(ip) =>
      if s.maxConnections > 0 && |s.sessions| >= s.maxConnections then s else s.(phase := TotalChecked(ip))
    case CheckIp =>
      if s.maxPerIp > 0 && s.phase.ip in s.counts && s.counts[s.phase.ip] >= s.maxPerIp then s.(phase := Ready)
      else s.(phase := IpChecked(s.phase.ip))
    case Store =>
      s.(sessions := s.sessions[SessionId(s.next) := s.phase.ip], next := s.next + 1,
         counts := s.counts[s.phase.ip := CountOf(s.counts, s.phase.ip) + 1], phase := Ready)
    case Remove(id) =>
      if id !in s.sessions then s
      else
        var ip := s.sessions[id];
        s.(sessions := s.sessions - {id},
           counts := if ip !in s.counts then s.counts
                     else if s.counts[ip] > 1 then s.counts[ip := s.counts[ip] - 1]
                     else s.counts - {ip})
    case Stop => s.(sessions := map[], counts := map[])
  }

  function From(sessions: map<SessionId, Ip>, ip: Ip): set<SessionId> {
    set id | id in sessions && sessions[id] == ip
  }

  /** The counter of every IP is the number of stored sessions from it, and no counter is zero. */
  ghost predicate CountsMatch(s: State) {
    && (forall ip :: CountOf(s.counts, ip) == |From(s.sessions, ip)|)
    && (forall ip :: ip in s.counts ==> s.counts[ip] > 0)
  }

  ghost predicate WithinLimits(s: State) {
    && (s.maxConnections > 0 ==> |s.sessions| <= s.maxConnections)
    && (s.maxPerIp > 0 ==> forall ip :: CountOf(s.counts, ip) <= s.maxPerIp)
  }

  /** An accept that has passed a check still fits, whatever has been closed since. */
  ghost predicate RoomLeft(s: State) {
    && (!s.phase.Ready? && s.maxConnections > 0 ==> |s.sessions| < s.maxConnections)
    && (s.phase.IpChecked? && s.maxPerIp > 0 ==> CountOf(s.counts, s.phase.ip) < s.maxPerIp)
  }

  ghost predicate Inv(s: State) {
    && CountsMatch(s) && WithinLimits(s) && RoomLeft(s)
    && forall id :: id in s.sessions ==> id.n < s.next
  }

  lemma FromAfterStore(sessions: map<SessionId, Ip>, id: SessionId, ip: Ip, other: Ip)
    requires id !in sessions
    ensures |From(sessions[id := ip], other)| == |From(sessions, other)| + (if other == ip then 1 else 0)
  {
    assert From(sessions[id := ip], other) == From(sessions, other) + (if other == ip then {id} else {});
  }

  lemma FromAfterRemove(sessions: map<SessionId, Ip>, id: SessionId, other: Ip)
    requires id in sessions
    ensures |From(sessions - {id}, other)| == |From(sessions, other)| - (if other == sessions[id] then 1 else 0)
  {
    if other == sessions[id] {
      assert From(sessions, other) == From(sessions - {id}, other) + {id};
    } else {
      assert From(sessions - {id}, other) == From(sessions, other);
    }
  }

  lemma StoreCounts(s: State)
    requires CountsMatch(s) && s.phase.IpChecked? && SessionId(s.next) !in s.sessions
    ensures CountsMatch(Apply(s, Store))
  {
    hide From;
    var s' := Apply(s, Store);
    forall ip ensures CountOf(s'.counts, ip) == |From(s'.sessions, ip)| {
      FromAfterStore(s.sessions, SessionId(s.next), s.phase.ip, ip);
      assert CountOf(s.counts, ip) == |From(s.sessions, ip)|;
    }
  }

  lemma StoreLimits(s: State)
    requires WithinLimits(s) && RoomLeft(s) && s.phase.IpChecked? && SessionId(s.next) !in s.sessions
    ensures WithinLimits(Apply(s, Store))
  {
    var s' := Apply(s, Store);
    OneMoreSession(s.sessions, SessionId(s.next), s.phase.ip);
    forall ip | s.maxPerIp > 0 ensures CountOf(s'.counts, ip) <= s.maxPerIp {
      assert CountOf(s.counts, ip) <= s.maxPerIp;
    }
  }

  lemma OneMoreSession(sessions: map<SessionId, Ip>, id: SessionId, ip: Ip)
    requires id !in sessions
    ensures |sessions[id := ip]| == |sessions| + 1
  {
    assert sessions[id := ip].Keys == sessions.Keys + {id};
  }

  lemma StoreKeepsInv(s: State)
    requires Inv(s) && s.phase.IpChecked?
    ensures Inv(Apply(s, Store))
  {
    hide CountsMatch;
    StoreCounts(s);
    StoreLimits(s);
  }

  lemma RemoveCounts(s: State, id: SessionId)
    requires CountsMatch(s) && id in s.sessions
    ensures CountsMatch(Apply(s, Remove(id)))
  {
    var s' := Apply(s, Remove(id));
    var own := s.sessions[id];
    assert CountOf(s.counts, own) == |From(s.sessions, own)| && id in From(s.sessions, own);
    hide From;
    forall ip ensures CountOf(s'.counts, ip) == |From(s'.sessions, ip)| {
      FromAfterRemove(s.sessions, id, ip);
      assert CountOf(s.counts, ip) == |From(s.sessions, ip)|;
    }
  }

  lemma RemoveKeepsInv(s: State, id: SessionId)
    requires Inv(s)
    ensures Inv(Apply(s, Remove(id)))
  {
    hide CountsMatch;
    if id in s.sessions {
      RemoveCounts(s, id);
      var s' := Apply(s, Remove(id));
      assert s'.sessions.Keys == s.sessions.Keys - {id};
      assert |s'.sessions.Keys| == |s.sessions.Keys| - 1;
      assert forall ip :: CountOf(s'.counts, ip) <= CountOf(s.counts, ip);
    }
  }

  lemma StepKeepsInv(s: State, step: Step)
    requires Inv(s) && Enabled(s, step)
    ensures Inv(Apply(s, step))
  {
    match step {
      case CheckTotal(ip) =>
      case CheckIp =>
      case Store => StoreKeepsInv(s);
      case Remove(id) => RemoveKeepsInv(s, id);
      case Stop => assert forall ip :: From(map[], ip) == {};
    }
  }

  ghost predicate Runs(s: State, steps: seq<Step>)
    decreases |steps|, 0
  {
    steps == [] || (Runs(s, steps[..|steps| - 1]) && Enabled(Run(s, steps[..|steps| - 1]), steps[|steps| - 1]))
  }

  ghost function Run(s: State, steps: seq<Step>): State
    requires Runs(s, steps)
    decreases |steps|, 1
  {
    if steps == [] then s else Apply(Run(s, steps[..|steps| - 1]), steps[|steps| - 1])
  }

  /** Over every run, the counters are right and both limits are respected. */
  lemma {:induction false} LimitsHold(maxConnections: nat, maxPerIp: nat, steps: seq<Step>)
    requires Runs(State(maxConnections, maxPerIp, map[], map[], 1, Ready), steps)
    ensures Inv(Run(State(maxConnections, maxPerIp, map[], map[], 1, Ready), steps))
  {
    var start := State(maxConnections, maxPerIp, map[], map[], 1, Ready);
    if steps == [] {
      assert forall ip :: From(map[], ip) == {};
    } else {
      LimitsHold(maxConnections, maxPerIp, steps[..|steps| - 1]);
      StepKeepsInv(Run(start, steps[..|steps| - 1]), steps[|steps| - 1]);
    }
  }

  /** Closing a session twice is closing it once. */
  lemma RepeatedClose(s: State, id: SessionId)
    ensures Apply(Apply(s, Remove(id)), Remove(id)) == Apply(s, Remove(id))
  {
  }

  class TcpListener {
    const maxConnections: nat
    const maxPerIp: nat
    var sessions: map<SessionId, Ip>
    var counts: map<Ip, nat>
    var next: nat
    var phase: Phase

    function Snapshot(): State
      reads this
    {
      State(maxConnections, maxPerIp, sessions, counts, next, phase)
    }

    constructor (maxConnections: nat, maxPerIp: nat)
      ensures Snapshot() == State(maxConnections, maxPerIp, map[], map[], 1, Ready) && Inv(Snapshot())
    {
      this.maxConnections, this.maxPerIp := maxConnections, maxPerIp;
      sessions, counts, next, phase := map[], map[], 1, Ready;
      new;
      assert forall ip :: From(map[], ip) == {};
    }

    method PassesTotal(ip: Ip) returns (ok: bool)
      requires Inv(Snapshot()) && phase.Ready?
      modifies this
      ensures Snapshot() == Apply(old(Snapshot()), CheckTotal(ip)) && Inv(Snapshot()) && ok == !phase.Ready?
    {
      ok := !(maxConnections > 0 && |sessions| >= maxConnections);
      if ok {
        phase := TotalChecked(ip);
      }
    }

    method PassesIp() returns (ok: bool)
      requires Inv(Snapshot()) && phase.TotalChecked?
      modifies this
      ensures Snapshot() == Apply(old(Snapshot()), CheckIp) && Inv(Snapshot()) && ok == !phase.Ready?
    {
      StepKeepsInv(Snapshot(), CheckIp);
      var ip := phase.ip;
      ok := !(maxPerIp > 0 && ip in counts && counts[ip] >= maxPerIp);
      phase := if ok then IpChecked(ip) else Ready;
    }

    method StoreSession() returns (id: SessionId)
      requires Inv(Snapshot()) && phase.IpChecked?
      modifies this
      ensures Snapshot() == Apply(old(Snapshot()), Store) && Inv(Snapshot()) && id == SessionId(old(next))
    {
      StepKeepsInv(Snapshot(), Store);
      id := SessionId(next);
      next := next + 1;
      sessions := sessions[id := phase.ip];
      counts := counts[phase.ip := (if phase.ip in counts then counts[phase.ip] else 0) + 1];
      phase := Ready;
    }

    /** remove_session_locked, reached from a kick and from every close event. */
    method RemoveSession(id: SessionId) returns (found: bool)
      requires Inv(Snapshot())
      modifies this
      ensures Snapshot() == Apply(old(Snapshot()), Remove(id)) && Inv(Snapshot()) && found == (id in old(sessions))
    {
      StepKeepsInv(Snapshot(), Remove(id));
      found := id in sessions;
      if found {
        var ip := sessions[id];
        if ip in counts {
          if counts[ip] > 1 {
            counts := counts[ip := counts[ip] - 1];
          } else {
            counts := counts - {ip};
          }
        }
        sessions := sessions - {id};
      }
    }

    method StopListening()
      modifies this
      ensures Snapshot() == Apply(old(Snapshot()), Stop)
      ensures old(Inv(Snapshot())) ==> Inv(Snapshot())
    {
      if Inv(Snapshot()) {
        StepKeepsInv(Snapshot(), Stop);
      }
      sessions, counts := map[], map[];
    }
  }
}
