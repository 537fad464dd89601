/**
 Without new acquires every run is finite, and so is every play; when release
 lowers the request flag a play that cannot go on has served everybody.
 */
module Termination {
  import opened Protocol
  import opened Invariants
  import opened Moves
  import opened Safety
  import opened Progress

  /** An action that serves an acquire already made, rather than making a new one. */
  ghost predicate Serves(cfg: Config, s: State, a: Action)
    requires InRange(cfg, s)
  {
    Enabled(cfg, s, a) && !a.Arrive?
  }

  /** How many actions separate a handler's stage from its answer, at most. */
  ghost function StageWeight(g: Stage): nat {
    match g
    case InFlight => 6
    case ClockDone => 5
    case FlagSeen => 4
    case NotGreater => 3
    case MustDefer => 2
    case Parked => 1
    case Answered => 0
  }

  /** A bound on the actions a thread still needs, those of the handlers it calls included. */
  ghost function Weight(cfg: Config, s: State, t: Thread): nat
    requires InRange(cfg, s) && CallsMatch(cfg, s) && t in s.threads
  {
    assert ThreadMatch(cfg, s, t);
    var peers := |cfg.peers[t.node]|;
    match s.threads[t]
    case Blocked => 8 * peers + 11
    case Locked => 8 * peers + 10
    case Flagged => 8 * peers + 9
    case ClockRead(_) => 8 * peers + 8
    case Asking(k) => 8 * (peers - k) + 7
    case Waiting(k, c) => 8 * (peers - k) + StageWeight(s.calls[c].stage)
    case Critical => 2
    case Flushed => 1
  }

  ghost function Total(cfg: Config, s: State, ts: set<Thread>): nat
    requires InRange(cfg, s) && CallsMatch(cfg, s) && ts <= s.threads.Keys
  {
    if ts == {} then 0
    else
      var t :| t in ts;
      Weight(cfg, s, t) + Total(cfg, s, ts - {t})
  }

  lemma {:induction false} TotalRemove(cfg: Config, s: State, ts: set<Thread>, t: Thread)
    requires InRange(cfg, s) && CallsMatch(cfg, s) && ts <= s.threads.Keys && t in ts
    ensures Total(cfg, s, ts) == Weight(cfg, s, t) + Total(cfg, s, ts - {t})
    decreases |ts|
  {
    var u :| u in ts && Total(cfg, s, ts) == Weight(cfg, s, u) + Total(cfg, s, ts - {u});
    if u != t {
      TotalRemove(cfg, s, ts - {u}, t);
      TotalRemove(cfg, s, ts - {t}, u);
      assert ts - {u} - {t} == ts - {t} - {u};
    }
  }

  lemma {:induction false} TotalLess(cfg: Config, s: State, s': State, ts: set<Thread>)
    requires InRange(cfg, s) && CallsMatch(cfg, s) && ts <= s.threads.Keys
    requires InRange(cfg, s') && CallsMatch(cfg, s') && ts <= s'.threads.Keys
    requires forall t :: t in ts ==> Weight(cfg, s', t) <= Weight(cfg, s, t)
    ensures Total(cfg, s', ts) <= Total(cfg, s, ts)
    decreases |ts|
  {
    if ts != {} {
      var t :| t in ts;
      TotalRemove(cfg, s, ts, t);
      TotalRemove(cfg, s', ts, t);
      TotalLess(cfg, s, s', ts - {t});
    }
  }

  ghost function Measure(cfg: Config, s: State): nat
    requires InRange(cfg, s) && CallsMatch(cfg, s)
  {
    Total(cfg, s, s.threads.Keys)
  }

  /** The thread whose acquire or release an action advances. */
  ghost function Actor(s: State, a: Action): Thread
    requires IsHandler(a) ==> a.c in s.calls
  {
    if IsHandler(a) then s.calls[a.c].src else a.t
  }

  /** Who is in the system after a serving action. */
  lemma SameThreads(cfg: Config, s: State, a: Action)
    requires InRange(cfg, s) && CallsMatch(cfg, s) && Serves(cfg, s, a)
    ensures IsHandler(a) ==> a.c in s.calls
    ensures Actor(s, a) in s.threads
    ensures Step(cfg, s, a).threads.Keys == if a.Unlock? then s.threads.Keys - {a.t} else s.threads.Keys
  {
    if IsHandler(a) {
      assert CallMatch(cfg, s, a.c);
    }
  }

  /** A serving action takes its actor one step further. */
  lemma ActorWeightFalls(cfg: Config, s: State, a: Action)
    requires InRange(cfg, s) && CallsMatch(cfg, s) && Serves(cfg, s, a) && !a.Unlock?
    requires InRange(cfg, Step(cfg, s, a)) && CallsMatch(cfg, Step(cfg, s, a))
    requires IsHandler(a) ==> a.c in s.calls
    requires Actor(s, a) in s.threads && Actor(s, a) in Step(cfg, s, a).threads
    ensures Weight(cfg, Step(cfg, s, a), Actor(s, a)) < Weight(cfg, s, Actor(s, a))
  {
    assert ThreadMatch(cfg, s, Actor(s, a)) && ThreadMatch(cfg, Step(cfg, s, a), Actor(s, a));
    if IsHandler(a) {
      assert CallMatch(cfg, s, a.c);
    }
  }

  /** Nobody else changes phase, and nobody else's call but a parked one changes stage. */
  lemma OtherUnmoved(cfg: Config, s: State, a: Action, t: Thread)
    requires InRange(cfg, s) && Serves(cfg, s, a) && (IsHandler(a) ==> a.c in s.calls)
    requires t in s.threads && t != Actor(s, a) && ThreadMatch(cfg, s, t)
    requires a.Receive? ==> ThreadMatch(cfg, s, a.t)
    requires a.Flush? && s.threads[t].Waiting? ==> ListedIffParked(s, a.t.node, s.threads[t].call)
    ensures var s' := Step(cfg, s, a);
      && t in s'.threads && s'.threads[t] == s.threads[t]
      && (s.threads[t].Waiting? ==>
            && s.threads[t].call in s'.calls
            && (s'.calls[s.threads[t].call].stage == s.calls[s.threads[t].call].stage ||
                (s.calls[s.threads[t].call].stage == Parked && s'.calls[s.threads[t].call].stage == Answered)))
  {
  }

  /** It sets nobody back. */
  lemma OtherWeightKept(cfg: Config, s: State, a: Action, t: Thread)
    requires InRange(cfg, s) && CallsMatch(cfg, s) && Serves(cfg, s, a)
    requires InRange(cfg, Step(cfg, s, a)) && CallsMatch(cfg, Step(cfg, s, a))
    requires IsHandler(a) ==> a.c in s.calls
    requires t in s.threads && t != Actor(s, a)
    requires a.Flush? && s.threads[t].Waiting? ==> ListedIffParked(s, a.t.node, s.threads[t].call)
    ensures t in Step(cfg, s, a).threads && Weight(cfg, Step(cfg, s, a), t) <= Weight(cfg, s, t)
  {
    assert ThreadMatch(cfg, s, t);
    assert a.Receive? ==> ThreadMatch(cfg, s, a.t);
    OtherUnmoved(cfg, s, a, t);
  }

  /** Every action that serves an acquire already made lowers the measure, whatever release does. */
  lemma StepMeasure(cfg: Config, s: State, a: Action)
    requires Base(cfg, s) && Serves(cfg, s, a) && Base(cfg, Step(cfg, s, a))
    ensures Measure(cfg, Step(cfg, s, a)) < Measure(cfg, s)
  {
    var s' := Step(cfg, s, a);
    SameThreads(cfg, s, a);
    var t := Actor(s, a);
    var others := s.threads.Keys - {t};
    forall u | u in others ensures Weight(cfg, s', u) <= Weight(cfg, s, u) {
      if a.Flush? && s.threads[u].Waiting? {
        InvListed(cfg, s, a.t.node, s.threads[u].call);
      }
      OtherWeightKept(cfg, s, a, u);
    }
    TotalLess(cfg, s, s', others);
    TotalRemove(cfg, s, s.threads.Keys, t);
    if a.Unlock? {
      assert s'.threads.Keys == others;
    } else {
      ActorWeightFalls(cfg, s, a);
      TotalRemove(cfg, s', s'.threads.Keys, t);
    }
  }

  ghost predicate NoArrive(acts: seq<Action>) {
    forall k :: 0 <= k < |acts| ==> !acts[k].Arrive?
  }

  /** A run without new acquires is no longer than what it takes off the measure. */
  lemma {:induction false} RunIsBounded(cfg: Config, s: State, acts: seq<Action>)
    requires Base(cfg, s) && IsRun(cfg, s, acts) && NoArrive(acts)
    ensures Base(cfg, Exec(cfg, s, acts)) && |acts| + Measure(cfg, Exec(cfg, s, acts)) <= Measure(cfg, s)
    decreases |acts|
  {
    if acts != [] {
      StepBase(cfg, s, acts[0]);
      StepMeasure(cfg, s, acts[0]);
      RunIsBounded(cfg, Step(cfg, s, acts[0]), acts[1..]);
    }
  }

  lemma BurstServes(cfg: Config, s: State, m: Move)
    requires InRange(cfg, s) && Serving(cfg, s, m)
    ensures Burst(cfg, s, m) != [] && NoArrive(Burst(cfg, s, m))
  {
  }

  /** So does every serving move, being a burst of such actions. */
  lemma MeasureFalls(cfg: Config, s: State, m: Move)
    requires Calm(cfg, s) && Serving(cfg, s, m) && Calm(cfg, Result(cfg, s, m))
    ensures Measure(cfg, Result(cfg, s, m)) < Measure(cfg, s)
  {
    MoveIsBurst(cfg, s, m);
    BurstServes(cfg, s, m);
    var acts := Burst(cfg, s, m);
    RunIsBounded(cfg, s, acts);
  }

  ghost predicate NoJoin(ms: seq<Move>) {
    forall k :: 0 <= k < |ms| ==> !ms[k].Join?
  }

  /** A play without new acquires has at most Measure moves, whatever release does. */
  lemma {:induction false} PlayIsBounded(cfg: Config, s: State, ms: seq<Move>)
    requires Calm(cfg, s) && IsPlay(cfg, s, ms) && NoJoin(ms)
    ensures |ms| <= Measure(cfg, s)
    decreases |ms|
  {
    if ms != [] {
      ResultCalm(cfg, s, ms[0]);
      MeasureFalls(cfg, s, ms[0]);
      PlayIsBounded(cfg, Result(cfg, s, ms[0]), ms[1..]);
    }
  }

  /** Acquires that have not returned yet. */
  ghost function Pending(s: State): set<Thread> {
    set t | t in s.threads && !s.threads[t].Critical? && !s.threads[t].Flushed?
  }

  lemma StillPending(cfg: Config, s: State, m: Move, t: Thread)
    requires InRange(cfg, s) && Serving(cfg, s, m)
    ensures t in Pending(Result(cfg, s, m)) <==> t in Pending(s) && m != Proceed(t)
  {
  }

  lemma StepPending(cfg: Config, s: State, m: Move)
    requires InRange(cfg, s) && Serving(cfg, s, m)
    ensures Pending(Result(cfg, s, m)) == if m.Proceed? then Pending(s) - {m.t} else Pending(s)
    ensures m.Proceed? ==> m.t in Pending(s)
    ensures |Result(cfg, s, m).entries| == |s.entries| + if m.Proceed? then 1 else 0
  {
    var s' := Result(cfg, s, m);
    forall t ensures t in Pending(s') <==> t in Pending(s) && m != Proceed(t) {
      StillPending(cfg, s, m, t);
    }
  }

  /** Acquires turn into entries one for one, and none is lost. */
  lemma {:induction false} PlayPending(cfg: Config, s: State, ms: seq<Move>)
    requires Calm(cfg, s) && IsPlay(cfg, s, ms) && NoJoin(ms)
    ensures |Play(cfg, s, ms).entries| + |Pending(Play(cfg, s, ms))| == |s.entries| + |Pending(s)|
    ensures forall t :: t in Pending(s) && Proceed(t) !in ms ==> t in Pending(Play(cfg, s, ms))
    decreases |ms|
  {
    if ms != [] {
      ResultCalm(cfg, s, ms[0]);
      StepPending(cfg, s, ms[0]);
      PlayPending(cfg, Result(cfg, s, ms[0]), ms[1..]);
      assert forall t :: Proceed(t) !in ms ==> Proceed(t) !in ms[1..] && ms[0] != Proceed(t);
    }
  }

  /**
   With a release that lowers the flag: from every reachable state, a play
   without new acquires is finite, and if it cannot go on then everyone has
   been served, each pending acquire exactly once, and nothing is left over.
   */
  lemma EveryoneServed(cfg: Config, pre: seq<Move>, ms: seq<Move>)
    requires WellFormed(cfg) && cfg.clears && IsPlay(cfg, Initial(cfg), pre)
    requires IsPlay(cfg, Play(cfg, Initial(cfg), pre), ms) && NoJoin(ms)
    ensures var s, s' := Play(cfg, Initial(cfg), pre), Play(cfg, Play(cfg, Initial(cfg), pre), ms);
      && Calm(cfg, s) && |ms| <= Measure(cfg, s)
      && Calm(cfg, s')
      && (Quiet(cfg, s') ==>
            && s'.threads == map[] && s'.calls == map[]
            && |s'.entries| == |s.entries| + |Pending(s)|
            && forall t :: t in Pending(s) ==> Proceed(t) in ms)
  {
    var s := Play(cfg, Initial(cfg), pre);
    InitialCalm(cfg);
    PlayCalm(cfg, Initial(cfg), pre);
    PlayCalm(cfg, s, ms);
    PlayIsBounded(cfg, s, ms);
    PlayPending(cfg, s, ms);
    var s' := Play(cfg, s, ms);
    if Quiet(cfg, s') {
      if s'.threads != map[] {
        NotStuck(cfg, s');
      }
      NobodyNoCalls(cfg, s');
    }
  }

  lemma NobodyNoCalls(cfg: Config, s: State)
    requires Calm(cfg, s) && s.threads == map[]
    ensures s.calls == map[] && Pending(s) == {}
  {
    assert forall c :: c in s.calls ==> CallMatch(cfg, s, c);
  }
}
