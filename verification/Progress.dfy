/**
 Progress, at the granularity of handlers: no wait cycles, the least
 outstanding request is never parked, every play without new acquires is
 finite, and it ends with every request served. All of it needs release to
 lower the request flag.
 */
module Progress {
  import opened Protocol
  import opened Invariants
  import opened Moves

  /** No handler and no acquire is halfway through a burst. */
  ghost predicate Settled(s: State) {
    && (forall t :: t in s.threads ==> !s.threads[t].Flagged? && !s.threads[t].ClockRead?)
    && (forall c :: c in s.calls ==> s.calls[c].stage in {InFlight, Parked, Answered})
  }

  ghost predicate Owns(s: State, n: nat, t: Thread) {
    t in s.threads && t.node == n && Inside(s.threads[t])
  }

  ghost predicate Claims(s: State, n: nat, t: Thread) {
    t in s.threads && t.node == n && Claiming(s.threads[t])
  }

  ghost predicate MutexOwned(s: State, n: nat)
    requires n < |s.nodes|
  {
    s.nodes[n].locked ==> exists t :: Owns(s, n, t)
  }

  ghost predicate FlagOwned(s: State, n: nat)
    requires n < |s.nodes|
  {
    s.nodes[n].requesting ==> exists t :: Claims(s, n, t)
  }

  /** A parked request waits for a node that shows its flag and has an earlier stamp. */
  ghost predicate ParkedBehind(cfg: Config, s: State, c: CallId)
    requires InRange(cfg, s) && c in s.calls
  {
    s.calls[c].stage == Parked ==>
      s.nodes[s.calls[c].dst].requesting && Before(StampOf(cfg, s, s.calls[c].dst), s.calls[c].stamp)
  }

  /** What every move keeps; the second half only when release lowers the flag. */
  ghost predicate Calm(cfg: Config, s: State) {
    && Base(cfg, s)
    && Settled(s)
    && (forall n {:trigger MutexOwned(s, n)} :: 0 <= n < |s.nodes| ==> MutexOwned(s, n))
    && (cfg.clears ==> forall n {:trigger FlagOwned(s, n)} :: 0 <= n < |s.nodes| ==> FlagOwned(s, n))
    && (cfg.clears ==> forall c {:trigger ParkedBehind(cfg, s, c)} :: c in s.calls ==> ParkedBehind(cfg, s, c))
  }

  lemma InitialCalm(cfg: Config)
    requires WellFormed(cfg)
    ensures Calm(cfg, Initial(cfg))
  {
    InitialBase(cfg);
  }

  lemma KeepSettledCall(cfg: Config, s: State, m: Move, c: CallId)
    requires InRange(cfg, s) && Allowed(cfg, s, m) && Settled(s) && c in Result(cfg, s, m).calls
    ensures Result(cfg, s, m).calls[c].stage in {InFlight, Parked, Answered}
  {
  }

  lemma KeepSettledThread(cfg: Config, s: State, m: Move, t: Thread)
    requires InRange(cfg, s) && Allowed(cfg, s, m) && Settled(s) && t in Result(cfg, s, m).threads
    ensures !Result(cfg, s, m).threads[t].Flagged? && !Result(cfg, s, m).threads[t].ClockRead?
  {
  }

  lemma KeepSettled(cfg: Config, s: State, m: Move)
    requires InRange(cfg, s) && Allowed(cfg, s, m) && Settled(s)
    ensures Settled(Result(cfg, s, m))
  {
    var s' := Result(cfg, s, m);
    forall c | c in s'.calls ensures s'.calls[c].stage in {InFlight, Parked, Answered} {
      KeepSettledCall(cfg, s, m, c);
    }
    forall t | t in s'.threads ensures !s'.threads[t].Flagged? && !s'.threads[t].ClockRead? {
      KeepSettledThread(cfg, s, m, t);
    }
  }

  lemma OwnerKept(cfg: Config, s: State, m: Move, n: nat, t: Thread)
    requires InRange(cfg, s) && Allowed(cfg, s, m)
    requires Owns(s, n, t) && m != Leave(t)
    ensures Owns(Result(cfg, s, m), n, t)
  {
  }

  lemma KeepMutexOwned(cfg: Config, s: State, m: Move, n: nat)
    requires InRange(cfg, s) && LocalExclusion(cfg, s)
    requires Allowed(cfg, s, m) && n < |s.nodes| && MutexOwned(s, n)
    ensures MutexOwned(Result(cfg, s, m), n)
  {
    if m.Take? && m.t.node == n {
      assert Owns(Result(cfg, s, m), n, m.t);
    } else if t :| Owns(s, n, t) && m != Leave(t) {
      OwnerKept(cfg, s, m, n, t);
    }
  }

  lemma ClaimKept(cfg: Config, s: State, m: Move, n: nat, t: Thread)
    requires InRange(cfg, s) && Allowed(cfg, s, m)
    requires Claims(s, n, t) && m != Release(t)
    ensures Claims(Result(cfg, s, m), n, t)
  {
  }

  lemma KeepFlagOwned(cfg: Config, s: State, m: Move, n: nat)
    requires InRange(cfg, s) && LocalExclusion(cfg, s)
    requires Allowed(cfg, s, m) && cfg.clears && n < |s.nodes| && FlagOwned(s, n)
    ensures FlagOwned(Result(cfg, s, m), n)
  {
    if m.Begin? && m.t.node == n {
      assert Claims(Result(cfg, s, m), n, m.t);
    } else if t :| Claims(s, n, t) && m != Release(t) {
      ClaimKept(cfg, s, m, n, t);
    }
  }

  /** Nobody is parked at a node whose thread is only about to choose its number. */
  lemma NoneParkedAtBegin(cfg: Config, s: State, t: Thread, c: CallId)
    requires Calm(cfg, s) && cfg.clears && At(s, t, Locked)
    requires c in s.calls && s.calls[c].dst == t.node
    ensures s.calls[c].stage != Parked
  {
    assert ParkedBehind(cfg, s, c) && FlagOwned(s, t.node);
    assert forall u :: !Claims(s, t.node, u);
  }

  lemma KeepParkedBehind(cfg: Config, s: State, m: Move, c: CallId)
    requires InRange(cfg, s) && ParkedListed(cfg, s) && Allowed(cfg, s, m)
    requires c in Result(cfg, s, m).calls && InRange(cfg, Result(cfg, s, m))
    requires c in s.calls ==> ParkedBehind(cfg, s, c)
    requires c in s.calls && m.Begin? && m.t.node == s.calls[c].dst ==> s.calls[c].stage != Parked
    ensures ParkedBehind(cfg, Result(cfg, s, m), c)
  {
  }

  lemma ResultCalm(cfg: Config, s: State, m: Move)
    requires Calm(cfg, s) && Allowed(cfg, s, m)
    ensures Calm(cfg, Result(cfg, s, m))
  {
    var s' := Result(cfg, s, m);
    ResultBase(cfg, s, m);
    KeepSettled(cfg, s, m);
    forall n | 0 <= n < |s'.nodes| ensures MutexOwned(s', n) {
      assert MutexOwned(s, n);
      KeepMutexOwned(cfg, s, m, n);
    }
    if cfg.clears {
      forall n | 0 <= n < |s'.nodes| ensures FlagOwned(s', n) {
        assert FlagOwned(s, n);
        KeepFlagOwned(cfg, s, m, n);
      }
      forall c | c in s'.calls ensures ParkedBehind(cfg, s', c) {
        assert c in s.calls ==> ParkedBehind(cfg, s, c);
        if c in s.calls && m.Begin? && m.t.node == s.calls[c].dst {
          NoneParkedAtBegin(cfg, s, m.t, c);
        }
        KeepParkedBehind(cfg, s, m, c);
      }
    }
  }

  lemma {:induction false} PlayCalm(cfg: Config, s: State, ms: seq<Move>)
    requires Calm(cfg, s) && IsPlay(cfg, s, ms)
    ensures Calm(cfg, Play(cfg, s, ms))
    decreases |ms|
  {
    if ms != [] {
      ResultCalm(cfg, s, ms[0]);
      PlayCalm(cfg, Result(cfg, s, ms[0]), ms[1..]);
    }
  }

  // ----- no wait cycles

  /** A request of node m is parked at node n. */
  ghost predicate WaitsOn(s: State, m: nat, n: nat) {
    exists c :: c in s.calls && s.calls[c].stage == Parked && s.calls[c].src.node == m && s.calls[c].dst == n
  }

  lemma WaitsOnEarlier(cfg: Config, s: State, m: nat, n: nat)
    requires Calm(cfg, s) && cfg.clears && WaitsOn(s, m, n)
    ensures m < |s.nodes| && n < |s.nodes| && Before(StampOf(cfg, s, n), StampOf(cfg, s, m))
  {
    var c :| c in s.calls && s.calls[c].stage == Parked && s.calls[c].src.node == m && s.calls[c].dst == n;
    assert ParkedBehind(cfg, s, c) && CallMatch(cfg, s, c);
  }

  ghost predicate WaitPath(s: State, path: seq<nat>) {
    forall k :: 0 <= k < |path| - 1 ==> WaitsOn(s, path[k], path[k + 1])
  }

  lemma {:induction false} WaitPathEarlier(cfg: Config, s: State, path: seq<nat>)
    requires Calm(cfg, s) && cfg.clears && WaitPath(s, path) && |path| >= 2
    ensures path[0] < |s.nodes| && path[|path| - 1] < |s.nodes|
    ensures Before(StampOf(cfg, s, path[|path| - 1]), StampOf(cfg, s, path[0]))
    decreases |path|
  {
    var last := |path| - 1;
    assert WaitsOn(s, path[last - 1], path[last - 1 + 1]);
    WaitsOnEarlier(cfg, s, path[last - 1], path[last]);
    if |path| > 2 {
      var front := path[..last];
      forall k | 0 <= k < |front| - 1 ensures WaitsOn(s, front[k], front[k + 1]) {
        assert WaitsOn(s, path[k], path[k + 1]);
      }
      WaitPathEarlier(cfg, s, front);
    }
  }

  /** No reachable state has a cycle of nodes waiting for each other. */
  lemma NoWaitCycle(cfg: Config, ms: seq<Move>, path: seq<nat>)
    requires WellFormed(cfg) && cfg.clears && IsPlay(cfg, Initial(cfg), ms)
    requires |path| >= 2 && WaitPath(Play(cfg, Initial(cfg), ms), path)
    ensures path[0] != path[|path| - 1]
  {
    InitialCalm(cfg);
    PlayCalm(cfg, Initial(cfg), ms);
    WaitPathEarlier(cfg, Play(cfg, Initial(cfg), ms), path);
  }

  // ----- someone can always move

  /** A move that serves an acquire already made, rather than making a new one. */
  ghost predicate Serving(cfg: Config, s: State, m: Move)
    requires InRange(cfg, s)
  {
    Allowed(cfg, s, m) && !m.Join?
  }

  ghost predicate Quiet(cfg: Config, s: State)
    requires InRange(cfg, s)
  {
    forall m :: !Serving(cfg, s, m)
  }

  /** The move open to a thread that is past the mutex and not parked. */
  ghost function NextMove(cfg: Config, s: State, t: Thread, unused: CallId): Move
    requires InRange(cfg, s) && t in s.threads
  {
    match s.threads[t]
    case Asking(k) => if k < |cfg.peers[t.node]| then Ask(t, unused) else Proceed(t)
    case Waiting(_, c) => if On(s, c, InFlight) then Handle(c) else Hear(t)
    case Critical => Release(t)
    case Flushed => Leave(t)
    case _ => Begin(t)
  }

  ghost predicate ParkedThread(s: State, t: Thread) {
    t in s.threads && s.threads[t].Waiting? && On(s, s.threads[t].call, Parked)
  }

  lemma {:induction false} FreshCall(calls: set<CallId>) returns (c: CallId)
    ensures c !in calls
    ensures forall d :: d in calls ==> d < c
    decreases |calls|
  {
    if calls == {} {
      c := 0;
    } else {
      var x :| x in calls;
      var c' := FreshCall(calls - {x});
      assert forall d :: d in calls ==> d == x || d in calls - {x};
      c := if x < c' then c' else x + 1;
    }
  }

  /** Whoever is past the mutex and not parked can move. */
  lemma UnparkedMoves(cfg: Config, s: State, t: Thread)
    requires Calm(cfg, s) && t in s.threads && Inside(s.threads[t]) && !ParkedThread(s, t)
    ensures exists m :: Serving(cfg, s, m)
  {
    var unused := FreshCall(s.calls.Keys);
    assert ThreadMatch(cfg, s, t);
    assert Serving(cfg, s, NextMove(cfg, s, t, unused));
  }

  /** Whoever keeps a request parked claims the lock with an earlier stamp. */
  lemma ParkedBehindSomeone(cfg: Config, s: State, t: Thread) returns (u: Thread)
    requires Calm(cfg, s) && cfg.clears && ParkedThread(s, t)
    ensures u in s.threads && Claiming(s.threads[u])
    ensures Before(StampOf(cfg, s, u.node), StampOf(cfg, s, t.node))
  {
    var c := s.threads[t].call;
    assert ThreadMatch(cfg, s, t) && CallMatch(cfg, s, c) && ParkedBehind(cfg, s, c);
    assert FlagOwned(s, s.calls[c].dst);
    u :| Claims(s, s.calls[c].dst, u);
  }

  /** The least outstanding request is the holder's or can be taken further. */
  lemma LeastIsNotParked(cfg: Config, s: State, t: Thread)
    requires Calm(cfg, s) && cfg.clears && t in s.threads && Claiming(s.threads[t])
    requires forall u :: u in s.threads && Claiming(s.threads[u]) ==>
               !Before(StampOf(cfg, s, u.node), StampOf(cfg, s, t.node))
    ensures !ParkedThread(s, t)
    ensures s.threads[t].Critical? || exists m :: Serving(cfg, s, m)
  {
    if ParkedThread(s, t) {
      var u := ParkedBehindSomeone(cfg, s, t);
    }
    UnparkedMoves(cfg, s, t);
  }

  lemma {:induction false} LeastExists(cfg: Config, s: State, ts: set<Thread>) returns (t: Thread)
    requires InRange(cfg, s) && ts != {} && forall u :: u in ts ==> u.node < |s.nodes|
    ensures t in ts
    ensures forall u :: u in ts ==> !Before(StampOf(cfg, s, u.node), StampOf(cfg, s, t.node))
    decreases |ts|
  {
    t :| t in ts;
    if ts != {t} {
      var v := LeastExists(cfg, s, ts - {t});
      if Before(StampOf(cfg, s, v.node), StampOf(cfg, s, t.node)) {
        t := v;
      }
    }
  }

  /** While anyone is served or waiting, some serving move is possible. */
  lemma NotStuck(cfg: Config, s: State)
    requires Calm(cfg, s) && (cfg.clears || forall t :: !ParkedThread(s, t))
    requires s.threads != map[]
    ensures !Quiet(cfg, s)
  {
    var t :| t in s.threads;
    if s.threads[t].Blocked? && !s.nodes[t.node].locked {
      assert Serving(cfg, s, Take(t));
    } else {
      var n := t.node;
      assert MutexOwned(s, n);
      var u := if s.threads[t].Blocked? then var u :| Owns(s, n, u); u else t;
      if ParkedThread(s, u) {
        LeastMoves(cfg, s, u);
      } else {
        UnparkedMoves(cfg, s, u);
      }
    }
  }

  lemma LeastMoves(cfg: Config, s: State, t: Thread)
    requires Calm(cfg, s) && cfg.clears && t in s.threads && Claiming(s.threads[t])
    ensures exists m :: Serving(cfg, s, m)
  {
    var claimers := set u | u in s.threads && Claiming(s.threads[u]);
    assert t in claimers;
    var least := LeastExists(cfg, s, claimers);
    LeastIsNotParked(cfg, s, least);
    UnparkedMoves(cfg, s, least);
  }
}
