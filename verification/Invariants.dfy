/**
 What every action of the protocol keeps, for both kinds of release.
 */
module Invariants {
  import opened Protocol

  /** The thread holds the local mutex. */
  ghost predicate Inside(p: Phase) { !p.Blocked? }

  /** The thread has chosen its sequence number and has not released. */
  ghost predicate Claiming(p: Phase) {
    p.ClockRead? || p.Asking? || p.Waiting? || p.Critical?
  }

  ghost function Claim(cfg: Config, s: State, t: Thread): Stamp
    requires InRange(cfg, s) && t in s.threads
  {
    match s.threads[t]
    case ClockRead(clock) => Stamp(clock + 1, cfg.macs[t.node])
    case _ => StampOf(cfg, s, t.node)
  }

  /** How many entries of its `nodes` array have answered the thread's request. */
  ghost function Replies(cfg: Config, p: Phase, n: nat): nat
    requires n < |cfg.peers|
  {
    match p
    case Asking(k) => k
    case Waiting(k, _) => k
    case Critical => |cfg.peers[n]|
    case _ => 0
  }

  /** At most one thread of a node is past the local mutex, and then the mutex is taken. */
  ghost predicate LocalExclusion(cfg: Config, s: State)
    requires InRange(cfg, s)
  {
    && (forall t :: t in s.threads && Inside(s.threads[t]) ==> s.nodes[t.node].locked)
    && (forall t, u ::
          (t in s.threads && u in s.threads && t.node == u.node &&
           Inside(s.threads[t]) && Inside(s.threads[u])) ==> t == u)
  }

  /** A waiting thread owns the call it waits for, addressed to the next peer of its list. */
  ghost predicate ThreadMatch(cfg: Config, s: State, t: Thread)
    requires InRange(cfg, s) && t in s.threads
  {
    var p := s.threads[t];
    && (p.Asking? ==> p.asked <= |cfg.peers[t.node]|)
    && (p.Waiting? ==>
          && p.asked < |cfg.peers[t.node]|
          && p.call in s.calls
          && s.calls[p.call].src == t
          && s.calls[p.call].dst == cfg.peers[t.node][p.asked])
  }

  /** An outstanding call belongs to a thread that waits for it and carries that node's stamp. */
  ghost predicate CallMatch(cfg: Config, s: State, c: CallId)
    requires InRange(cfg, s) && c in s.calls
  {
    var call := s.calls[c];
    && call.src in s.threads
    && s.threads[call.src].Waiting?
    && s.threads[call.src].call == c
    && call.stamp == StampOf(cfg, s, call.src.node)
  }

  /** Waiting threads and outstanding calls correspond one to one. */
  ghost predicate CallsMatch(cfg: Config, s: State)
    requires InRange(cfg, s)
  {
    && (forall t {:trigger ThreadMatch(cfg, s, t)} :: t in s.threads ==> ThreadMatch(cfg, s, t))
    && (forall c {:trigger CallMatch(cfg, s, c)} :: c in s.calls ==> CallMatch(cfg, s, c))
  }

  /** The k-th deferred request of node n is a parked call to n, listed once. */
  ghost predicate DeferredMatch(s: State, n: nat, k: nat)
    requires n < |s.nodes| && k < |s.nodes[n].deferred|
  {
    var c := s.nodes[n].deferred[k];
    && c in s.calls
    && s.calls[c].dst == n
    && s.calls[c].stage == Parked
    && forall l :: 0 <= l < k ==> s.nodes[n].deferred[l] != c
  }

  /** A call is parked exactly when its destination's deferred list names it, and then once. */
  ghost predicate ParkedListed(cfg: Config, s: State)
    requires InRange(cfg, s)
  {
    && (forall c :: c in s.calls && s.calls[c].stage == Parked ==> c in s.nodes[s.calls[c].dst].deferred)
    && (forall n, k {:trigger DeferredMatch(s, n, k)} ::
          0 <= n < |s.nodes| && 0 <= k < |s.nodes[n].deferred| ==> DeferredMatch(s, n, k))
  }

  ghost predicate NodeClock(v: LockRec) {
    0 <= v.highest && 0 <= v.myseqno <= v.highest + 1
  }

  ghost predicate ThreadClock(v: LockRec, p: Phase) {
    && (p.ClockRead? ==> v.myseqno <= p.clock + 1 <= v.highest + 1)
    && (Claiming(p) || p.Flagged? ==> v.requesting)
  }

  /** The clocks bound the sequence numbers; a claiming node shows its flag. */
  ghost predicate ClockOrder(cfg: Config, s: State)
    requires InRange(cfg, s)
  {
    && (forall n :: 0 <= n < |s.nodes| ==> NodeClock(s.nodes[n]))
    && (forall t :: t in s.threads ==> ThreadClock(s.nodes[t.node], s.threads[t]))
  }

  /** Node i stands behind a request: its clock has seen it, and whatever i itself claims comes later. */
  ghost predicate Granted(cfg: Config, s: State, i: nat, x: Stamp)
    requires InRange(cfg, s) && i < |s.nodes|
  {
    && x.seqno <= s.nodes[i].highest
    && forall t :: t in s.threads && t.node == i && Claiming(s.threads[t]) ==> Before(x, Claim(cfg, s, t))
  }

  /** What the stage of a handler has established about its node. */
  ghost predicate StageFact(cfg: Config, s: State, c: CallId)
    requires InRange(cfg, s) && c in s.calls
  {
    var call := s.calls[c];
    && (call.stage != InFlight ==> call.stamp.seqno <= s.nodes[call.dst].highest)
    && (call.stage == NotGreater ==> call.stamp.seqno <= s.nodes[call.dst].myseqno)
    && (call.stage == MustDefer || call.stage == Parked ==> call.dst != call.src.node)
    && (call.stage == Answered && call.dst != call.src.node ==> Granted(cfg, s, call.dst, call.stamp))
  }

  ghost predicate StageFacts(cfg: Config, s: State)
    requires InRange(cfg, s)
  {
    forall c {:trigger StageFact(cfg, s, c)} :: c in s.calls ==> StageFact(cfg, s, c)
  }

  /** The answer of the k-th peer, if the thread has consumed it, is still a grant. */
  ghost predicate GrantHeld(cfg: Config, s: State, t: Thread, k: nat)
    requires InRange(cfg, s) && t in s.threads && k < |cfg.peers[t.node]|
  {
    k < Replies(cfg, s.threads[t], t.node) && cfg.peers[t.node][k] != t.node ==>
      Granted(cfg, s, cfg.peers[t.node][k], StampOf(cfg, s, t.node))
  }

  ghost predicate GrantsHeld(cfg: Config, s: State)
    requires InRange(cfg, s)
  {
    forall t, k {:trigger GrantHeld(cfg, s, t, k)} ::
      t in s.threads && 0 <= k < |cfg.peers[t.node]| ==> GrantHeld(cfg, s, t, k)
  }

  /** What holds in every system, whatever its addresses and node lists. */
  ghost predicate Base(cfg: Config, s: State) {
    && InRange(cfg, s)
    && LocalExclusion(cfg, s)
    && CallsMatch(cfg, s)
    && ParkedListed(cfg, s)
    && ClockOrder(cfg, s)
  }

  /** What distinct addresses add: an answer is a grant. */
  ghost predicate Inv(cfg: Config, s: State) {
    && Base(cfg, s)
    && DistinctMacs(cfg)
    && StageFacts(cfg, s)
    && GrantsHeld(cfg, s)
  }

  lemma InitialBase(cfg: Config)
    requires WellFormed(cfg)
    ensures Base(cfg, Initial(cfg))
  {
  }

  lemma InitialInv(cfg: Config)
    requires WellFormed(cfg) && DistinctMacs(cfg)
    ensures Inv(cfg, Initial(cfg))
  {
  }

  lemma KeepLocked(cfg: Config, s: State, a: Action, t: Thread)
    requires InRange(cfg, s) && Enabled(cfg, s, a)
    requires LocalExclusion(cfg, s)
    requires t in Step(cfg, s, a).threads && Inside(Step(cfg, s, a).threads[t])
    ensures Step(cfg, s, a).nodes[t.node].locked
  {
  }

  lemma KeepAlone(cfg: Config, s: State, a: Action, t: Thread, u: Thread)
    requires InRange(cfg, s) && Enabled(cfg, s, a)
    requires LocalExclusion(cfg, s)
    requires t in Step(cfg, s, a).threads && Inside(Step(cfg, s, a).threads[t])
    requires u in Step(cfg, s, a).threads && Inside(Step(cfg, s, a).threads[u])
    requires t.node == u.node
    ensures t == u
  {
  }

  lemma KeepLocalExclusion(cfg: Config, s: State, a: Action)
    requires InRange(cfg, s) && Enabled(cfg, s, a)
    requires LocalExclusion(cfg, s)
    ensures LocalExclusion(cfg, Step(cfg, s, a))
  {
    var s' := Step(cfg, s, a);
    forall t | t in s'.threads && Inside(s'.threads[t]) ensures s'.nodes[t.node].locked {
      KeepLocked(cfg, s, a, t);
    }
    forall t, u | t in s'.threads && u in s'.threads && t.node == u.node &&
                  Inside(s'.threads[t]) && Inside(s'.threads[u])
      ensures t == u
    {
      KeepAlone(cfg, s, a, t, u);
    }
  }

  /** A node's stamp changes only when its own thread writes a new sequence number. */
  lemma KeepStampWhileInside(cfg: Config, s: State, a: Action, t: Thread)
    requires InRange(cfg, s) && Enabled(cfg, s, a)
    requires LocalExclusion(cfg, s)
    requires t in s.threads && Inside(s.threads[t]) && !s.threads[t].ClockRead?
    ensures StampOf(cfg, Step(cfg, s, a), t.node) == StampOf(cfg, s, t.node)
  {
  }

  lemma KeepThreadMatch(cfg: Config, s: State, a: Action, t: Thread)
    requires InRange(cfg, s) && Enabled(cfg, s, a)
    requires CallsMatch(cfg, s)
    requires t in Step(cfg, s, a).threads
    ensures ThreadMatch(cfg, Step(cfg, s, a), t)
  {
    if t in s.threads {
      assert ThreadMatch(cfg, s, t);
    }
    if a.Receive? {
      assert ThreadMatch(cfg, s, a.t);
    }
  }

  lemma KeepCallMatch(cfg: Config, s: State, a: Action, c: CallId)
    requires InRange(cfg, s) && Enabled(cfg, s, a)
    requires LocalExclusion(cfg, s) && CallsMatch(cfg, s)
    requires c in Step(cfg, s, a).calls
    ensures CallMatch(cfg, Step(cfg, s, a), c)
  {
    if c in s.calls {
      assert CallMatch(cfg, s, c);
      assert ThreadMatch(cfg, s, s.calls[c].src);
      KeepStampWhileInside(cfg, s, a, s.calls[c].src);
    }
  }

  lemma KeepCallsMatch(cfg: Config, s: State, a: Action)
    requires InRange(cfg, s) && Enabled(cfg, s, a)
    requires LocalExclusion(cfg, s) && CallsMatch(cfg, s)
    ensures CallsMatch(cfg, Step(cfg, s, a))
  {
    var s' := Step(cfg, s, a);
    forall t | t in s'.threads ensures ThreadMatch(cfg, s', t) {
      KeepThreadMatch(cfg, s, a, t);
    }
    forall c | c in s'.calls ensures CallMatch(cfg, s', c) {
      KeepCallMatch(cfg, s, a, c);
    }
  }

  lemma KeepDeferredMatch(cfg: Config, s: State, a: Action, n: nat, k: nat)
    requires InRange(cfg, s) && Enabled(cfg, s, a)
    requires CallsMatch(cfg, s) && ParkedListed(cfg, s)
    requires n < |s.nodes| && k < |Step(cfg, s, a).nodes[n].deferred|
    ensures DeferredMatch(Step(cfg, s, a), n, k)
  {
    if k < |s.nodes[n].deferred| {
      assert DeferredMatch(s, n, k);
    } else {
      forall l | 0 <= l < k ensures s.nodes[n].deferred[l] != a.c {
        assert DeferredMatch(s, n, l);
      }
    }
    if a.Flush? && n != a.t.node {
      var c := s.nodes[n].deferred[k];
      forall l | 0 <= l < |s.nodes[a.t.node].deferred| ensures s.nodes[a.t.node].deferred[l] != c {
        assert DeferredMatch(s, a.t.node, l);
      }
    }
  }

  lemma KeepParkedListed(cfg: Config, s: State, a: Action)
    requires InRange(cfg, s) && Enabled(cfg, s, a)
    requires CallsMatch(cfg, s) && ParkedListed(cfg, s)
    ensures ParkedListed(cfg, Step(cfg, s, a))
  {
    var s' := Step(cfg, s, a);
    forall n, k | 0 <= n < |s'.nodes| && 0 <= k < |s'.nodes[n].deferred| ensures DeferredMatch(s', n, k) {
      KeepDeferredMatch(cfg, s, a, n, k);
    }
    forall c | c in s'.calls && s'.calls[c].stage == Parked ensures c in s'.nodes[s'.calls[c].dst].deferred {
      if a.Park? && c == a.c {
        var d := s'.nodes[s'.calls[c].dst].deferred;
        assert d[|d| - 1] == c;
      }
    }
  }

  lemma KeepNodeClock(cfg: Config, s: State, a: Action, n: nat)
    requires InRange(cfg, s) && Enabled(cfg, s, a) && n < |s.nodes|
    requires NodeClock(s.nodes[n])
    requires a.WriteSeqno? ==> ThreadClock(s.nodes[a.t.node], s.threads[a.t])
    ensures NodeClock(Step(cfg, s, a).nodes[n])
  {
  }

  lemma KeepThreadClock(cfg: Config, s: State, a: Action, t: Thread)
    requires InRange(cfg, s) && Enabled(cfg, s, a)
    requires LocalExclusion(cfg, s)
    requires t in Step(cfg, s, a).threads
    requires t in s.threads ==> NodeClock(s.nodes[t.node]) && ThreadClock(s.nodes[t.node], s.threads[t])
    ensures ThreadClock(Step(cfg, s, a).nodes[t.node], Step(cfg, s, a).threads[t])
  {
  }

  lemma KeepClockOrder(cfg: Config, s: State, a: Action)
    requires InRange(cfg, s) && Enabled(cfg, s, a)
    requires LocalExclusion(cfg, s) && ClockOrder(cfg, s)
    ensures ClockOrder(cfg, Step(cfg, s, a))
  {
    var s' := Step(cfg, s, a);
    forall n | 0 <= n < |s'.nodes| ensures NodeClock(s'.nodes[n]) {
      KeepNodeClock(cfg, s, a, n);
    }
    forall t | t in s'.threads ensures ThreadClock(s'.nodes[t.node], s'.threads[t]) {
      KeepThreadClock(cfg, s, a, t);
    }
  }

  /** Sequence numbers and clocks never go back. */
  lemma KeepSeqnos(cfg: Config, s: State, a: Action, n: nat)
    requires InRange(cfg, s) && Enabled(cfg, s, a)
    requires LocalExclusion(cfg, s) && ClockOrder(cfg, s)
    requires n < |s.nodes|
    ensures s.nodes[n].myseqno <= Step(cfg, s, a).nodes[n].myseqno
    ensures s.nodes[n].highest <= Step(cfg, s, a).nodes[n].highest
  {
  }

  /** While a thread claims, its claim does not change. */
  lemma KeepClaim(cfg: Config, s: State, a: Action, u: Thread)
    requires InRange(cfg, s) && LocalExclusion(cfg, s) && Enabled(cfg, s, a) && InRange(cfg, Step(cfg, s, a))
    requires u in s.threads && Claiming(s.threads[u])
    requires u in Step(cfg, s, a).threads && Claiming(Step(cfg, s, a).threads[u])
    ensures Claim(cfg, s, u) == Claim(cfg, Step(cfg, s, a), u)
  {
    if !s.threads[u].ClockRead? {
      KeepStampWhileInside(cfg, s, a, u);
    } else if a != WriteSeqno(u) {
      assert Step(cfg, s, a).threads[u] == s.threads[u];
    }
  }

  /** A claim is new only when its thread has just read the clock. */
  lemma NewClaim(cfg: Config, s: State, a: Action, t: Thread)
    requires InRange(cfg, s) && Enabled(cfg, s, a)
    requires t in Step(cfg, s, a).threads && Claiming(Step(cfg, s, a).threads[t])
    ensures (t in s.threads && Claiming(s.threads[t])) || a == ReadClock(t)
  {
  }

  /** A claim made or kept by an action at a node that stands behind x still comes after x. */
  lemma KeepLaterClaim(cfg: Config, s: State, a: Action, t: Thread, x: Stamp)
    requires InRange(cfg, s) && Enabled(cfg, s, a) && LocalExclusion(cfg, s) && InRange(cfg, Step(cfg, s, a))
    requires t.node < |s.nodes| && x.seqno <= s.nodes[t.node].highest
    requires t in s.threads && Claiming(s.threads[t]) ==> Before(x, Claim(cfg, s, t))
    requires t in Step(cfg, s, a).threads && Claiming(Step(cfg, s, a).threads[t])
    ensures Before(x, Claim(cfg, Step(cfg, s, a), t))
  {
    NewClaim(cfg, s, a, t);
    if a != ReadClock(t) {
      KeepClaim(cfg, s, a, t);
    }
  }

  /** The heart of the argument: once given, a grant outlives every action of every node. */
  lemma KeepGranted(cfg: Config, s: State, a: Action, i: nat, x: Stamp)
    requires InRange(cfg, s) && Enabled(cfg, s, a)
    requires LocalExclusion(cfg, s)
    requires i < |s.nodes| && Granted(cfg, s, i, x)
    ensures Granted(cfg, Step(cfg, s, a), i, x)
  {
    var s' := Step(cfg, s, a);
    StepInRange(cfg, s, a);
    forall t | t in s'.threads && t.node == i && Claiming(s'.threads[t]) ensures Before(x, Claim(cfg, s', t)) {
      KeepLaterClaim(cfg, s, a, t, x);
    }
  }

  /** A handler answers only when its node is not claiming or claims later. */
  lemma AnswerGrants(cfg: Config, s: State, a: Action, c: CallId)
    requires Inv(cfg, s) && Enabled(cfg, s, a)
    requires (a.TestFlag? || a.TestTie?) && a.c == c
    requires Step(cfg, s, a).calls[c].stage == Answered
    requires s.calls[c].dst != s.calls[c].src.node
    ensures Granted(cfg, s, s.calls[c].dst, s.calls[c].stamp)
  {
    assert StageFact(cfg, s, c);
    assert CallMatch(cfg, s, c);
  }

  /** Release stops claiming, so it may wake everyone it parked. */
  lemma FlushGrants(cfg: Config, s: State, a: Action, c: CallId)
    requires Inv(cfg, s) && Enabled(cfg, s, a)
    requires a.Flush? && c in s.nodes[a.t.node].deferred
    ensures c in s.calls && s.calls[c].dst == a.t.node && s.calls[c].stage == Parked
    ensures Granted(cfg, Step(cfg, s, a), s.calls[c].dst, s.calls[c].stamp)
  {
    var k :| 0 <= k < |s.nodes[a.t.node].deferred| && s.nodes[a.t.node].deferred[k] == c;
    assert DeferredMatch(s, a.t.node, k);
    assert StageFact(cfg, s, c);
  }

  /** The facts of a stage other than the grant of an answer. */
  lemma KeepStageBounds(cfg: Config, s: State, a: Action, c: CallId)
    requires InRange(cfg, s) && Enabled(cfg, s, a) && c in s.calls && c in Step(cfg, s, a).calls
    requires StageFact(cfg, s, c) && CallMatch(cfg, s, c)
    requires a.Flush? && c in s.nodes[a.t.node].deferred ==> s.calls[c].stage == Parked
    requires s.nodes[s.calls[c].dst].myseqno <= Step(cfg, s, a).nodes[s.calls[c].dst].myseqno
    requires s.nodes[s.calls[c].dst].highest <= Step(cfg, s, a).nodes[s.calls[c].dst].highest
    ensures var s', call := Step(cfg, s, a), Step(cfg, s, a).calls[c];
      && call.dst == s.calls[c].dst && call.src == s.calls[c].src && call.stamp == s.calls[c].stamp
      && (call.stage != InFlight ==> call.stamp.seqno <= s'.nodes[call.dst].highest)
      && (call.stage == NotGreater ==> call.stamp.seqno <= s'.nodes[call.dst].myseqno)
      && (call.stage == MustDefer || call.stage == Parked ==> call.dst != call.src.node)
  {
  }

  /** An answer comes from a test, from a release, or was there before. */
  lemma WhereAnswersComeFrom(cfg: Config, s: State, a: Action, c: CallId)
    requires InRange(cfg, s) && Enabled(cfg, s, a) && c in s.calls && c in Step(cfg, s, a).calls
    requires Step(cfg, s, a).calls[c].stage == Answered
    ensures s.calls[c].stage == Answered
            || ((a.TestFlag? || a.TestTie?) && a.c == c)
            || (a.Flush? && c in s.nodes[a.t.node].deferred)
  {
  }

  lemma KeepStageFact(cfg: Config, s: State, a: Action, c: CallId)
    requires Inv(cfg, s) && Enabled(cfg, s, a) && InRange(cfg, Step(cfg, s, a))
    requires c in Step(cfg, s, a).calls
    ensures StageFact(cfg, Step(cfg, s, a), c)
  {
    if c in s.calls {
      assert StageFact(cfg, s, c) && CallMatch(cfg, s, c);
      var call := s.calls[c];
      KeepSeqnos(cfg, s, a, call.dst);
      if a.Flush? && c in s.nodes[a.t.node].deferred {
        FlushGrants(cfg, s, a, c);
      }
      KeepStageBounds(cfg, s, a, c);
      if Step(cfg, s, a).calls[c].stage == Answered && call.dst != call.src.node {
        WhereAnswersComeFrom(cfg, s, a, c);
        NewAnswer(cfg, s, a, c);
      }
    }
  }

  lemma NewAnswer(cfg: Config, s: State, a: Action, c: CallId)
    requires Inv(cfg, s) && Enabled(cfg, s, a) && c in s.calls && InRange(cfg, Step(cfg, s, a))
    requires s.calls[c].dst != s.calls[c].src.node
    requires c in Step(cfg, s, a).calls && Step(cfg, s, a).calls[c].stage == Answered
    requires s.calls[c].stage == Answered
             || ((a.TestFlag? || a.TestTie?) && a.c == c)
             || (a.Flush? && c in s.nodes[a.t.node].deferred)
    ensures Granted(cfg, Step(cfg, s, a), s.calls[c].dst, s.calls[c].stamp)
  {
    var call := s.calls[c];
    if a.Flush? && c in s.nodes[a.t.node].deferred {
      FlushGrants(cfg, s, a, c);
    } else {
      if call.stage == Answered {
        assert StageFact(cfg, s, c);
      } else {
        AnswerGrants(cfg, s, a, c);
      }
      KeepGranted(cfg, s, a, call.dst, call.stamp);
    }
  }

  lemma KeepGrantHeld(cfg: Config, s: State, a: Action, t: Thread, k: nat)
    requires Inv(cfg, s) && Enabled(cfg, s, a)
    requires t in Step(cfg, s, a).threads && k < |cfg.peers[t.node]|
    ensures GrantHeld(cfg, Step(cfg, s, a), t, k)
  {
    if t in s.threads && k < Replies(cfg, Step(cfg, s, a).threads[t], t.node) && cfg.peers[t.node][k] != t.node {
      assert GrantHeld(cfg, s, t, k);
      assert ThreadMatch(cfg, s, t);
      var i, x := cfg.peers[t.node][k], StampOf(cfg, s, t.node);
      if a == Receive(t) && k == s.threads[t].asked {
        assert StageFact(cfg, s, s.threads[t].call);
        assert CallMatch(cfg, s, s.threads[t].call);
      }
      KeepStampWhileInside(cfg, s, a, t);
      KeepGranted(cfg, s, a, i, x);
    }
  }

  lemma KeepStageFacts(cfg: Config, s: State, a: Action)
    requires Inv(cfg, s) && Enabled(cfg, s, a)
    ensures StageFacts(cfg, Step(cfg, s, a))
  {
    var s' := Step(cfg, s, a);
    StepInRange(cfg, s, a);
    forall c | c in s'.calls ensures StageFact(cfg, s', c) {
      KeepStageFact(cfg, s, a, c);
    }
  }

  lemma KeepGrantsHeld(cfg: Config, s: State, a: Action)
    requires Inv(cfg, s) && Enabled(cfg, s, a)
    ensures GrantsHeld(cfg, Step(cfg, s, a))
  {
    var s' := Step(cfg, s, a);
    forall t, k: nat | t in s'.threads && k < |cfg.peers[t.node]| ensures GrantHeld(cfg, s', t, k) {
      KeepGrantHeld(cfg, s, a, t, k);
    }
  }

  lemma StepBase(cfg: Config, s: State, a: Action)
    requires Base(cfg, s) && Enabled(cfg, s, a)
    ensures Base(cfg, Step(cfg, s, a))
  {
    StepInRange(cfg, s, a);
    KeepLocalExclusion(cfg, s, a);
    KeepCallsMatch(cfg, s, a);
    KeepParkedListed(cfg, s, a);
    KeepClockOrder(cfg, s, a);
  }

  lemma {:induction false} RunBase(cfg: Config, s: State, acts: seq<Action>)
    requires Base(cfg, s) && IsRun(cfg, s, acts)
    ensures Base(cfg, Exec(cfg, s, acts))
    decreases |acts|
  {
    if acts != [] {
      StepBase(cfg, s, acts[0]);
      RunBase(cfg, Step(cfg, s, acts[0]), acts[1..]);
    }
  }

  /** Every action keeps the whole invariant. */
  lemma StepInv(cfg: Config, s: State, a: Action)
    requires Inv(cfg, s) && Enabled(cfg, s, a)
    ensures Inv(cfg, Step(cfg, s, a))
  {
    StepBase(cfg, s, a);
    KeepStageFacts(cfg, s, a);
    KeepGrantsHeld(cfg, s, a);
  }

  /** The invariant holds along every run. */
  lemma {:induction false} RunInv(cfg: Config, s: State, acts: seq<Action>)
    requires Inv(cfg, s) && IsRun(cfg, s, acts)
    ensures Inv(cfg, Exec(cfg, s, acts))
    decreases |acts|
  {
    if acts != [] {
      StepInv(cfg, s, acts[0]);
      RunInv(cfg, Step(cfg, s, acts[0]), acts[1..]);
    }
  }
}
