/**
 What the request flag that release never lowers costs. A request parked at a
 node that would have granted it is stranded for ever; a lone acquire from
 rest is served exactly when no other node has ever held the lock.
 */
module AsWritten {
  import opened Protocol
  import opened Invariants
  import opened Safety
  import opened Moves
  import opened Progress
  import opened Termination

  // ----- stranded requests

  /** Call c is parked at a node that claims nothing, or claims only later. */
  ghost predicate Stranded(cfg: Config, s: State, c: CallId)
    requires InRange(cfg, s)
  {
    && On(s, c, Parked)
    && s.calls[c].dst != s.calls[c].src.node
    && Granted(cfg, s, s.calls[c].dst, s.calls[c].stamp)
  }

  /** The node that parked a stranded request can never hold the lock again, so it never wakes it. */
  lemma StrandedNotFlushed(cfg: Config, s: State, c: CallId, u: Thread)
    requires Inv(cfg, s) && CompleteMembership(cfg) && Stranded(cfg, s, c)
    requires At(s, u, Critical)
    ensures u.node != s.calls[c].dst
  {
    assert CallMatch(cfg, s, c);
    if u.node == s.calls[c].dst {
      CriticalGranted(cfg, s, u, s.calls[c].src.node);
    }
  }

  lemma KeepStranded(cfg: Config, s: State, a: Action, c: CallId)
    requires Inv(cfg, s) && CompleteMembership(cfg) && Stranded(cfg, s, c)
    requires Enabled(cfg, s, a) && InRange(cfg, Step(cfg, s, a))
    ensures Stranded(cfg, Step(cfg, s, a), c) && Step(cfg, s, a).calls[c] == s.calls[c]
    ensures a != Enter(s.calls[c].src)
  {
    assert CallMatch(cfg, s, c);
    KeepGranted(cfg, s, a, s.calls[c].dst, s.calls[c].stamp);
    if a.Flush? {
      StrandedNotFlushed(cfg, s, c, a.t);
      InvListed(cfg, s, a.t.node, c);
    }
    if a.Receive? {
      assert ThreadMatch(cfg, s, a.t);
    }
  }

  /** In every continuation, whatever anybody does, a stranded request is never served. */
  lemma {:induction false} NeverServed(cfg: Config, s: State, acts: seq<Action>, c: CallId)
    requires Inv(cfg, s) && CompleteMembership(cfg) && Stranded(cfg, s, c) && IsRun(cfg, s, acts)
    ensures Stranded(cfg, Exec(cfg, s, acts), c)
    ensures Enter(s.calls[c].src) !in acts
    decreases |acts|
  {
    if acts != [] {
      StepInv(cfg, s, acts[0]);
      KeepStranded(cfg, s, acts[0], c);
      NeverServed(cfg, Step(cfg, s, acts[0]), acts[1..], c);
    }
  }

  /** With a release that lowers the flag, no play ever strands a request. */
  lemma ClearedNeverStrands(cfg: Config, ms: seq<Move>, c: CallId)
    requires WellFormed(cfg) && cfg.clears && IsPlay(cfg, Initial(cfg), ms)
    ensures Calm(cfg, Play(cfg, Initial(cfg), ms)) && !Stranded(cfg, Play(cfg, Initial(cfg), ms), c)
  {
    InitialCalm(cfg);
    PlayCalm(cfg, Initial(cfg), ms);
    var s := Play(cfg, Initial(cfg), ms);
    if On(s, c, Parked) {
      assert CallMatch(cfg, s, c);
      var u := ParkedBehindSomeone(cfg, s, s.calls[c].src);
      assert ParkedBehind(cfg, s, c) && FlagOwned(s, s.calls[c].dst);
    }
  }

  // ----- what the flags remember

  ghost predicate Held(cfg: Config, s: State, n: nat)
    requires n < |s.nodes| && n < |cfg.macs|
  {
    Entry(n, StampOf(cfg, s, n)) in s.entries
  }

  /** A raised flag belongs to a claim, or to the last time the node held the lock. */
  ghost predicate FlagExplained(cfg: Config, s: State, n: nat)
    requires n < |s.nodes| && n < |cfg.macs|
  {
    s.nodes[n].requesting ==> (exists t :: Claims(s, n, t)) || Held(cfg, s, n)
  }

  ghost predicate Remembered(cfg: Config, s: State)
    requires InRange(cfg, s)
  {
    && (forall t :: t in s.threads && s.threads[t].Critical? ==> Held(cfg, s, t.node))
    && (forall n {:trigger FlagExplained(cfg, s, n)} :: 0 <= n < |s.nodes| ==> FlagExplained(cfg, s, n))
    && (forall e :: e in s.entries && e.node < |s.nodes| ==> s.nodes[e.node].requesting)
  }

  lemma HeldKept(cfg: Config, s: State, m: Move, n: nat)
    requires InRange(cfg, s) && Allowed(cfg, s, m) && n < |s.nodes|
    requires Held(cfg, s, n) && !(m.Begin? && m.t.node == n)
    ensures Held(cfg, Result(cfg, s, m), n)
  {
  }

  lemma KeepFlagExplained(cfg: Config, s: State, m: Move, n: nat)
    requires InRange(cfg, s) && Allowed(cfg, s, m)
    requires LocalExclusion(cfg, s)
    requires forall t :: t in s.threads && s.threads[t].Critical? ==> Held(cfg, s, t.node)
    requires n < |s.nodes| && FlagExplained(cfg, s, n)
    ensures FlagExplained(cfg, Result(cfg, s, m), n)
  {
    if m.Begin? && m.t.node == n {
      assert Claims(Result(cfg, s, m), n, m.t);
    } else if t :| Claims(s, n, t) && m != Release(t) {
      ClaimKept(cfg, s, m, n, t);
    } else if Held(cfg, s, n) || (m.Release? && m.t.node == n) {
      HeldKept(cfg, s, m, n);
    }
  }

  lemma KeepCriticalHeld(cfg: Config, s: State, m: Move, t: Thread)
    requires InRange(cfg, s) && Allowed(cfg, s, m)
    requires LocalExclusion(cfg, s)
    requires At(Result(cfg, s, m), t, Critical)
    requires t in s.threads && s.threads[t].Critical? ==> Held(cfg, s, t.node)
    ensures t.node < |s.nodes| && Held(cfg, Result(cfg, s, m), t.node)
  {
    if m != Proceed(t) {
      HeldKept(cfg, s, m, t.node);
    }
  }

  lemma KeepEntryFlags(cfg: Config, s: State, m: Move, e: Entry)
    requires InRange(cfg, s) && !cfg.clears && Allowed(cfg, s, m) && ClockOrder(cfg, s)
    requires e in Result(cfg, s, m).entries && e.node < |s.nodes|
    requires e in s.entries ==> s.nodes[e.node].requesting
    ensures Result(cfg, s, m).nodes[e.node].requesting
  {
  }

  lemma KeepRemembered(cfg: Config, s: State, m: Move)
    requires Base(cfg, s) && !cfg.clears && Allowed(cfg, s, m) && InRange(cfg, Result(cfg, s, m))
    requires Remembered(cfg, s)
    ensures Remembered(cfg, Result(cfg, s, m))
  {
    var s' := Result(cfg, s, m);
    forall n | 0 <= n < |s'.nodes| ensures FlagExplained(cfg, s', n) {
      assert FlagExplained(cfg, s, n);
      KeepFlagExplained(cfg, s, m, n);
    }
    forall t | t in s'.threads && s'.threads[t].Critical? ensures Held(cfg, s', t.node) {
      KeepCriticalHeld(cfg, s, m, t);
    }
    forall e | e in s'.entries && e.node < |s'.nodes| ensures s'.nodes[e.node].requesting {
      KeepEntryFlags(cfg, s, m, e);
    }
  }

  lemma {:induction false} PlayRemembered(cfg: Config, s: State, ms: seq<Move>)
    requires Base(cfg, s) && !cfg.clears && Remembered(cfg, s) && IsPlay(cfg, s, ms)
    ensures Remembered(cfg, Play(cfg, s, ms))
    decreases |ms|
  {
    if ms != [] {
      ResultBase(cfg, s, ms[0]);
      KeepRemembered(cfg, s, ms[0]);
      PlayRemembered(cfg, Result(cfg, s, ms[0]), ms[1..]);
    }
  }

  ghost predicate AtRest(s: State) { s.threads == map[] }

  ghost predicate EverHeld(s: State, n: nat) {
    exists e :: e in s.entries && e.node == n
  }

  /** Node i's clock has seen node n's current sequence number. */
  ghost predicate Seen(s: State, n: nat, i: nat)
    requires n < |s.nodes| && i < |s.nodes|
  {
    s.nodes[n].myseqno <= s.nodes[i].highest
  }

  lemma RestFlag(cfg: Config, s: State, n: nat)
    requires InRange(cfg, s) && AtRest(s) && Remembered(cfg, s) && OrderInv(cfg, s) && n < |s.nodes|
    ensures s.nodes[n].requesting <==> EverHeld(s, n)
    ensures s.nodes[n].requesting ==> forall i :: 0 <= i < |s.nodes| && i != n ==> Seen(s, n, i)
  {
    if s.nodes[n].requesting {
      assert FlagExplained(cfg, s, n);
      assert forall t :: !Claims(s, n, t);
      var k :| 0 <= k < |s.entries| && s.entries[k] == Entry(n, StampOf(cfg, s, n));
      assert EntryBehind(cfg, s, k);
      forall i | 0 <= i < |s.nodes| && i != n ensures Seen(s, n, i) {
        assert Granted(cfg, s, i, StampOf(cfg, s, n));
      }
    }
  }

  ghost predicate RestedWell(cfg: Config, s: State) {
    && Calm(cfg, s) && AtRest(s) && Remembered(cfg, s) && OrderInv(cfg, s)
  }

  /** At rest a flag is up exactly where the lock has ever been held, and every other clock has seen that. */
  lemma RestFlags(cfg: Config, pre: seq<Move>)
    requires WellFormed(cfg) && DistinctMacs(cfg) && CompleteMembership(cfg) && !cfg.clears
    requires IsPlay(cfg, Initial(cfg), pre) && AtRest(Play(cfg, Initial(cfg), pre))
    ensures RestedWell(cfg, Play(cfg, Initial(cfg), pre))
    ensures var s := Play(cfg, Initial(cfg), pre);
      && (forall n :: 0 <= n < |s.nodes| ==> (s.nodes[n].requesting <==> EverHeld(s, n)))
      && (forall n, i :: 0 <= n < |s.nodes| && 0 <= i < |s.nodes| && i != n && s.nodes[n].requesting ==> Seen(s, n, i))
  {
    var s := Play(cfg, Initial(cfg), pre);
    InitialCalm(cfg);
    PlayCalm(cfg, Initial(cfg), pre);
    PlayRemembered(cfg, Initial(cfg), pre);
    PlayIsRun(cfg, Initial(cfg), pre);
    RunOrder(cfg, Initial(cfg), Flatten(cfg, Initial(cfg), pre));
    forall n | 0 <= n < |s.nodes|
      ensures s.nodes[n].requesting <==> EverHeld(s, n)
      ensures s.nodes[n].requesting ==> forall i :: 0 <= i < |s.nodes| && i != n ==> Seen(s, n, i)
    {
      RestFlag(cfg, s, n);
    }
  }

  // ----- a lone acquire, another flag up

  /** None of the first k peers in t's list is f. */
  ghost predicate NotAmong(cfg: Config, t: Thread, f: nat, k: nat)
    requires t.node < |cfg.peers|
  {
    k <= |cfg.peers[t.node]| && forall j :: 0 <= j < k ==> cfg.peers[t.node][j] != f
  }

  /** Thread t, alone, has not been answered by node f, whose stamp is earlier than any t can get. */
  ghost predicate ShutOut(cfg: Config, s: State, t: Thread, f: nat)
    requires InRange(cfg, s)
  {
    && f < |s.nodes| && f != t.node && t in s.threads && s.threads.Keys == {t}
    && s.nodes[f].requesting && Seen(s, f, t.node)
    && match s.threads[t]
       case Blocked => true
       case Locked => true
       case Asking(k) => s.nodes[f].myseqno < s.nodes[t.node].myseqno && NotAmong(cfg, t, f, k)
       case Waiting(k, c) =>
         && s.nodes[f].myseqno < s.nodes[t.node].myseqno && NotAmong(cfg, t, f, k)
         && c in s.calls && (s.calls[c].dst == f ==> s.calls[c].stage != Answered)
       case _ => false
  }

  lemma ShutOutNoEntry(cfg: Config, s: State, t: Thread, f: nat)
    requires InRange(cfg, s) && CompleteMembership(cfg) && ShutOut(cfg, s, t, f)
    ensures !Allowed(cfg, s, Proceed(t))
  {
    assert f in cfg.peers[t.node];
  }

  lemma KeepFlagBehind(cfg: Config, s: State, m: Move, t: Thread, f: nat)
    requires InRange(cfg, s) && !cfg.clears && f < |s.nodes| && f != t.node && t.node < |s.nodes|
    requires s.threads.Keys == {t} && Serving(cfg, s, m)
    requires s.nodes[f].requesting && Seen(s, f, t.node)
    ensures var s' := Result(cfg, s, m);
      s'.nodes[f].requesting && Seen(s', f, t.node) && s'.nodes[f].myseqno == s.nodes[f].myseqno
  {
  }

  lemma KeepShutOut(cfg: Config, s: State, m: Move, t: Thread, f: nat)
    requires InRange(cfg, s) && !cfg.clears
    requires ShutOut(cfg, s, t, f) && Serving(cfg, s, m) && m != Proceed(t)
    requires InRange(cfg, Result(cfg, s, m))
    requires ThreadMatch(cfg, s, t)
    requires m.Handle? ==> CallMatch(cfg, s, m.c)
    ensures ShutOut(cfg, Result(cfg, s, m), t, f)
    ensures Result(cfg, s, m).entries == s.entries
  {
    KeepFlagBehind(cfg, s, m, t, f);
    if !m.Handle? {
      assert m.t == t;
    }
  }

  lemma {:induction false} PlayShutOut(cfg: Config, s: State, ms: seq<Move>, t: Thread, f: nat)
    requires Calm(cfg, s) && CompleteMembership(cfg) && !cfg.clears
    requires ShutOut(cfg, s, t, f) && IsPlay(cfg, s, ms) && NoJoin(ms)
    ensures ShutOut(cfg, Play(cfg, s, ms), t, f)
    ensures Play(cfg, s, ms).entries == s.entries && Proceed(t) !in ms
    decreases |ms|
  {
    if ms != [] {
      var m := ms[0];
      ResultCalm(cfg, s, m);
      assert ThreadMatch(cfg, s, t);
      assert m.Handle? ==> CallMatch(cfg, s, m.c);
      ShutOutNoEntry(cfg, s, t, f);
      KeepShutOut(cfg, s, m, t, f);
      PlayShutOut(cfg, Result(cfg, s, m), ms[1..], t, f);
    }
  }

  // ----- one node's acquires, no other flag up

  ghost predicate Unopposed(s: State, n: nat) {
    && (forall t :: t in s.threads ==> t.node == n)
    && (forall i :: 0 <= i < |s.nodes| && i != n ==> !s.nodes[i].requesting)
    && (forall c :: c in s.calls ==> s.calls[c].stage != Parked)
  }

  ghost predicate JoinsFrom(ms: seq<Move>, users: set<nat>) {
    forall k :: 0 <= k < |ms| && ms[k].Join? ==> ms[k].t.node in users
  }

  lemma KeepUnopposed(cfg: Config, s: State, m: Move, n: nat)
    requires InRange(cfg, s) && Unopposed(s, n) && Allowed(cfg, s, m) && (m.Join? ==> m.t.node == n)
    requires m.Handle? ==> CallMatch(cfg, s, m.c)
    ensures Unopposed(Result(cfg, s, m), n)
  {
  }

  lemma {:induction false} PlayUnopposed(cfg: Config, s: State, ms: seq<Move>, n: nat)
    requires Base(cfg, s) && Unopposed(s, n) && IsPlay(cfg, s, ms) && JoinsFrom(ms, {n})
    ensures Unopposed(Play(cfg, s, ms), n)
    decreases |ms|
  {
    if ms != [] {
      ResultBase(cfg, s, ms[0]);
      assert ms[0].Handle? ==> CallMatch(cfg, s, ms[0].c);
      KeepUnopposed(cfg, s, ms[0], n);
      PlayUnopposed(cfg, Result(cfg, s, ms[0]), ms[1..], n);
    }
  }

  // ----- exactly when a lone acquire is served

  lemma LoneStart(cfg: Config, s: State, t: Thread)
    requires RestedWell(cfg, s) && t.node < |s.nodes|
    ensures Allowed(cfg, s, Join(t))
    ensures var s1 := Result(cfg, s, Join(t));
      && Calm(cfg, s1) && Pending(s1) == {t} && s1.entries == s.entries && s1.nodes == s.nodes
      && ((forall n :: 0 <= n < |s.nodes| && n != t.node ==> !s.nodes[n].requesting) ==> Unopposed(s1, t.node))
      && (forall f :: 0 <= f < |s.nodes| && f != t.node && s.nodes[f].requesting ==> ShutOut(cfg, s1, t, f))
  {
    NobodyNoCalls(cfg, s);
    ResultCalm(cfg, s, Join(t));
    forall f | 0 <= f < |s.nodes| && f != t.node && s.nodes[f].requesting
      ensures ShutOut(cfg, Result(cfg, s, Join(t)), t, f)
    {
      RestFlag(cfg, s, f);
      assert Seen(s, f, t.node);
    }
  }

  ghost predicate OthersNeverHeld(s: State, n: nat) {
    forall f :: 0 <= f < |s.nodes| && f != n ==> !EverHeld(s, f)
  }

  /**
   The code as written, from any reachable state at rest: an acquire with no
   other acquire around is served exactly when no other node has ever held
   the lock. Otherwise it never enters, however long the play.
   */
  lemma LoneAcquire(cfg: Config, pre: seq<Move>, t: Thread, ms: seq<Move>)
    requires WellFormed(cfg) && DistinctMacs(cfg) && CompleteMembership(cfg) && !cfg.clears
    requires IsPlay(cfg, Initial(cfg), pre) && AtRest(Play(cfg, Initial(cfg), pre))
    requires t.node < |cfg.macs| && Allowed(cfg, Play(cfg, Initial(cfg), pre), Join(t))
    requires IsPlay(cfg, Result(cfg, Play(cfg, Initial(cfg), pre), Join(t)), ms) && NoJoin(ms)
    ensures var s := Play(cfg, Initial(cfg), pre);
            var s' := Play(cfg, Result(cfg, s, Join(t)), ms);
      && (!OthersNeverHeld(s, t.node) ==> Proceed(t) !in ms && s'.entries == s.entries && t in s'.threads)
      && (OthersNeverHeld(s, t.node) && Quiet(cfg, s') ==>
            Proceed(t) in ms && |s'.entries| == |s.entries| + 1 && AtRest(s'))
  {
    var s := Play(cfg, Initial(cfg), pre);
    var s1 := Result(cfg, s, Join(t));
    var s' := Play(cfg, s1, ms);
    RestFlags(cfg, pre);
    LoneStart(cfg, s, t);
    PlayCalm(cfg, s1, ms);
    if OthersNeverHeld(s, t.node) {
      forall n | 0 <= n < |s.nodes| && n != t.node ensures !s.nodes[n].requesting {
        RestFlag(cfg, s, n);
      }
      PlayUnopposed(cfg, s1, ms, t.node);
      PlayPending(cfg, s1, ms);
      if s'.threads != map[] {
        NotStuck(cfg, s');
      } else {
        NobodyNoCalls(cfg, s');
      }
    } else {
      var f :| 0 <= f < |s.nodes| && f != t.node && EverHeld(s, f);
      PlayShutOut(cfg, s1, ms, t, f);
    }
  }

  // ----- the failure is reachable in every system of two or more nodes

  /** Without new acquires, serving moves can be made until none is left. */
  lemma {:induction false} FinishPlay(cfg: Config, s: State) returns (ms: seq<Move>)
    requires Calm(cfg, s)
    ensures IsPlay(cfg, s, ms) && NoJoin(ms)
    ensures Quiet(cfg, Play(cfg, s, ms))
    decreases Measure(cfg, s)
  {
    if Quiet(cfg, s) {
      ms := [];
    } else {
      var m :| Serving(cfg, s, m);
      ResultCalm(cfg, s, m);
      MeasureFalls(cfg, s, m);
      var rest := FinishPlay(cfg, Result(cfg, s, m));
      ms := [m] + rest;
      assert ms[1..] == rest;
    }
  }

  lemma AloneNotBlocked(cfg: Config, s: State, t: Thread)
    requires Calm(cfg, s) && s.threads.Keys == {t} && At(s, t, Blocked)
    ensures !Quiet(cfg, s)
  {
    assert MutexOwned(s, t.node);
    assert forall u :: !Owns(s, t.node, u);
    assert Serving(cfg, s, Take(t));
  }

  /** A shut-out thread that can go no further is stranded. */
  lemma ShutOutStrands(cfg: Config, s: State, t: Thread, f: nat)
    requires Inv(cfg, s) && Calm(cfg, s) && ShutOut(cfg, s, t, f) && Quiet(cfg, s)
    ensures s.threads[t].Waiting? && Stranded(cfg, s, s.threads[t].call)
    ensures s.calls[s.threads[t].call].src == t
  {
    if s.threads[t].Blocked? {
      AloneNotBlocked(cfg, s, t);
    } else if !ParkedThread(s, t) {
      UnparkedMoves(cfg, s, t);
    } else {
      assert ThreadMatch(cfg, s, t);
      var c := s.threads[t].call;
      assert CallMatch(cfg, s, c) && StageFact(cfg, s, c);
    }
  }

  /** A thread of node a acquires and releases once, from the initial state. */
  lemma FirstHolder(cfg: Config, a: Thread) returns (pre: seq<Move>)
    requires WellFormed(cfg) && DistinctMacs(cfg) && CompleteMembership(cfg) && !cfg.clears
    requires a.node < |cfg.macs|
    ensures IsPlay(cfg, Initial(cfg), pre)
    ensures AtRest(Play(cfg, Initial(cfg), pre)) && EverHeld(Play(cfg, Initial(cfg), pre), a.node)
    ensures JoinsFrom(pre, {a.node})
  {
    var s := Initial(cfg);
    var s1 := Result(cfg, s, Join(a));
    assert IsPlay(cfg, s, []);
    RestFlags(cfg, []);
    LoneStart(cfg, s, a);
    var ms := FinishPlay(cfg, s1);
    LoneAcquire(cfg, [], a, ms);
    pre := [Join(a)] + ms;
    assert pre[1..] == ms;
    PlayCalm(cfg, s, pre);
    PlayRemembered(cfg, s, pre);
    OnlyEntrant(cfg, s1, ms, a);
  }

  /** Entries made while only t is around are t's. */
  lemma {:induction false} OnlyEntrant(cfg: Config, s: State, ms: seq<Move>, t: Thread)
    requires IsPlay(cfg, s, ms) && NoJoin(ms) && Proceed(t) in ms
    ensures EverHeld(Play(cfg, s, ms), t.node)
    decreases |ms|
  {
    if ms[0] == Proceed(t) {
      var s' := Result(cfg, s, ms[0]);
      EntriesKept(cfg, s', ms[1..], s'.entries[|s'.entries| - 1]);
    } else {
      OnlyEntrant(cfg, Result(cfg, s, ms[0]), ms[1..], t);
    }
  }

  lemma {:induction false} EntriesKept(cfg: Config, s: State, ms: seq<Move>, e: Entry)
    requires IsPlay(cfg, s, ms) && e in s.entries
    ensures e in Play(cfg, s, ms).entries
    decreases |ms|
  {
    if ms != [] {
      assert e in Result(cfg, s, ms[0]).entries;
      EntriesKept(cfg, Result(cfg, s, ms[0]), ms[1..], e);
    }
  }

  /** Join by t from rest, then serving moves until none is left. */
  ghost predicate RunsOut(cfg: Config, s: State, t: Thread, ms: seq<Move>) {
    && InRange(cfg, s) && Allowed(cfg, s, Join(t)) && IsPlay(cfg, Result(cfg, s, Join(t)), ms) && NoJoin(ms)
    && Quiet(cfg, Play(cfg, Result(cfg, s, Join(t)), ms))
  }

  /** Where another node has held the lock, a lone acquire is stranded. */
  lemma LoneStrands(cfg: Config, pre: seq<Move>, b: Thread, f: nat) returns (ms: seq<Move>, c: CallId)
    requires WellFormed(cfg) && DistinctMacs(cfg) && CompleteMembership(cfg) && !cfg.clears
    requires IsPlay(cfg, Initial(cfg), pre) && AtRest(Play(cfg, Initial(cfg), pre))
    requires b.node < |cfg.macs| && f < |cfg.macs| && f != b.node && EverHeld(Play(cfg, Initial(cfg), pre), f)
    ensures RunsOut(cfg, Play(cfg, Initial(cfg), pre), b, ms)
    ensures var s' := Play(cfg, Result(cfg, Play(cfg, Initial(cfg), pre), Join(b)), ms);
      Inv(cfg, s') && Stranded(cfg, s', c) && s'.calls[c].src == b
  {
    var s := Play(cfg, Initial(cfg), pre);
    InitialInv(cfg);
    PlayInv(cfg, Initial(cfg), pre);
    RestFlags(cfg, pre);
    LoneStart(cfg, s, b);
    var s1 := Result(cfg, s, Join(b));
    JoinInv(cfg, s, b);
    ms := FinishPlay(cfg, s1);
    var s' := Play(cfg, s1, ms);
    PlayCalm(cfg, s1, ms);
    PlayInv(cfg, s1, ms);
    PlayShutOut(cfg, s1, ms, b, f);
    ShutOutStrands(cfg, s', b, f);
    c := s'.threads[b].call;
  }

  lemma JoinInv(cfg: Config, s: State, t: Thread)
    requires Inv(cfg, s) && Allowed(cfg, s, Join(t))
    ensures Inv(cfg, Result(cfg, s, Join(t)))
  {
    StepInv(cfg, s, Arrive(t));
  }

  /**
   The code as written, in every system of two or more nodes: node a holds and
   releases the lock once, then node b's acquire, with nobody else around, is
   stranded; and then it is never served, whoever acquires or releases later.
   */
  lemma StrandingReachable(cfg: Config, a: Thread, b: Thread) returns (pre: seq<Move>, ms: seq<Move>, c: CallId)
    requires WellFormed(cfg) && DistinctMacs(cfg) && CompleteMembership(cfg) && !cfg.clears
    requires a.node < |cfg.macs| && b.node < |cfg.macs| && a.node != b.node
    ensures IsPlay(cfg, Initial(cfg), pre) && AtRest(Play(cfg, Initial(cfg), pre)) && JoinsFrom(pre, {a.node})
    ensures RunsOut(cfg, Play(cfg, Initial(cfg), pre), b, ms)
    ensures var s' := Play(cfg, Result(cfg, Play(cfg, Initial(cfg), pre), Join(b)), ms);
      && Stranded(cfg, s', c) && s'.calls[c].src == b
      && forall acts :: IsRun(cfg, s', acts) ==> Enter(b) !in acts
  {
    pre := FirstHolder(cfg, a);
    ms, c := LoneStrands(cfg, pre, b, a.node);
    var s' := Play(cfg, Result(cfg, Play(cfg, Initial(cfg), pre), Join(b)), ms);
    forall acts | IsRun(cfg, s', acts) ensures Enter(b) !in acts {
      NeverServed(cfg, s', acts, c);
    }
  }

  // ----- exactly which use of a lock is safe from stranding

  /** However the nodes in `users` acquire and release, whenever nothing more can happen everybody has been served. */
  ghost predicate AlwaysServed(cfg: Config, users: set<nat>) {
    forall ms :: IsPlay(cfg, Initial(cfg), ms) && JoinsFrom(ms, users) && Quiet(cfg, Play(cfg, Initial(cfg), ms)) ==>
      AtRest(Play(cfg, Initial(cfg), ms))
  }

  lemma OneUserServed(cfg: Config, n: nat, ms: seq<Move>)
    requires WellFormed(cfg) && IsPlay(cfg, Initial(cfg), ms) && JoinsFrom(ms, {n})
    requires Quiet(cfg, Play(cfg, Initial(cfg), ms))
    ensures AtRest(Play(cfg, Initial(cfg), ms))
  {
    var s := Play(cfg, Initial(cfg), ms);
    InitialCalm(cfg);
    PlayCalm(cfg, Initial(cfg), ms);
    PlayUnopposed(cfg, Initial(cfg), ms, n);
    if s.threads != map[] {
      NotStuck(cfg, s);
    }
  }

  ghost predicate Plays(cfg: Config, s: State, ms: seq<Move>, s': State) {
    IsPlay(cfg, s, ms) && Play(cfg, s, ms) == s'
  }

  lemma PlaysCons(cfg: Config, s: State, m: Move, ms: seq<Move>, s': State)
    requires InRange(cfg, s) && Allowed(cfg, s, m) && Plays(cfg, Result(cfg, s, m), ms, s')
    ensures Plays(cfg, s, [m] + ms, s')
  {
    assert ([m] + ms)[1..] == ms;
  }

  lemma PlaysFirst(cfg: Config, s: State, ms: seq<Move>, s': State)
    requires Plays(cfg, s, ms, s') && ms != []
    ensures InRange(cfg, s) && Allowed(cfg, s, ms[0]) && Plays(cfg, Result(cfg, s, ms[0]), ms[1..], s')
  {
  }

  lemma {:induction false} PlaysConcat(cfg: Config, s: State, a: seq<Move>, s1: State, b: seq<Move>, s2: State)
    requires Plays(cfg, s, a, s1) && Plays(cfg, s1, b, s2)
    ensures Plays(cfg, s, a + b, s2)
    decreases |a|
  {
    if a == [] {
      assert a + b == b;
    } else {
      PlaysFirst(cfg, s, a, s1);
      PlaysConcat(cfg, Result(cfg, s, a[0]), a[1..], s1, b, s2);
      PlaysCons(cfg, s, a[0], a[1..] + b, s2);
      assert a + b == [a[0]] + (a[1..] + b);
    }
  }

  lemma TwoUsersStrand(cfg: Config, users: set<nat>, i: nat, j: nat)
    requires WellFormed(cfg) && DistinctMacs(cfg) && CompleteMembership(cfg) && !cfg.clears
    requires i in users && j in users && i != j && i < |cfg.macs| && j < |cfg.macs|
    ensures !AlwaysServed(cfg, users)
  {
    var b := Thread(j, 0);
    var pre, ms, c := StrandingReachable(cfg, Thread(i, 0), b);
    var more := [Join(b)] + ms;
    var s1 := Play(cfg, Initial(cfg), pre);
    var s' := Play(cfg, Result(cfg, s1, Join(b)), ms);
    PlaysCons(cfg, s1, Join(b), ms, s');
    PlaysConcat(cfg, Initial(cfg), pre, s1, more, s');
    assert JoinsFrom(pre + more, users);
    assert c in s'.calls;
    if AtRest(s') {
      InitialCalm(cfg);
      PlayCalm(cfg, Initial(cfg), pre + more);
      NobodyNoCalls(cfg, s');
    }
  }

  /** The code as written serves every acquire of a lock if and only if at most one node ever uses that lock. */
  lemma ServedIffOneUser(cfg: Config, users: set<nat>)
    requires WellFormed(cfg) && DistinctMacs(cfg) && CompleteMembership(cfg) && !cfg.clears
    requires forall n :: n in users ==> n < |cfg.macs|
    ensures AlwaysServed(cfg, users) <==> |users| <= 1
  {
    if |users| <= 1 {
      var n := OnlyOne(users);
      forall ms | IsPlay(cfg, Initial(cfg), ms) && JoinsFrom(ms, users) && Quiet(cfg, Play(cfg, Initial(cfg), ms))
        ensures AtRest(Play(cfg, Initial(cfg), ms))
      {
        OneUserServed(cfg, n, ms);
      }
    } else {
      var i, j := TwoOf(users);
      TwoUsersStrand(cfg, users, i, j);
    }
  }

  lemma OnlyOne(users: set<nat>) returns (n: nat)
    requires |users| <= 1
    ensures users <= {n}
  {
    if users == {} {
      n := 0;
    } else {
      n :| n in users;
      assert |users - {n}| == 0;
    }
  }

  lemma TwoOf(users: set<nat>) returns (i: nat, j: nat)
    requires |users| > 1
    ensures i in users && j in users && i != j
  {
    i :| i in users;
    assert |users - {i}| > 0;
    j :| j in users - {i};
  }
}
