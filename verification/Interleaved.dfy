/**
 Progress when every statement interleaves. A handler that has decided to park
 its caller may do so after its node has stopped claiming, or before its node
 has chosen its number: an untimely park. Such parks are exactly what can go wrong,
 for both kinds of release: a run that cannot go on has served everybody if and
 only if none occurred. One can occur at the very first use of a lock.
 */
module Interleaved {
  import opened Protocol
  import opened Invariants
  import opened Safety
  import opened Moves
  import opened Progress
  import opened Termination
  import opened AsWritten
  import opened Bypass
  import opened Premises

  // ----- untimely parks

  /** Some thread of node n claims the lock with a stamp before x. */
  ghost predicate ClaimsBefore(cfg: Config, s: State, n: nat, x: Stamp)
    requires InRange(cfg, s)
  {
    exists u :: Claims(s, n, u) && Before(Claim(cfg, s, u), x)
  }

  /** The action parks a request at a node that claims nothing before it. */
  ghost predicate Untimely(cfg: Config, s: State, a: Action)
    requires InRange(cfg, s)
  {
    a.Park? && a.c in s.calls && !ClaimsBefore(cfg, s, s.calls[a.c].dst, s.calls[a.c].stamp)
  }

  ghost predicate SomeUntimelyPark(cfg: Config, s: State, acts: seq<Action>)
    requires IsRun(cfg, s, acts)
    decreases |acts|
  {
    acts != [] && (Untimely(cfg, s, acts[0]) || SomeUntimelyPark(cfg, Step(cfg, s, acts[0]), acts[1..]))
  }

  /** Once a handler's clock update is done, its node either claims before the request or stands behind it. */
  lemma ClaimsOrGrants(cfg: Config, s: State, c: CallId)
    requires Inv(cfg, s) && c in s.calls && s.calls[c].stage != InFlight && s.calls[c].dst != s.calls[c].src.node
    ensures Granted(cfg, s, s.calls[c].dst, s.calls[c].stamp) <==> !ClaimsBefore(cfg, s, s.calls[c].dst, s.calls[c].stamp)
  {
    assert StageFact(cfg, s, c) && CallMatch(cfg, s, c);
    var n, x := s.calls[c].dst, s.calls[c].stamp;
    forall u | Claims(s, n, u) ensures Before(x, Claim(cfg, s, u)) <==> !Before(Claim(cfg, s, u), x) {
      assert Claim(cfg, s, u).mac == cfg.macs[n] && x.mac == cfg.macs[s.calls[c].src.node];
    }
    assert forall t :: Claims(s, n, t) <==> t in s.threads && t.node == n && Claiming(s.threads[t]);
  }

  /** A node's earlier claim ends only with its release, which wakes everyone parked there. */
  lemma KeepClaimsBefore(cfg: Config, s: State, a: Action, n: nat, x: Stamp)
    requires InRange(cfg, s) && LocalExclusion(cfg, s) && Enabled(cfg, s, a) && InRange(cfg, Step(cfg, s, a))
    requires ClaimsBefore(cfg, s, n, x) && !(a.Flush? && a.t.node == n)
    ensures ClaimsBefore(cfg, Step(cfg, s, a), n, x)
  {
    var u :| Claims(s, n, u) && Before(Claim(cfg, s, u), x);
    assert Claims(Step(cfg, s, a), n, u);
    KeepClaim(cfg, s, a, u);
  }

  /** A request is stranded by an untimely park and by nothing else. */
  lemma StrandedByUntimelyPark(cfg: Config, s: State, a: Action, c: CallId)
    requires Inv(cfg, s) && Enabled(cfg, s, a) && Inv(cfg, Step(cfg, s, a))
    requires Stranded(cfg, Step(cfg, s, a), c)
    ensures Stranded(cfg, s, c) || (a == Park(c) && Untimely(cfg, s, a))
  {
    var s' := Step(cfg, s, a);
    ClaimsOrGrants(cfg, s', c);
    ParkedBefore(cfg, s, a, c);
    ClaimsOrGrants(cfg, s, c);
    if ClaimsBefore(cfg, s, s.calls[c].dst, s.calls[c].stamp) {
      InvListed(cfg, s, s.calls[c].dst, c);
      if !(a.Flush? && a.t.node == s.calls[c].dst) {
        KeepClaimsBefore(cfg, s, a, s.calls[c].dst, s.calls[c].stamp);
      }
    }
  }

  lemma ParkedBefore(cfg: Config, s: State, a: Action, c: CallId)
    requires InRange(cfg, s) && Enabled(cfg, s, a) && On(Step(cfg, s, a), c, Parked)
    ensures On(s, c, Parked) || (a == Park(c) && On(s, c, MustDefer))
    ensures Step(cfg, s, a).calls[c].(stage := s.calls[c].stage) == s.calls[c]
  {
  }

  lemma UntimelyParkStrands(cfg: Config, s: State, c: CallId)
    requires Inv(cfg, s) && Enabled(cfg, s, Park(c)) && Untimely(cfg, s, Park(c)) && InRange(cfg, Step(cfg, s, Park(c)))
    ensures Stranded(cfg, Step(cfg, s, Park(c)), c)
  {
    assert StageFact(cfg, s, c);
    ClaimsOrGrants(cfg, s, c);
    KeepGranted(cfg, s, Park(c), s.calls[c].dst, s.calls[c].stamp);
  }

  ghost predicate SomeStranded(cfg: Config, s: State)
    requires InRange(cfg, s)
  {
    exists c :: Stranded(cfg, s, c)
  }

  lemma StepStranded(cfg: Config, s: State, a: Action)
    requires Inv(cfg, s) && CompleteMembership(cfg) && Enabled(cfg, s, a) && Inv(cfg, Step(cfg, s, a))
    ensures SomeStranded(cfg, Step(cfg, s, a)) <==> SomeStranded(cfg, s) || Untimely(cfg, s, a)
  {
    if c :| Stranded(cfg, s, c) {
      KeepStranded(cfg, s, a, c);
    }
    if Untimely(cfg, s, a) {
      UntimelyParkStrands(cfg, s, a.c);
    }
    if c :| Stranded(cfg, Step(cfg, s, a), c) {
      StrandedByUntimelyPark(cfg, s, a, c);
    }
  }

  /** A run leaves a request stranded if and only if an untimely park occurred in it. */
  lemma {:induction false} RunStranded(cfg: Config, s: State, acts: seq<Action>)
    requires Inv(cfg, s) && CompleteMembership(cfg) && IsRun(cfg, s, acts)
    ensures SomeStranded(cfg, Exec(cfg, s, acts)) <==> SomeStranded(cfg, s) || SomeUntimelyPark(cfg, s, acts)
    decreases |acts|
  {
    if acts != [] {
      StepInv(cfg, s, acts[0]);
      StepStranded(cfg, s, acts[0]);
      RunStranded(cfg, Step(cfg, s, acts[0]), acts[1..]);
    }
  }

  // ----- someone can always act

  ghost predicate Still(cfg: Config, s: State)
    requires InRange(cfg, s)
  {
    forall a :: !Serves(cfg, s, a)
  }

  ghost predicate MutexesOwned(s: State) {
    forall n {:trigger MutexOwned(s, n)} :: 0 <= n < |s.nodes| ==> MutexOwned(s, n)
  }

  lemma StepMutexOwned(cfg: Config, s: State, a: Action, n: nat)
    requires InRange(cfg, s) && LocalExclusion(cfg, s) && Enabled(cfg, s, a)
    requires n < |s.nodes| && MutexOwned(s, n)
    ensures MutexOwned(Step(cfg, s, a), n)
  {
    if a.TakeLocal? && a.t.node == n {
      assert Owns(Step(cfg, s, a), n, a.t);
    } else if t :| Owns(s, n, t) && a != Unlock(t) {
      assert Owns(Step(cfg, s, a), n, t);
    }
  }

  lemma {:induction false} RunMutexesOwned(cfg: Config, s: State, acts: seq<Action>)
    requires Base(cfg, s) && MutexesOwned(s) && IsRun(cfg, s, acts)
    ensures MutexesOwned(Exec(cfg, s, acts))
    decreases |acts|
  {
    if acts != [] {
      var s' := Step(cfg, s, acts[0]);
      StepBase(cfg, s, acts[0]);
      forall n | 0 <= n < |s'.nodes| ensures MutexOwned(s', n) {
        assert MutexOwned(s, n);
        StepMutexOwned(cfg, s, acts[0], n);
      }
      RunMutexesOwned(cfg, s', acts[1..]);
    }
  }

  /** The action open to a handler. */
  ghost function NextOfHandler(c: CallId, g: Stage): Action {
    match g
    case InFlight => UpdateClock(c)
    case MustDefer => Park(c)
    case _ => NextTest(c, g)
  }

  /** The action open to a thread that is past the mutex and not parked, or to the handler it waits for. */
  ghost function NextAction(cfg: Config, s: State, t: Thread, unused: CallId): Action
    requires InRange(cfg, s) && t in s.threads
    requires s.threads[t].Waiting? ==> s.threads[t].call in s.calls
  {
    match s.threads[t]
    case Asking(k) => if k < |cfg.peers[t.node]| then Send(t, unused) else Enter(t)
    case Waiting(_, c) => if On(s, c, Answered) then Receive(t) else NextOfHandler(c, s.calls[c].stage)
    case Critical => Flush(t)
    case Flushed => Unlock(t)
    case Flagged => ReadClock(t)
    case ClockRead(_) => WriteSeqno(t)
    case _ => RaiseFlag(t)
  }

  lemma UnparkedActs(cfg: Config, s: State, t: Thread)
    requires Base(cfg, s) && t in s.threads && Inside(s.threads[t]) && !ParkedThread(s, t)
    ensures !Still(cfg, s)
  {
    var unused := FreshCall(s.calls.Keys);
    assert ThreadMatch(cfg, s, t);
    assert Serves(cfg, s, NextAction(cfg, s, t, unused));
  }

  /** A parked request that is not stranded waits for an earlier claim. */
  lemma ParkedBehindClaim(cfg: Config, s: State, t: Thread) returns (u: Thread)
    requires Inv(cfg, s) && ParkedThread(s, t) && !Stranded(cfg, s, s.threads[t].call)
    ensures u in s.threads && Claiming(s.threads[u]) && Before(Claim(cfg, s, u), Claim(cfg, s, t))
  {
    var c := s.threads[t].call;
    assert ThreadMatch(cfg, s, t) && CallMatch(cfg, s, c) && StageFact(cfg, s, c);
    ClaimsOrGrants(cfg, s, c);
    u :| Claims(s, s.calls[c].dst, u) && Before(Claim(cfg, s, u), s.calls[c].stamp);
  }

  lemma {:induction false} LeastClaim(cfg: Config, s: State, ts: set<Thread>) returns (t: Thread)
    requires InRange(cfg, s) && ts != {} && ts <= s.threads.Keys
    ensures t in ts && forall u :: u in ts ==> !Before(Claim(cfg, s, u), Claim(cfg, s, t))
    decreases |ts|
  {
    t :| t in ts;
    if ts != {t} {
      var v := LeastClaim(cfg, s, ts - {t});
      if Before(Claim(cfg, s, v), Claim(cfg, s, t)) {
        t := v;
      }
    }
  }

  lemma LeastActs(cfg: Config, s: State, t: Thread)
    requires Inv(cfg, s) && !SomeStranded(cfg, s) && t in s.threads && Claiming(s.threads[t])
    ensures !Still(cfg, s)
  {
    var claimers := set u | u in s.threads && Claiming(s.threads[u]);
    assert t in claimers;
    var least := LeastClaim(cfg, s, claimers);
    if ParkedThread(s, least) {
      var u := ParkedBehindClaim(cfg, s, least);
    } else {
      UnparkedActs(cfg, s, least);
    }
  }

  lemma SomeoneActs(cfg: Config, s: State)
    requires Inv(cfg, s) && MutexesOwned(s) && !SomeStranded(cfg, s) && s.threads != map[]
    ensures !Still(cfg, s)
  {
    var t :| t in s.threads;
    if s.threads[t].Blocked? && !s.nodes[t.node].locked {
      assert Serves(cfg, s, TakeLocal(t));
    } else {
      assert MutexOwned(s, t.node);
      var u := if s.threads[t].Blocked? then var u :| Owns(s, t.node, u); u else t;
      if ParkedThread(s, u) {
        LeastActs(cfg, s, u);
      } else {
        UnparkedActs(cfg, s, u);
      }
    }
  }

  // ----- exactly when everybody is served

  ghost function Arrivals(acts: seq<Action>): nat
    decreases |acts|
  {
    if acts == [] then 0 else (if acts[0].Arrive? then 1 else 0) + Arrivals(acts[1..])
  }

  lemma PendingAfter(cfg: Config, s: State, a: Action, t: Thread)
    requires InRange(cfg, s) && Enabled(cfg, s, a)
    ensures t in Pending(Step(cfg, s, a)) <==> a == Arrive(t) || (t in Pending(s) && a != Enter(t))
    ensures a == Enter(t) ==> t in Pending(s)
    ensures a == Arrive(t) ==> t !in Pending(s)
    ensures |Step(cfg, s, a).entries| == |s.entries| + if a.Enter? then 1 else 0
  {
  }

  lemma PendingChanges(cfg: Config, s: State, a: Action)
    requires InRange(cfg, s) && Enabled(cfg, s, a)
    ensures Pending(Step(cfg, s, a)) ==
      if a.Arrive? then Pending(s) + {a.t} else if a.Enter? then Pending(s) - {a.t} else Pending(s)
  {
    var p := Pending(Step(cfg, s, a));
    forall t ensures t in p <==> a == Arrive(t) || (t in Pending(s) && a != Enter(t)) {
      PendingAfter(cfg, s, a, t);
    }
  }

  lemma PendingCount(cfg: Config, s: State, a: Action)
    requires InRange(cfg, s) && Enabled(cfg, s, a)
    ensures var s' := Step(cfg, s, a);
      |s'.entries| + |Pending(s')| == |s.entries| + |Pending(s)| + if a.Arrive? then 1 else 0
  {
    PendingChanges(cfg, s, a);
    PendingAfter(cfg, s, a, if a.Arrive? || a.Enter? then a.t else Thread(0, 0));
  }

  /** Every acquire made is either still pending or has become exactly one entry. */
  lemma {:induction false} ArrivalsConserved(cfg: Config, s: State, acts: seq<Action>)
    requires IsRun(cfg, s, acts)
    ensures var s' := Exec(cfg, s, acts);
      |s'.entries| + |Pending(s')| == |s.entries| + |Pending(s)| + Arrivals(acts)
    decreases |acts|
  {
    if acts != [] {
      PendingCount(cfg, s, acts[0]);
      ArrivalsConserved(cfg, Step(cfg, s, acts[0]), acts[1..]);
    }
  }

  /**
   In every run, with any interleaving of statements and for both kinds of
   release: if it ends where nobody can act, then everybody has been served,
   each acquire exactly once, if and only if no untimely park occurred.
   */
  lemma ServedUnlessUntimelyPark(cfg: Config, acts: seq<Action>)
    requires WellFormed(cfg) && DistinctMacs(cfg) && CompleteMembership(cfg) && IsRun(cfg, Initial(cfg), acts)
    requires Still(cfg, Exec(cfg, Initial(cfg), acts))
    ensures Exec(cfg, Initial(cfg), acts).threads == map[] <==> !SomeUntimelyPark(cfg, Initial(cfg), acts)
    ensures |Exec(cfg, Initial(cfg), acts).entries| == Arrivals(acts) <==> !SomeUntimelyPark(cfg, Initial(cfg), acts)
  {
    var s := Exec(cfg, Initial(cfg), acts);
    InitialInv(cfg);
    RunInv(cfg, Initial(cfg), acts);
    RunMutexesOwned(cfg, Initial(cfg), acts);
    RunStranded(cfg, Initial(cfg), acts);
    ArrivalsConserved(cfg, Initial(cfg), acts);
    if c :| Stranded(cfg, s, c) {
      assert CallMatch(cfg, s, c);
      assert s.calls[c].src in Pending(s);
    } else if s.threads != map[] {
      SomeoneActs(cfg, s);
    }
  }

  /** A stranded request that every clock has seen stops the lock: at most N - 1 entries are still to come, for ever. */
  lemma StrandingFreezes(cfg: Config, s: State, acts: seq<Action>, c: CallId)
    requires Inv(cfg, s) && CompleteMembership(cfg) && Stranded(cfg, s, c) && IsRun(cfg, s, acts)
    requires SeenByAll(cfg, s, s.calls[c].src)
    ensures Entries(acts) <= |cfg.macs| - 1
  {
    assert CallMatch(cfg, s, c);
    NeverServed(cfg, s, acts, c);
    var t := s.calls[c].src;
    PassersBound(cfg, s, acts, t);
    PassersFew(cfg, s, t.node, StampOf(cfg, s, t.node));
  }

  // ----- an untimely park at first use

  ghost predicate Reached(cfg: Config, s: State) {
    InRange(cfg, s) && CanReach(cfg, Initial(cfg), s)
  }

  lemma Act(cfg: Config, s: State, a: Action, s': State)
    requires Reached(cfg, s) && Enabled(cfg, s, a) && Step(cfg, s, a) == s'
    ensures Reached(cfg, s')
  {
    StepInRange(cfg, s, a);
    LeadsOne(cfg, s, a, s');
    assert CanReach(cfg, s, s');
    ThenReach(cfg, Initial(cfg), s, s');
  }

  lemma ReachedInv(cfg: Config, s: State)
    requires DistinctMacs(cfg) && Reached(cfg, s)
    ensures Inv(cfg, s)
  {
    var acts :| Leads(cfg, Initial(cfg), acts, s);
    InitialInv(cfg);
    RunInv(cfg, Initial(cfg), acts);
  }

  /** Thread b has asked, with number 1, every peer listed before node i, and comes to i next; i is idle. */
  ghost predicate NextIs(cfg: Config, s: State, i: nat, b: Thread, k: nat) {
    && Reached(cfg, s) && s.entries == [] && i < |s.nodes| && i != b.node
    && s.threads == map[b := Asking(k)] && s.calls == map[] && s.nodes[b.node].myseqno == 1
    && k < |cfg.peers[b.node]| && cfg.peers[b.node][k] == i
    && !s.nodes[i].locked && s.nodes[i].myseqno == 0
  }

  ghost function FirstIndex(xs: seq<nat>, x: nat): (k: nat)
    requires x in xs
    ensures k < |xs| && xs[k] == x && forall j :: 0 <= j < k ==> xs[j] != x
  {
    if xs[0] == x then 0 else 1 + FirstIndex(xs[1..], x)
  }

  lemma ComeTo(cfg: Config, i: nat, b: Thread) returns (s: State, k: nat)
    requires WellFormed(cfg) && CompleteMembership(cfg) && i < |cfg.macs| && b.node < |cfg.macs| && i != b.node
    ensures NextIs(cfg, s, i, b, k)
  {
    var s0 := Initial(cfg);
    Enlist(cfg, s0, b);
    var s1 := Enlisted(s0, b);
    k := FirstIndex(cfg.peers[b.node], i);
    s := AskUpTo(cfg, s1, b, 0, k);
    ThenReach(cfg, s0, s1, s);
  }

  /** Thread a of that node has raised its flag and not yet chosen its number; b's request is being handled there. */
  ghost predicate Racing(cfg: Config, s: State, a: Thread, b: Thread, g: Stage) {
    && Reached(cfg, s) && s.entries == [] && a.node < |s.nodes| && a.node != b.node
    && At(s, a, Flagged) && s.threads.Keys == {a, b}
    && s.nodes[a.node].requesting && s.nodes[a.node].myseqno == 0
    && On(s, 0, g) && s.calls[0].src == b && s.calls[0].dst == a.node && s.calls[0].stamp.seqno == 1
  }

  lemma RaiseOnly(cfg: Config, s: State, a: Thread, b: Thread, k: nat) returns (s': State)
    requires NextIs(cfg, s, a.node, b, k)
    ensures Reached(cfg, s') && s'.entries == [] && s'.calls == map[]
    ensures s'.threads == map[b := Asking(k), a := Flagged]
    ensures s'.nodes == s.nodes[a.node := Raised(Taken(s.nodes[a.node]))]
  {
    var s1 := Step(cfg, s, Arrive(a));
    Act(cfg, s, Arrive(a), s1);
    var s2 := Step(cfg, s1, TakeLocal(a));
    Act(cfg, s1, TakeLocal(a), s2);
    s' := Step(cfg, s2, RaiseFlag(a));
    Act(cfg, s2, RaiseFlag(a), s');
  }

  lemma Race(cfg: Config, s: State, a: Thread, b: Thread, k: nat) returns (s': State)
    requires NextIs(cfg, s, a.node, b, k)
    ensures Racing(cfg, s', a, b, InFlight)
  {
    var s1 := RaiseOnly(cfg, s, a, b, k);
    s' := Step(cfg, s1, Send(b, 0));
    Act(cfg, s1, Send(b, 0), s');
  }

  /** The handler compares b's number with the one a has not overwritten yet. */
  lemma Misjudge(cfg: Config, s: State, a: Thread, b: Thread) returns (s': State)
    requires Racing(cfg, s, a, b, InFlight)
    ensures Racing(cfg, s', a, b, MustDefer)
  {
    var s1 := Step(cfg, s, UpdateClock(0));
    Act(cfg, s, UpdateClock(0), s1);
    var s2 := Step(cfg, s1, TestFlag(0));
    Act(cfg, s1, TestFlag(0), s2);
    s' := Step(cfg, s2, TestGreater(0));
    Act(cfg, s2, TestGreater(0), s');
  }

  lemma ParkAnyway(cfg: Config, s: State, a: Thread, b: Thread) returns (s': State)
    requires DistinctMacs(cfg) && Racing(cfg, s, a, b, MustDefer)
    ensures Reached(cfg, s') && s'.entries == [] && Stranded(cfg, s', 0) && s'.calls[0].src == b
    ensures s'.threads.Keys == {a, b}
  {
    s' := Step(cfg, s, Park(0));
    ReachedInv(cfg, s);
    Act(cfg, s, Park(0), s');
    assert Untimely(cfg, s, Park(0)) by {
      assert forall u :: !Claims(s, a.node, u);
    }
    UntimelyParkStrands(cfg, s, 0);
  }

  /**
   In every system of two or more nodes, for both kinds of release: before
   anybody has ever entered, a request handled between the two assignments of
   another node's acquire is parked, and never served in any continuation.
   */
  lemma FirstUseCanStrand(cfg: Config, a: Thread, b: Thread) returns (s: State, c: CallId)
    requires WellFormed(cfg) && DistinctMacs(cfg) && CompleteMembership(cfg)
    requires a.node < |cfg.macs| && b.node < |cfg.macs| && a.node != b.node
    ensures Reached(cfg, s) && s.entries == [] && Stranded(cfg, s, c) && s.calls[c].src == b
    ensures s.threads.Keys == {a, b}
    ensures forall acts :: IsRun(cfg, s, acts) ==> Enter(b) !in acts
  {
    var s1, k := ComeTo(cfg, a.node, b);
    var s2 := Race(cfg, s1, a, b, k);
    var s3 := Misjudge(cfg, s2, a, b);
    s := ParkAnyway(cfg, s3, a, b);
    c := 0;
    ReachedInv(cfg, s);
    forall acts | IsRun(cfg, s, acts) ensures Enter(b) !in acts {
      NeverServed(cfg, s, acts, c);
    }
  }

  // ----- exactly which use of a lock is safe from stranding, under any interleaving

  ghost predicate ArrivesFrom(acts: seq<Action>, users: set<nat>) {
    forall k :: 0 <= k < |acts| && acts[k].Arrive? ==> acts[k].t.node in users
  }

  /** However the nodes in `users` acquire and release, whenever nobody can act everybody has been served. */
  ghost predicate ServedInAllRuns(cfg: Config, users: set<nat>) {
    forall acts :: IsRun(cfg, Initial(cfg), acts) && ArrivesFrom(acts, users)
                   && Still(cfg, Exec(cfg, Initial(cfg), acts)) ==>
      Exec(cfg, Initial(cfg), acts).threads == map[]
  }

  /** Only node n acquires, no other flag is up, and no handler means to park. */
  ghost predicate OneUser(s: State, n: nat) {
    && (forall t :: t in s.threads ==> t.node == n)
    && (forall i :: 0 <= i < |s.nodes| && i != n ==> !s.nodes[i].requesting)
    && (forall c :: c in s.calls ==> s.calls[c].stage != Parked && s.calls[c].stage != MustDefer)
    && (forall c :: c in s.calls && (s.calls[c].stage == FlagSeen || s.calls[c].stage == NotGreater) ==> s.calls[c].dst == n)
  }

  lemma KeepOneUser(cfg: Config, s: State, a: Action, n: nat)
    requires InRange(cfg, s) && OneUser(s, n) && Enabled(cfg, s, a) && (a.Arrive? ==> a.t.node == n)
    requires IsHandler(a) ==> CallMatch(cfg, s, a.c)
    ensures OneUser(Step(cfg, s, a), n)
  {
  }

  lemma {:induction false} RunOneUser(cfg: Config, s: State, acts: seq<Action>, n: nat)
    requires Base(cfg, s) && OneUser(s, n) && IsRun(cfg, s, acts) && ArrivesFrom(acts, {n})
    ensures OneUser(Exec(cfg, s, acts), n)
    decreases |acts|
  {
    if acts != [] {
      StepBase(cfg, s, acts[0]);
      assert IsHandler(acts[0]) ==> CallMatch(cfg, s, acts[0].c);
      KeepOneUser(cfg, s, acts[0], n);
      RunOneUser(cfg, Step(cfg, s, acts[0]), acts[1..], n);
    }
  }

  lemma OneUserActs(cfg: Config, s: State, n: nat)
    requires Base(cfg, s) && MutexesOwned(s) && OneUser(s, n) && s.threads != map[]
    ensures !Still(cfg, s)
  {
    var t :| t in s.threads;
    if s.threads[t].Blocked? && !s.nodes[t.node].locked {
      assert Serves(cfg, s, TakeLocal(t));
    } else {
      assert MutexOwned(s, t.node);
      var u := if s.threads[t].Blocked? then var u :| Owns(s, t.node, u); u else t;
      UnparkedActs(cfg, s, u);
    }
  }

  lemma OneUserRunServed(cfg: Config, n: nat, acts: seq<Action>)
    requires WellFormed(cfg) && IsRun(cfg, Initial(cfg), acts) && ArrivesFrom(acts, {n})
    requires Still(cfg, Exec(cfg, Initial(cfg), acts))
    ensures Exec(cfg, Initial(cfg), acts).threads == map[]
  {
    InitialBase(cfg);
    RunBase(cfg, Initial(cfg), acts);
    RunMutexesOwned(cfg, Initial(cfg), acts);
    RunOneUser(cfg, Initial(cfg), acts, n);
    if Exec(cfg, Initial(cfg), acts).threads != map[] {
      OneUserActs(cfg, Exec(cfg, Initial(cfg), acts), n);
    }
  }

  /** Nobody has entered yet, so nobody has left. */
  ghost predicate NobodyYet(s: State) {
    s.entries == [] && forall t :: t in s.threads ==> !s.threads[t].Critical? && !s.threads[t].Flushed?
  }

  lemma StepNobodyYet(cfg: Config, s: State, a: Action)
    requires InRange(cfg, s) && Enabled(cfg, s, a) && NobodyYet(s)
    ensures a.Enter? || NobodyYet(Step(cfg, s, a))
    ensures s.threads.Keys <= Step(cfg, s, a).threads.Keys && (a.Arrive? ==> a.t in Step(cfg, s, a).threads)
    ensures a.Enter? ==> Step(cfg, s, a).entries != []
  {
  }

  lemma {:induction false} EntriesGrow(cfg: Config, s: State, acts: seq<Action>)
    requires IsRun(cfg, s, acts)
    ensures |s.entries| <= |Exec(cfg, s, acts).entries|
    decreases |acts|
  {
    if acts != [] {
      EntriesGrow(cfg, Step(cfg, s, acts[0]), acts[1..]);
    }
  }

  /** Until somebody enters, whoever has arrived is still there. */
  lemma {:induction false} ArrivedStay(cfg: Config, s: State, acts: seq<Action>)
    requires IsRun(cfg, s, acts) && NobodyYet(s) && Exec(cfg, s, acts).entries == []
    ensures s.threads.Keys <= Exec(cfg, s, acts).threads.Keys
    ensures forall k :: 0 <= k < |acts| && acts[k].Arrive? ==> acts[k].t in Exec(cfg, s, acts).threads
    decreases |acts|
  {
    if acts != [] {
      StepNobodyYet(cfg, s, acts[0]);
      EntriesGrow(cfg, Step(cfg, s, acts[0]), acts[1..]);
      ArrivedStay(cfg, Step(cfg, s, acts[0]), acts[1..]);
    }
  }

  lemma ServeOne(cfg: Config, s: State) returns (a: Action, s1: State)
    requires Base(cfg, s) && !Still(cfg, s)
    ensures Serves(cfg, s, a) && s1 == Step(cfg, s, a) && Base(cfg, s1) && Measure(cfg, s1) < Measure(cfg, s)
  {
    a :| Serves(cfg, s, a);
    s1 := Step(cfg, s, a);
    StepBase(cfg, s, a);
    StepMeasure(cfg, s, a);
  }

  /** Without new acquires, actions can be taken until none is left. */
  lemma {:induction false} FinishRun(cfg: Config, s: State) returns (acts: seq<Action>, s': State)
    requires Base(cfg, s)
    ensures Leads(cfg, s, acts, s') && NoArrive(acts) && Base(cfg, s') && Still(cfg, s')
    decreases Measure(cfg, s)
  {
    if Still(cfg, s) {
      acts, s' := [], s;
    } else {
      var a, s1 := ServeOne(cfg, s);
      var rest;
      rest, s' := FinishRun(cfg, s1);
      LeadsMore(cfg, s, a, s1, rest, s');
      acts := [a] + rest;
    }
  }

  /** Where a request is stranded, a run that goes on until nobody can act has not served everybody. */
  lemma FinishStranded(cfg: Config, s: State, c: CallId) returns (acts: seq<Action>, s': State)
    requires Inv(cfg, s) && CompleteMembership(cfg) && Stranded(cfg, s, c)
    ensures Leads(cfg, s, acts, s') && NoArrive(acts) && InRange(cfg, s') && Still(cfg, s') && s'.threads != map[]
  {
    acts, s' := FinishRun(cfg, s);
    NeverServed(cfg, s, acts, c);
    assert CallMatch(cfg, s', c);
  }

  /** In a run in which nobody has entered, only those who are there have arrived. */
  lemma ArrivedFrom(cfg: Config, s: State, users: set<nat>) returns (acts: seq<Action>)
    requires Reached(cfg, s) && s.entries == [] && forall t :: t in s.threads ==> t.node in users
    ensures Leads(cfg, Initial(cfg), acts, s) && ArrivesFrom(acts, users)
  {
    acts :| Leads(cfg, Initial(cfg), acts, s);
    ArrivedStay(cfg, Initial(cfg), acts);
  }

  lemma TwoUsersRunStrand(cfg: Config, users: set<nat>, i: nat, j: nat)
    requires WellFormed(cfg) && DistinctMacs(cfg) && CompleteMembership(cfg)
    requires i in users && j in users && i != j && i < |cfg.macs| && j < |cfg.macs|
    ensures !ServedInAllRuns(cfg, users)
  {
    var s, c := FirstUseCanStrand(cfg, Thread(i, 0), Thread(j, 0));
    var pre := ArrivedFrom(cfg, s, users);
    ReachedInv(cfg, s);
    var acts, s' := FinishStranded(cfg, s, c);
    LeadsConcat(cfg, Initial(cfg), pre, s, acts, s');
    assert ArrivesFrom(pre + acts, users);
  }

  /** Under any interleaving and with either release, every acquire of a lock is served if and only if at most one node uses it. */
  lemma RunsServedIffOneUser(cfg: Config, users: set<nat>)
    requires WellFormed(cfg) && DistinctMacs(cfg) && CompleteMembership(cfg)
    requires forall n :: n in users ==> n < |cfg.macs|
    ensures ServedInAllRuns(cfg, users) <==> |users| <= 1
  {
    if |users| <= 1 {
      var n := OnlyOne(users);
      forall acts | IsRun(cfg, Initial(cfg), acts) && ArrivesFrom(acts, users)
                    && Still(cfg, Exec(cfg, Initial(cfg), acts))
        ensures Exec(cfg, Initial(cfg), acts).threads == map[]
      {
        OneUserRunServed(cfg, n, acts);
      }
    } else {
      var i, j := TwoOf(users);
      TwoUsersRunStrand(cfg, users, i, j);
    }
  }
}
