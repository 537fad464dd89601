/**
 Bounded bypass: once a node's clock has seen another node's outstanding
 request, the node enters at most once, in the cycle it had already begun,
 before that request is served. Hence at most N - 1 entries altogether.
 */
module Bypass {
  import opened Protocol
  import opened Invariants
  import opened Safety

  /** Thread t has sent out, or is sending out, a request it has not been granted yet. */
  ghost predicate Outstanding(s: State, t: Thread) {
    t in s.threads && (s.threads[t].Asking? || s.threads[t].Waiting?)
  }

  /** Node i has begun a cycle that may still enter ahead of a request stamped x. */
  ghost predicate MayPass(cfg: Config, s: State, i: nat, x: Stamp)
    requires InRange(cfg, s)
  {
    exists u :: u in s.threads && u.node == i && Claiming(s.threads[u]) && !s.threads[u].Critical?
                && Before(Claim(cfg, s, u), x)
  }

  /** While t does not enter, its request and its stamp stay as they are. */
  lemma KeepOutstanding(cfg: Config, s: State, a: Action, t: Thread)
    requires Base(cfg, s) && Enabled(cfg, s, a)
    requires Outstanding(s, t) && a != Enter(t)
    ensures Outstanding(Step(cfg, s, a), t)
    ensures StampOf(cfg, Step(cfg, s, a), t.node) == StampOf(cfg, s, t.node)
  {
    KeepStampWhileInside(cfg, s, a, t);
  }

  /** A node whose clock has seen the request gets no new chance to pass it. */
  lemma MayPassBefore(cfg: Config, s: State, a: Action, i: nat, x: Stamp)
    requires InRange(cfg, s) && LocalExclusion(cfg, s) && Enabled(cfg, s, a) && InRange(cfg, Step(cfg, s, a))
    requires i < |s.nodes| && x.seqno <= s.nodes[i].highest
    requires MayPass(cfg, Step(cfg, s, a), i, x)
    ensures MayPass(cfg, s, i, x)
  {
    var s' := Step(cfg, s, a);
    var u :| u in s'.threads && u.node == i && Claiming(s'.threads[u]) && !s'.threads[u].Critical?
             && Before(Claim(cfg, s', u), x);
    assert u in s.threads && Claiming(s.threads[u]) && !s.threads[u].Critical?;
    KeepClaim(cfg, s, a, u);
  }

  /** Entering while the request is outstanding uses up the node's one chance. */
  lemma EnterUsesPass(cfg: Config, s: State, u: Thread, t: Thread)
    requires Inv(cfg, s) && CompleteMembership(cfg) && Enabled(cfg, s, Enter(u))
    requires Outstanding(s, t) && u.node != t.node
    requires InRange(cfg, Step(cfg, s, Enter(u)))
    ensures MayPass(cfg, s, u.node, StampOf(cfg, s, t.node))
    ensures !MayPass(cfg, Step(cfg, s, Enter(u)), u.node, StampOf(cfg, s, t.node))
  {
    CriticalGranted(cfg, s, u, t.node);
    assert Before(Claim(cfg, s, u), Claim(cfg, s, t));
  }

  ghost function EntriesBy(acts: seq<Action>, i: nat): nat
    decreases |acts|
  {
    if acts == [] then 0
    else (if acts[0].Enter? && acts[0].t.node == i then 1 else 0) + EntriesBy(acts[1..], i)
  }

  lemma {:induction false} PassBound(cfg: Config, s: State, acts: seq<Action>, i: nat, t: Thread)
    requires Inv(cfg, s) && CompleteMembership(cfg) && IsRun(cfg, s, acts)
    requires Outstanding(s, t) && Enter(t) !in acts
    requires i < |s.nodes| && i != t.node && StampOf(cfg, s, t.node).seqno <= s.nodes[i].highest
    ensures EntriesBy(acts, i) <= if MayPass(cfg, s, i, StampOf(cfg, s, t.node)) then 1 else 0
    decreases |acts|
  {
    if acts != [] {
      var a, x := acts[0], StampOf(cfg, s, t.node);
      var s' := Step(cfg, s, a);
      StepInv(cfg, s, a);
      KeepOutstanding(cfg, s, a, t);
      KeepSeqnos(cfg, s, a, i);
      PassBound(cfg, s', acts[1..], i, t);
      if MayPass(cfg, s', i, x) {
        MayPassBefore(cfg, s, a, i, x);
      }
      if a.Enter? && a.t.node == i {
        EnterUsesPass(cfg, s, a.t, t);
      }
    }
  }

  /**
   In any run: from a point where node i's clock has seen t's outstanding
   request, i enters at most once before t does, and not at all unless it had
   already begun a cycle with an earlier claim.
   */
  lemma BoundedBypass(cfg: Config, pre: seq<Action>, acts: seq<Action>, i: nat, t: Thread)
    requires WellFormed(cfg) && DistinctMacs(cfg) && CompleteMembership(cfg)
    requires IsRun(cfg, Initial(cfg), pre) && IsRun(cfg, Exec(cfg, Initial(cfg), pre), acts)
    requires Outstanding(Exec(cfg, Initial(cfg), pre), t) && Enter(t) !in acts
    requires var s := Exec(cfg, Initial(cfg), pre);
      i < |s.nodes| && i != t.node && StampOf(cfg, s, t.node).seqno <= s.nodes[i].highest
    ensures EntriesBy(acts, i) <= 1
    ensures var s := Exec(cfg, Initial(cfg), pre);
      !MayPass(cfg, s, i, StampOf(cfg, s, t.node)) ==> EntriesBy(acts, i) == 0
  {
    InitialInv(cfg);
    RunInv(cfg, Initial(cfg), pre);
    PassBound(cfg, Exec(cfg, Initial(cfg), pre), acts, i, t);
  }

  // ----- all nodes together

  ghost function Passers(cfg: Config, s: State, n: nat, x: Stamp): set<nat>
    requires InRange(cfg, s)
  {
    set i: nat | i < |s.nodes| && i != n && MayPass(cfg, s, i, x)
  }

  ghost function Entries(acts: seq<Action>): nat
    decreases |acts|
  {
    if acts == [] then 0 else (if acts[0].Enter? then 1 else 0) + Entries(acts[1..])
  }

  ghost predicate SeenByAll(cfg: Config, s: State, t: Thread) {
    && InRange(cfg, s) && t.node < |s.nodes|
    && forall i :: 0 <= i < |s.nodes| && i != t.node ==> StampOf(cfg, s, t.node).seqno <= s.nodes[i].highest
  }

  lemma StepPassers(cfg: Config, s: State, a: Action, t: Thread)
    requires Inv(cfg, s) && CompleteMembership(cfg) && Enabled(cfg, s, a) && InRange(cfg, Step(cfg, s, a))
    requires Outstanding(s, t) && a != Enter(t)
    requires SeenByAll(cfg, s, t)
    ensures Passers(cfg, Step(cfg, s, a), t.node, StampOf(cfg, s, t.node)) <= Passers(cfg, s, t.node, StampOf(cfg, s, t.node))
    ensures a.Enter? ==>
      && a.t.node in Passers(cfg, s, t.node, StampOf(cfg, s, t.node))
      && a.t.node !in Passers(cfg, Step(cfg, s, a), t.node, StampOf(cfg, s, t.node))
  {
    var x := StampOf(cfg, s, t.node);
    forall i | i in Passers(cfg, Step(cfg, s, a), t.node, x) ensures i in Passers(cfg, s, t.node, x) {
      MayPassBefore(cfg, s, a, i, x);
    }
    if a.Enter? {
      assert a.t.node != t.node;
      EnterUsesPass(cfg, s, a.t, t);
    }
  }

  lemma KeepSeenByAll(cfg: Config, s: State, a: Action, t: Thread)
    requires Base(cfg, s) && Enabled(cfg, s, a) && SeenByAll(cfg, s, t) && InRange(cfg, Step(cfg, s, a))
    requires StampOf(cfg, Step(cfg, s, a), t.node) == StampOf(cfg, s, t.node)
    ensures SeenByAll(cfg, Step(cfg, s, a), t)
  {
    var s' := Step(cfg, s, a);
    forall i | 0 <= i < |s'.nodes| && i != t.node ensures StampOf(cfg, s', t.node).seqno <= s'.nodes[i].highest {
      KeepSeqnos(cfg, s, a, i);
    }
  }

  /** Each entry uses up one passer. */
  lemma FewerPassers(cfg: Config, s: State, a: Action, t: Thread)
    requires Inv(cfg, s) && CompleteMembership(cfg) && Enabled(cfg, s, a) && InRange(cfg, Step(cfg, s, a))
    requires Outstanding(s, t) && a != Enter(t) && SeenByAll(cfg, s, t)
    ensures var x := StampOf(cfg, s, t.node);
      |Passers(cfg, Step(cfg, s, a), t.node, x)| + (if a.Enter? then 1 else 0) <= |Passers(cfg, s, t.node, x)|
  {
    var x := StampOf(cfg, s, t.node);
    StepPassers(cfg, s, a, t);
    var p, p' := Passers(cfg, s, t.node, x), Passers(cfg, Step(cfg, s, a), t.node, x);
    if a.Enter? {
      SubsetSize(p', p - {a.t.node});
    } else {
      SubsetSize(p', p);
    }
  }

  lemma {:induction false} PassersBound(cfg: Config, s: State, acts: seq<Action>, t: Thread)
    requires Inv(cfg, s) && CompleteMembership(cfg) && IsRun(cfg, s, acts)
    requires Outstanding(s, t) && Enter(t) !in acts
    requires SeenByAll(cfg, s, t)
    ensures Entries(acts) <= |Passers(cfg, s, t.node, StampOf(cfg, s, t.node))|
    decreases |acts|
  {
    if acts != [] {
      StepInv(cfg, s, acts[0]);
      KeepOutstanding(cfg, s, acts[0], t);
      KeepSeenByAll(cfg, s, acts[0], t);
      FewerPassers(cfg, s, acts[0], t);
      PassersBound(cfg, Step(cfg, s, acts[0]), acts[1..], t);
    }
  }

  lemma {:induction false} SubsetSize(a: set<nat>, b: set<nat>)
    requires a <= b
    ensures |a| <= |b|
  {
    if a != {} {
      var x :| x in a;
      SubsetSize(a - {x}, b - {x});
    }
  }

  ghost function Below(n: nat): set<nat> {
    if n == 0 then {} else Below(n - 1) + {n - 1}
  }

  lemma {:induction false} BelowSize(n: nat)
    ensures |Below(n)| == n
    ensures forall i: nat :: i in Below(n) <==> i < n
  {
    if n > 0 {
      BelowSize(n - 1);
    }
  }

  lemma PassersFew(cfg: Config, s: State, n: nat, x: Stamp)
    requires InRange(cfg, s) && n < |s.nodes|
    ensures |Passers(cfg, s, n, x)| <= |cfg.macs| - 1
  {
    BelowSize(|s.nodes|);
    SubsetSize(Passers(cfg, s, n, x), Below(|s.nodes|) - {n});
  }

  /** Once every other clock has seen a request, at most N - 1 entries precede its own. */
  lemma TotalBypass(cfg: Config, pre: seq<Action>, acts: seq<Action>, t: Thread)
    requires WellFormed(cfg) && DistinctMacs(cfg) && CompleteMembership(cfg)
    requires IsRun(cfg, Initial(cfg), pre) && IsRun(cfg, Exec(cfg, Initial(cfg), pre), acts)
    requires Outstanding(Exec(cfg, Initial(cfg), pre), t) && Enter(t) !in acts
    requires SeenByAll(cfg, Exec(cfg, Initial(cfg), pre), t)
    ensures Entries(acts) <= |cfg.macs| - 1
  {
    var s := Exec(cfg, Initial(cfg), pre);
    InitialInv(cfg);
    RunInv(cfg, Initial(cfg), pre);
    PassersBound(cfg, s, acts, t);
    PassersFew(cfg, s, t.node, StampOf(cfg, s, t.node));
  }
}
