/**
 The premises of mutual exclusion are exact: it holds in every run if and only
 if the hardware addresses are distinct and every server lists every other.
 */
module Premises {
  import opened Protocol
  import opened Invariants
  import opened Safety
  import opened Moves

  ghost predicate CanReach(cfg: Config, s: State, s': State) {
    exists acts :: Leads(cfg, s, acts, s')
  }

  lemma ThenReach(cfg: Config, s: State, s1: State, s2: State)
    requires CanReach(cfg, s, s1) && CanReach(cfg, s1, s2)
    ensures CanReach(cfg, s, s2)
  {
    var a :| Leads(cfg, s, a, s1);
    var b :| Leads(cfg, s1, b, s2);
    ExecConcat(cfg, s, a, b);
    assert Leads(cfg, s, a + b, s2);
  }

  lemma ByMove(cfg: Config, s: State, m: Move, s': State)
    requires InRange(cfg, s) && Allowed(cfg, s, m) && Result(cfg, s, m) == s'
    ensures CanReach(cfg, s, s')
  {
    MoveIsBurst(cfg, s, m);
    assert Leads(cfg, s, Burst(cfg, s, m), s');
  }

  /** Thread t has taken its free node's mutex and chosen its number. */
  ghost function Enlisted(s: State, t: Thread): State
    requires t.node < |s.nodes|
  {
    var v := s.nodes[t.node];
    SetPhase(SetNode(s, t.node, Numbered(Raised(Taken(v)), v.highest)), t, Asking(0))
  }

  lemma Enlist(cfg: Config, s: State, t: Thread)
    requires InRange(cfg, s) && t.node < |s.nodes| && t !in s.threads && !s.nodes[t.node].locked
    ensures CanReach(cfg, s, Enlisted(s, t))
  {
    var s1 := Result(cfg, s, Join(t));
    ByMove(cfg, s, Join(t), s1);
    var s2 := Result(cfg, s1, Take(t));
    ByMove(cfg, s1, Take(t), s2);
    var s3 := Result(cfg, s2, Begin(t));
    ByMove(cfg, s2, Begin(t), s3);
    assert s3.threads == Enlisted(s, t).threads && s3.nodes == Enlisted(s, t).nodes;
    ThenReach(cfg, s, s1, s2);
    ThenReach(cfg, s, s2, s3);
  }

  /** The k-th peer would not park a request of t. */
  ghost predicate Complies(cfg: Config, s: State, t: Thread, k: nat)
    requires InRange(cfg, s) && t.node < |s.nodes| && k < |cfg.peers[t.node]|
  {
    var p := cfg.peers[t.node][k];
    !Defers(s.nodes[p], cfg.macs[p], StampOf(cfg, s, t.node))
  }

  /** The same state but for some clocks and the phase of t. */
  ghost predicate OnlyClocks(s: State, s': State, t: Thread, p: Phase) {
    && |s'.nodes| == |s.nodes|
    && (forall n :: 0 <= n < |s.nodes| ==> s'.nodes[n] == s.nodes[n].(highest := s'.nodes[n].highest))
    && s'.threads == s.threads[t := p]
    && s'.calls == map[]
  }

  /** Thread t waits for its k-th peer, whose call is the only one. */
  ghost function Calling(cfg: Config, s: State, t: Thread, k: nat, g: Stage): State
    requires InRange(cfg, s) && t.node < |s.nodes| && k < |cfg.peers[t.node]|
  {
    var call := Call(t, cfg.peers[t.node][k], StampOf(cfg, s, t.node), g);
    SetPhase(s.(calls := map[0 := call]), t, Waiting(k, 0))
  }

  lemma AskReach(cfg: Config, s: State, t: Thread, k: nat)
    requires InRange(cfg, s) && At(s, t, Asking(k)) && k < |cfg.peers[t.node]| && s.calls == map[]
    ensures InRange(cfg, Calling(cfg, s, t, k, InFlight)) && CanReach(cfg, s, Calling(cfg, s, t, k, InFlight))
  {
    ByMove(cfg, s, Ask(t, 0), Calling(cfg, s, t, k, InFlight));
  }

  lemma AnswerReach(cfg: Config, s: State, t: Thread, k: nat) returns (s': State)
    requires InRange(cfg, s) && t in s.threads && k < |cfg.peers[t.node]| && Complies(cfg, s, t, k)
    requires InRange(cfg, Calling(cfg, s, t, k, InFlight))
    ensures InRange(cfg, s') && CanReach(cfg, Calling(cfg, s, t, k, InFlight), s')
    ensures |s'.nodes| == |s.nodes| && s'.threads == s.threads[t := Waiting(k, 0)] && s'.calls.Keys == {0}
    ensures s'.calls[0].stage == Answered && s'.entries == s.entries
    ensures forall n :: 0 <= n < |s.nodes| ==> s'.nodes[n] == s.nodes[n].(highest := s'.nodes[n].highest)
  {
    var s1 := Calling(cfg, s, t, k, InFlight);
    s' := Result(cfg, s1, Handle(0));
    ByMove(cfg, s1, Handle(0), s');
  }

  lemma HearReach(cfg: Config, s: State, t: Thread, k: nat) returns (s': State)
    requires InRange(cfg, s) && At(s, t, Waiting(k, 0)) && s.calls.Keys == {0} && s.calls[0].stage == Answered
    ensures InRange(cfg, s') && CanReach(cfg, s, s') && OnlyClocks(s, s', t, Asking(k + 1)) && s'.entries == s.entries
  {
    s' := Result(cfg, s, Hear(t));
    ByMove(cfg, s, Hear(t), s');
  }

  lemma AskOne(cfg: Config, s: State, t: Thread, k: nat) returns (s': State)
    requires InRange(cfg, s) && At(s, t, Asking(k)) && k < |cfg.peers[t.node]|
    requires s.calls == map[] && Complies(cfg, s, t, k)
    ensures InRange(cfg, s') && CanReach(cfg, s, s') && OnlyClocks(s, s', t, Asking(k + 1)) && s'.entries == s.entries
  {
    AskReach(cfg, s, t, k);
    var s2 := AnswerReach(cfg, s, t, k);
    s' := HearReach(cfg, s2, t, k);
    ThenReach(cfg, s, Calling(cfg, s, t, k, InFlight), s2);
    ThenReach(cfg, s, s2, s');
  }

  /** A thread whose next peers, up to the n-th, would not park it gets their answers. */
  lemma {:induction false} AskUpTo(cfg: Config, s: State, t: Thread, k: nat, n: nat) returns (s': State)
    requires InRange(cfg, s) && At(s, t, Asking(k)) && k <= n <= |cfg.peers[t.node]| && s.calls == map[]
    requires forall j :: 0 <= j < n ==> Complies(cfg, s, t, j)
    ensures InRange(cfg, s') && CanReach(cfg, s, s') && OnlyClocks(s, s', t, Asking(n)) && s'.entries == s.entries
    decreases n - k
  {
    if k == n {
      assert Leads(cfg, s, [], s);
      s' := s;
      assert s.threads == s.threads[t := Asking(k)];
    } else {
      var s1 := AskOne(cfg, s, t, k);
      forall j | 0 <= j < n ensures Complies(cfg, s1, t, j) {
        assert Complies(cfg, s, t, j);
      }
      s' := AskUpTo(cfg, s1, t, k + 1, n);
      ThenReach(cfg, s, s1, s');
    }
  }

  lemma Admit(cfg: Config, s: State, t: Thread) returns (s': State)
    requires InRange(cfg, s) && At(s, t, Asking(0)) && s.calls == map[]
    requires forall j :: 0 <= j < |cfg.peers[t.node]| ==> Complies(cfg, s, t, j)
    ensures InRange(cfg, s') && CanReach(cfg, s, s') && OnlyClocks(s, s', t, Critical)
  {
    var s1 := AskUpTo(cfg, s, t, 0, |cfg.peers[t.node]|);
    s' := Result(cfg, s1, Proceed(t));
    ByMove(cfg, s1, Proceed(t), s');
    ThenReach(cfg, s, s1, s');
  }

  /** A server that does not list another enters while that one holds the lock. */
  lemma MissingPeerBreaks(cfg: Config, i: nat, j: nat) returns (s: State)
    requires WellFormed(cfg) && i < |cfg.macs| && j < |cfg.macs| && i != j && j !in cfg.peers[i]
    ensures CanReach(cfg, Initial(cfg), s) && !MutuallyExclusive(s)
  {
    var s0 := Initial(cfg);
    var t, u := Thread(i, 0), Thread(j, 0);
    Enlist(cfg, s0, u);
    var s1 := Enlisted(s0, u);
    var s2 := Admit(cfg, s1, u);
    Enlist(cfg, s2, t);
    var s3 := Enlisted(s2, t);
    s := Admit(cfg, s3, t);
    ThenReach(cfg, s0, s1, s2);
    ThenReach(cfg, s0, s2, s3);
    ThenReach(cfg, s0, s3, s);
    assert At(s, t, Critical) && At(s, u, Critical);
  }

  /** Two threads of different nodes have both chosen number 1 and asked nobody yet. */
  ghost predicate BothBegun(cfg: Config, s: State, t: Thread, u: Thread) {
    && InRange(cfg, s) && t.node != u.node
    && At(s, t, Asking(0)) && At(s, u, Asking(0)) && s.calls == map[]
    && forall n :: 0 <= n < |s.nodes| ==>
      s.nodes[n].requesting == (n == t.node || n == u.node) && (s.nodes[n].requesting ==> s.nodes[n].myseqno == 1)
  }

  lemma BeginBoth(cfg: Config, t: Thread, u: Thread) returns (s: State)
    requires WellFormed(cfg) && t.node < |cfg.macs| && u.node < |cfg.macs| && t.node != u.node
    ensures CanReach(cfg, Initial(cfg), s) && BothBegun(cfg, s, t, u)
  {
    var s0 := Initial(cfg);
    Enlist(cfg, s0, t);
    var s1 := Enlisted(s0, t);
    Enlist(cfg, s1, u);
    s := Enlisted(s1, u);
    ThenReach(cfg, s0, s1, s);
  }

  lemma AdmitBoth(cfg: Config, s: State, t: Thread, u: Thread) returns (s': State)
    requires BothBegun(cfg, s, t, u) && cfg.macs[t.node] == cfg.macs[u.node]
    ensures CanReach(cfg, s, s') && !MutuallyExclusive(s')
  {
    var s1 := Admit(cfg, s, t);
    s' := Admit(cfg, s1, u);
    ThenReach(cfg, s, s1, s');
    assert At(s', t, Critical) && At(s', u, Critical);
  }

  /** Two servers with one address and equal numbers each answer the other. */
  lemma EqualMacsBreak(cfg: Config, i: nat, j: nat) returns (s: State)
    requires WellFormed(cfg) && i < |cfg.macs| && j < |cfg.macs| && i != j && cfg.macs[i] == cfg.macs[j]
    ensures CanReach(cfg, Initial(cfg), s) && !MutuallyExclusive(s)
  {
    var t, u := Thread(i, 0), Thread(j, 0);
    var s1 := BeginBoth(cfg, t, u);
    s := AdmitBoth(cfg, s1, t, u);
    ThenReach(cfg, Initial(cfg), s1, s);
  }

  ghost predicate AlwaysExclusive(cfg: Config) {
    forall acts :: IsRun(cfg, Initial(cfg), acts) ==> MutuallyExclusive(Exec(cfg, Initial(cfg), acts))
  }

  /** Mutual exclusion in every run, if and only if addresses are distinct and membership is complete. */
  lemma ExactPremises(cfg: Config)
    requires WellFormed(cfg)
    ensures AlwaysExclusive(cfg) <==> DistinctMacs(cfg) && CompleteMembership(cfg)
  {
    if DistinctMacs(cfg) && CompleteMembership(cfg) {
      forall acts | IsRun(cfg, Initial(cfg), acts) ensures MutuallyExclusive(Exec(cfg, Initial(cfg), acts)) {
        MutualExclusion(cfg, acts);
      }
    } else {
      var s;
      if !CompleteMembership(cfg) {
        var i, j :| 0 <= i < |cfg.peers| && 0 <= j < |cfg.peers| && i != j && j !in cfg.peers[i];
        s := MissingPeerBreaks(cfg, i, j);
      } else {
        var i, j :| 0 <= i < |cfg.macs| && 0 <= j < |cfg.macs| && i != j && cfg.macs[i] == cfg.macs[j];
        s := EqualMacsBreak(cfg, i, j);
      }
      var acts :| Leads(cfg, Initial(cfg), acts, s);
    }
  }
}
