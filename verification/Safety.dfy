/**
 What holds in every run: mutual exclusion, the order of entries, where
 requests are, and how large sequence numbers get. Nothing here depends on
 whether release lowers the request flag.
 */
module Safety {
  import opened Protocol
  import opened Invariants

  // ----- mutual exclusion

  /** No two threads, on one node or on two, are between acquire and release. */
  ghost predicate MutuallyExclusive(s: State) {
    forall t, u :: At(s, t, Critical) && At(s, u, Critical) ==> t == u
  }

  /** In a state with two holders each would have been granted by the other. */
  lemma CriticalUnique(cfg: Config, s: State, t: Thread, u: Thread)
    requires Inv(cfg, s) && CompleteMembership(cfg)
    requires At(s, t, Critical) && At(s, u, Critical)
    ensures t == u
  {
    if t.node != u.node {
      CriticalGranted(cfg, s, t, u.node);
      CriticalGranted(cfg, s, u, t.node);
    }
  }

  lemma CriticalGranted(cfg: Config, s: State, t: Thread, i: nat)
    requires Inv(cfg, s) && CompleteMembership(cfg)
    requires i < |s.nodes| && i != t.node
    requires t in s.threads && (s.threads[t].Critical? || Enabled(cfg, s, Enter(t)))
    ensures Granted(cfg, s, i, StampOf(cfg, s, t.node))
  {
    assert i in cfg.peers[t.node];
    var k :| 0 <= k < |cfg.peers[t.node]| && cfg.peers[t.node][k] == i;
    assert GrantHeld(cfg, s, t, k);
  }

  /** Mutual exclusion in every run, at the finest interleaving. */
  lemma MutualExclusion(cfg: Config, acts: seq<Action>)
    requires WellFormed(cfg) && DistinctMacs(cfg) && CompleteMembership(cfg)
    requires IsRun(cfg, Initial(cfg), acts)
    ensures MutuallyExclusive(Exec(cfg, Initial(cfg), acts))
  {
    InitialInv(cfg);
    RunInv(cfg, Initial(cfg), acts);
    var s := Exec(cfg, Initial(cfg), acts);
    forall t, u | At(s, t, Critical) && At(s, u, Critical) ensures t == u {
      CriticalUnique(cfg, s, t, u);
    }
  }

  // ----- entry order

  /** Everyone else stands behind a past entry, and its own node has not gone back. */
  ghost predicate EntryBehind(cfg: Config, s: State, k: nat)
    requires InRange(cfg, s) && k < |s.entries|
  {
    var e := s.entries[k];
    && e.node < |s.nodes|
    && e.stamp.mac == cfg.macs[e.node]
    && e.stamp.seqno <= s.nodes[e.node].myseqno
    && forall i :: 0 <= i < |s.nodes| && i != e.node ==> Granted(cfg, s, i, e.stamp)
  }

  ghost predicate Ordered(e: Entry, f: Entry) {
    (e.stamp == f.stamp || Before(e.stamp, f.stamp)) && (e.node != f.node ==> Before(e.stamp, f.stamp))
  }

  ghost predicate EntriesOrdered(es: seq<Entry>) {
    forall j, k :: 0 <= j < k < |es| ==> Ordered(es[j], es[k])
  }

  ghost predicate OrderInv(cfg: Config, s: State)
    requires InRange(cfg, s)
  {
    && EntriesOrdered(s.entries)
    && forall k {:trigger EntryBehind(cfg, s, k)} :: 0 <= k < |s.entries| ==> EntryBehind(cfg, s, k)
  }

  lemma KeepEntryBehind(cfg: Config, s: State, a: Action, k: nat)
    requires Inv(cfg, s) && Enabled(cfg, s, a) && CompleteMembership(cfg)
    requires OrderInv(cfg, s) && InRange(cfg, Step(cfg, s, a))
    requires k < |Step(cfg, s, a).entries|
    ensures EntryBehind(cfg, Step(cfg, s, a), k)
  {
    var s' := Step(cfg, s, a);
    var e := s'.entries[k];
    if k < |s.entries| {
      assert EntryBehind(cfg, s, k);
      KeepSeqnos(cfg, s, a, e.node);
      forall i | 0 <= i < |s.nodes| && i != e.node ensures Granted(cfg, s', i, e.stamp) {
        KeepGranted(cfg, s, a, i, e.stamp);
      }
    } else {
      forall i | 0 <= i < |s.nodes| && i != e.node ensures Granted(cfg, s', i, e.stamp) {
        CriticalGranted(cfg, s, a.t, i);
        KeepGranted(cfg, s, a, i, e.stamp);
      }
    }
  }

  lemma StepOrder(cfg: Config, s: State, a: Action)
    requires Inv(cfg, s) && Enabled(cfg, s, a) && CompleteMembership(cfg)
    requires OrderInv(cfg, s) && InRange(cfg, Step(cfg, s, a))
    ensures OrderInv(cfg, Step(cfg, s, a))
  {
    var s' := Step(cfg, s, a);
    forall k | 0 <= k < |s'.entries| ensures EntryBehind(cfg, s', k) {
      KeepEntryBehind(cfg, s, a, k);
    }
    if a.Enter? {
      forall j | 0 <= j < |s.entries| ensures Ordered(s.entries[j], s'.entries[|s.entries|]) {
        assert EntryBehind(cfg, s, j);
        if s.entries[j].node != a.t.node {
          assert Granted(cfg, s, a.t.node, s.entries[j].stamp);
        }
      }
    }
  }

  lemma {:induction false} RunOrder(cfg: Config, s: State, acts: seq<Action>)
    requires Inv(cfg, s) && OrderInv(cfg, s) && CompleteMembership(cfg)
    requires IsRun(cfg, s, acts)
    ensures OrderInv(cfg, Exec(cfg, s, acts))
    decreases |acts|
  {
    if acts != [] {
      StepInv(cfg, s, acts[0]);
      StepOrder(cfg, s, acts[0]);
      RunOrder(cfg, Step(cfg, s, acts[0]), acts[1..]);
    }
  }

  /** Over any run the entries come in stamp order, strictly so when the holder changes node. */
  lemma EntryOrder(cfg: Config, acts: seq<Action>)
    requires WellFormed(cfg) && DistinctMacs(cfg) && CompleteMembership(cfg)
    requires IsRun(cfg, Initial(cfg), acts)
    ensures EntriesOrdered(Exec(cfg, Initial(cfg), acts).entries)
  {
    InitialInv(cfg);
    RunOrder(cfg, Initial(cfg), acts);
  }

  // ----- request conservation

  /** A waiting thread has exactly one call, to the peer whose turn it is. */
  ghost predicate OneCall(cfg: Config, s: State, t: Thread)
    requires InRange(cfg, s) && t in s.threads && s.threads[t].Waiting?
  {
    && s.threads[t].asked < |cfg.peers[t.node]|
    && s.threads[t].call in s.calls
    && s.calls[s.threads[t].call].dst == cfg.peers[t.node][s.threads[t].asked]
    && forall c :: c in s.calls ==> (s.calls[c].src == t <==> c == s.threads[t].call)
  }

  /** Call c is on the list of node n exactly when it is parked there. */
  ghost predicate ListedIffParked(s: State, n: nat, c: CallId)
    requires n < |s.nodes|
  {
    c in s.nodes[n].deferred <==> c in s.calls && s.calls[c].dst == n && s.calls[c].stage == Parked
  }

  /** Entries k and l of one deferred list come from different nodes. */
  ghost predicate FromDifferentNodes(s: State, n: nat, k: nat, l: nat)
    requires n < |s.nodes| && k < l < |s.nodes[n].deferred|
  {
    var c, d := s.nodes[n].deferred[k], s.nodes[n].deferred[l];
    c in s.calls && d in s.calls && s.calls[c].src.node != s.calls[d].src.node
  }

  ghost predicate Conserved(cfg: Config, s: State)
    requires InRange(cfg, s)
  {
    && (forall t :: t in s.threads && s.threads[t].Waiting? ==> OneCall(cfg, s, t))
    && (forall c :: c in s.calls ==> s.calls[c].src in s.threads && s.threads[s.calls[c].src].Waiting?)
    && (forall n, c :: 0 <= n < |s.nodes| ==> ListedIffParked(s, n, c))
    && (forall n, k, l :: 0 <= n < |s.nodes| && 0 <= k < l < |s.nodes[n].deferred| ==> FromDifferentNodes(s, n, k, l))
  }

  lemma InvOneCall(cfg: Config, s: State, t: Thread)
    requires Base(cfg, s) && t in s.threads && s.threads[t].Waiting?
    ensures OneCall(cfg, s, t)
  {
    assert ThreadMatch(cfg, s, t);
    forall c | c in s.calls ensures s.calls[c].src == t <==> c == s.threads[t].call {
      assert CallMatch(cfg, s, c);
    }
  }

  lemma InvListed(cfg: Config, s: State, n: nat, c: CallId)
    requires Base(cfg, s) && n < |s.nodes|
    ensures ListedIffParked(s, n, c)
  {
    if c in s.nodes[n].deferred {
      var k :| 0 <= k < |s.nodes[n].deferred| && s.nodes[n].deferred[k] == c;
      assert DeferredMatch(s, n, k);
    }
  }

  lemma InvDifferentNodes(cfg: Config, s: State, n: nat, k: nat, l: nat)
    requires Base(cfg, s) && n < |s.nodes| && k < l < |s.nodes[n].deferred|
    ensures FromDifferentNodes(s, n, k, l)
  {
    assert DeferredMatch(s, n, k) && DeferredMatch(s, n, l);
    assert CallMatch(cfg, s, s.nodes[n].deferred[k]) && CallMatch(cfg, s, s.nodes[n].deferred[l]);
  }

  /** In every reachable state each unanswered request is in exactly one place. */
  lemma Conservation(cfg: Config, acts: seq<Action>)
    requires WellFormed(cfg) && IsRun(cfg, Initial(cfg), acts)
    ensures Conserved(cfg, Exec(cfg, Initial(cfg), acts))
  {
    InitialBase(cfg);
    RunBase(cfg, Initial(cfg), acts);
    var s := Exec(cfg, Initial(cfg), acts);
    forall t | t in s.threads && s.threads[t].Waiting? ensures OneCall(cfg, s, t) {
      InvOneCall(cfg, s, t);
    }
    forall c | c in s.calls ensures s.calls[c].src in s.threads && s.threads[s.calls[c].src].Waiting? {
      assert CallMatch(cfg, s, c);
    }
    forall n, c | 0 <= n < |s.nodes| ensures ListedIffParked(s, n, c) {
      InvListed(cfg, s, n, c);
    }
    forall n, k, l | 0 <= n < |s.nodes| && 0 <= k < l < |s.nodes[n].deferred| ensures FromDifferentNodes(s, n, k, l) {
      InvDifferentNodes(cfg, s, n, k, l);
    }
  }

  /** Who has answered thread t in its current acquire, in order, after one more action. */
  ghost function Tally(cfg: Config, s: State, a: Action, t: Thread, sofar: seq<nat>): seq<nat>
    requires InRange(cfg, s) && Enabled(cfg, s, a)
  {
    if a == Arrive(t) then [] else if a == Receive(t) then sofar + [s.calls[s.threads[t].call].dst] else sofar
  }

  ghost function AnswersOf(cfg: Config, s: State, acts: seq<Action>, t: Thread, sofar: seq<nat>): seq<nat>
    requires IsRun(cfg, s, acts)
    decreases |acts|
  {
    if acts == [] then sofar
    else AnswersOf(cfg, Step(cfg, s, acts[0]), acts[1..], t, Tally(cfg, s, acts[0], t, sofar))
  }

  ghost predicate TallyRight(cfg: Config, s: State, t: Thread, sofar: seq<nat>)
    requires InRange(cfg, s)
  {
    t in s.threads && !s.threads[t].Flushed? ==>
      var k := Replies(cfg, s.threads[t], t.node);
      k <= |cfg.peers[t.node]| && sofar == cfg.peers[t.node][..k]
  }

  lemma StepTally(cfg: Config, s: State, a: Action, t: Thread, sofar: seq<nat>)
    requires InRange(cfg, s) && Enabled(cfg, s, a) && TallyRight(cfg, s, t, sofar)
    requires InRange(cfg, Step(cfg, s, a)) && (t in s.threads ==> ThreadMatch(cfg, s, t))
    ensures TallyRight(cfg, Step(cfg, s, a), t, Tally(cfg, s, a, t, sofar))
  {
    if a == Receive(t) {
      var p, k := cfg.peers[t.node], s.threads[t].asked;
      assert p[..k + 1] == p[..k] + [p[k]];
    }
  }

  lemma {:induction false} RunTally(cfg: Config, s: State, acts: seq<Action>, t: Thread, sofar: seq<nat>)
    requires Base(cfg, s) && IsRun(cfg, s, acts) && TallyRight(cfg, s, t, sofar)
    ensures TallyRight(cfg, Exec(cfg, s, acts), t, AnswersOf(cfg, s, acts, t, sofar))
    decreases |acts|
  {
    if acts != [] {
      assert t in s.threads ==> ThreadMatch(cfg, s, t);
      StepTally(cfg, s, acts[0], t, sofar);
      StepBase(cfg, s, acts[0]);
      RunTally(cfg, Step(cfg, s, acts[0]), acts[1..], t, Tally(cfg, s, acts[0], t, sofar));
    }
  }

  /** A completed acquire has been answered by exactly the entries of the node list, each once, in their order. */
  lemma OneAnswerPerPeer(cfg: Config, acts: seq<Action>, t: Thread)
    requires IsRun(cfg, Initial(cfg), acts)
    requires At(Exec(cfg, Initial(cfg), acts), t, Critical)
    ensures t.node < |cfg.peers| && AnswersOf(cfg, Initial(cfg), acts, t, []) == cfg.peers[t.node]
  {
    InitialBase(cfg);
    RunTally(cfg, Initial(cfg), acts, t, []);
    var p := cfg.peers[t.node];
    assert p[..|p|] == p;
  }

  // ----- clock bounds

  /** How many acquires of the run have read their clock. */
  ghost function Begun(acts: seq<Action>): nat
    decreases |acts|
  {
    if acts == [] then 0 else (if acts[0].ReadClock? then 1 else 0) + Begun(acts[1..])
  }

  ghost predicate Bounded(cfg: Config, s: State, b: int)
    requires InRange(cfg, s)
  {
    && (forall n :: 0 <= n < |s.nodes| ==> s.nodes[n].highest <= b && s.nodes[n].myseqno <= b)
    && (forall t :: t in s.threads && s.threads[t].ClockRead? ==> s.threads[t].clock + 1 <= b)
    && (forall c :: c in s.calls ==> s.calls[c].stamp.seqno <= b)
  }

  lemma NodeBounded(cfg: Config, s: State, a: Action, b: int, n: nat)
    requires InRange(cfg, s) && Enabled(cfg, s, a) && Bounded(cfg, s, b) && n < |s.nodes|
    ensures Step(cfg, s, a).nodes[n].highest <= b && Step(cfg, s, a).nodes[n].myseqno <= b
  {
  }

  lemma CallBounded(cfg: Config, s: State, a: Action, b: int, c: CallId)
    requires InRange(cfg, s) && Enabled(cfg, s, a) && Bounded(cfg, s, b) && c in Step(cfg, s, a).calls
    ensures Step(cfg, s, a).calls[c].stamp.seqno <= b
  {
  }

  lemma ThreadBounded(cfg: Config, s: State, a: Action, b: int, t: Thread)
    requires InRange(cfg, s) && Enabled(cfg, s, a) && Bounded(cfg, s, b)
    requires t in Step(cfg, s, a).threads && Step(cfg, s, a).threads[t].ClockRead?
    ensures Step(cfg, s, a).threads[t].clock + 1 <= b + if a.ReadClock? then 1 else 0
  {
  }

  lemma StepBounded(cfg: Config, s: State, a: Action, b: int)
    requires InRange(cfg, s) && Enabled(cfg, s, a) && Bounded(cfg, s, b)
    requires InRange(cfg, Step(cfg, s, a))
    ensures Bounded(cfg, Step(cfg, s, a), b + if a.ReadClock? then 1 else 0)
  {
    var s' := Step(cfg, s, a);
    forall n | 0 <= n < |s'.nodes| ensures s'.nodes[n].highest <= b && s'.nodes[n].myseqno <= b {
      NodeBounded(cfg, s, a, b, n);
    }
    forall c | c in s'.calls ensures s'.calls[c].stamp.seqno <= b {
      CallBounded(cfg, s, a, b, c);
    }
    forall t | t in s'.threads && s'.threads[t].ClockRead?
      ensures s'.threads[t].clock + 1 <= b + if a.ReadClock? then 1 else 0
    {
      ThreadBounded(cfg, s, a, b, t);
    }
  }

  lemma {:induction false} RunBounded(cfg: Config, s: State, acts: seq<Action>, b: int)
    requires Base(cfg, s) && IsRun(cfg, s, acts) && Bounded(cfg, s, b)
    ensures Bounded(cfg, Exec(cfg, s, acts), b + Begun(acts))
    decreases |acts|
  {
    if acts != [] {
      StepBase(cfg, s, acts[0]);
      StepBounded(cfg, s, acts[0], b);
      RunBounded(cfg, Step(cfg, s, acts[0]), acts[1..], b + if acts[0].ReadClock? then 1 else 0);
    }
  }

  const INT_MAX: int := 0x7FFF_FFFF

  /**
   Every sequence number in the system is at most the number of acquires that
   have read their clock, so a 32-bit int holds them all, the next number
   included, in runs with fewer than 2^31 - 1 acquires.
   */
  lemma ClockBound(cfg: Config, acts: seq<Action>)
    requires WellFormed(cfg) && IsRun(cfg, Initial(cfg), acts)
    ensures var s := Exec(cfg, Initial(cfg), acts);
      && Bounded(cfg, s, Begun(acts))
      && (forall n :: 0 <= n < |s.nodes| ==> 0 <= s.nodes[n].myseqno <= s.nodes[n].highest + 1)
      && (Begun(acts) < INT_MAX ==> forall n :: 0 <= n < |s.nodes| ==> s.nodes[n].highest + 1 <= INT_MAX)
  {
    InitialBase(cfg);
    RunBase(cfg, Initial(cfg), acts);
    RunBounded(cfg, Initial(cfg), acts, 0);
  }

  /** Clocks and sequence numbers never go back, over any stretch of any run. */
  lemma {:induction false} Monotone(cfg: Config, s: State, acts: seq<Action>, n: nat)
    requires Base(cfg, s) && IsRun(cfg, s, acts) && n < |s.nodes|
    ensures var s' := Exec(cfg, s, acts);
      && |s'.nodes| == |s.nodes|
      && s.nodes[n].myseqno <= s'.nodes[n].myseqno
      && s.nodes[n].highest <= s'.nodes[n].highest
    decreases |acts|
  {
    if acts != [] {
      StepBase(cfg, s, acts[0]);
      KeepSeqnos(cfg, s, acts[0], n);
      Monotone(cfg, Step(cfg, s, acts[0]), acts[1..], n);
    }
  }
}
