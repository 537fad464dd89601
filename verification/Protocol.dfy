/**
 The Ricart & Agrawala lock protocol as the lock server runs it, for one lock
 number, over any number of nodes and any number of local threads per node.

 Every action is one access to shared memory or one message event, so the
 statements of the acquire and request handlers interleave freely:

   acquire   Arrive, TakeLocal, RaiseFlag, ReadClock, WriteSeqno,
             (Send, Receive)*, Enter
   request   UpdateClock, TestFlag, TestGreater, TestTie, Park
   release   Flush, Unlock

 A handler stops testing as soon as its answer is known, exactly as the
 short-circuit condition of the source does.
 */
module Protocol {

  type CallId = nat

  /** What a request is ordered by: the sequence number, ties broken by the hardware address. */
  datatype Stamp = Stamp(seqno: int, mac: nat)

  predicate Before(a: Stamp, b: Stamp) {
    a.seqno < b.seqno || (a.seqno == b.seqno && a.mac < b.mac)
  }

  /** One node's lock variables. `deferred` lists the parked requests. */
  datatype LockRec = LockRec(
    locked: bool,
    requesting: bool,
    myseqno: int,
    highest: int,
    deferred: seq<CallId>)

  const FRESH: LockRec := LockRec(false, false, 0, 0, [])

  // The effect of each statement on the lock variables.

  function Taken(v: LockRec): LockRec { v.(locked := true) }

  function Raised(v: LockRec): LockRec { v.(requesting := true) }

  function Numbered(v: LockRec, clock: int): LockRec { v.(myseqno := clock + 1) }

  function Clocked(v: LockRec, seqno: int): LockRec {
    v.(highest := if seqno > v.highest then seqno else v.highest)
  }

  function Appended(v: LockRec, c: CallId): LockRec { v.(deferred := v.deferred + [c]) }

  /** `clears` selects whether release lowers the request flag; the source does not. */
  function Emptied(v: LockRec, clears: bool): LockRec {
    v.(deferred := [], requesting := v.requesting && !clears)
  }

  function Freed(v: LockRec): LockRec { v.(locked := false) }

  /** A local thread inside one acquire ... release cycle. */
  datatype Thread = Thread(node: nat, id: nat)

  datatype Phase =
    | Blocked                             // called acquire, waits for the local mutex
    | Locked                              // holds the local mutex
    | Flagged                             // request flag raised
    | ClockRead(clock: int)               // clock read, sequence number not yet written
    | Asking(asked: nat)                  // `asked` peers have answered
    | Waiting(asked: nat, call: CallId)   // next peer called, answer outstanding
    | Critical                            // acquire has returned
    | Flushed                             // release has woken the parked requests

  /** How far the peer's handler has got with one request. */
  datatype Stage =
    | InFlight
    | ClockDone
    | FlagSeen
    | NotGreater
    | MustDefer
    | Parked
    | Answered

  datatype Call = Call(src: Thread, dst: nat, stamp: Stamp, stage: Stage)

  datatype Entry = Entry(node: nat, stamp: Stamp)

  /** `entries` records, in order, every entry into the critical section. */
  datatype State = State(
    nodes: seq<LockRec>,
    threads: map<Thread, Phase>,
    calls: map<CallId, Call>,
    entries: seq<Entry>)

  /** `peers[i]` is the `nodes` array of server i, as indices of servers. */
  datatype Config = Config(macs: seq<nat>, peers: seq<seq<nat>>, clears: bool)

  ghost predicate WellFormed(cfg: Config) {
    && |cfg.macs| == |cfg.peers|
    && forall i, k :: 0 <= i < |cfg.peers| && 0 <= k < |cfg.peers[i]| ==> cfg.peers[i][k] < |cfg.macs|
  }

  ghost predicate DistinctMacs(cfg: Config) {
    forall i, j :: 0 <= i < |cfg.macs| && 0 <= j < |cfg.macs| && i != j ==> cfg.macs[i] != cfg.macs[j]
  }

  /** Every server lists every other server; repeats and its own name are harmless. */
  ghost predicate CompleteMembership(cfg: Config) {
    forall i, j :: 0 <= i < |cfg.peers| && 0 <= j < |cfg.peers| && i != j ==> j in cfg.peers[i]
  }

  function Initial(cfg: Config): State {
    State(seq(|cfg.macs|, _ => FRESH), map[], map[], [])
  }

  datatype Action =
    | Arrive(t: Thread)
    | TakeLocal(t: Thread)
    | RaiseFlag(t: Thread)
    | ReadClock(t: Thread)
    | WriteSeqno(t: Thread)
    | Send(t: Thread, c: CallId)
    | UpdateClock(c: CallId)
    | TestFlag(c: CallId)
    | TestGreater(c: CallId)
    | TestTie(c: CallId)
    | Park(c: CallId)
    | Receive(t: Thread)
    | Enter(t: Thread)
    | Flush(t: Thread)
    | Unlock(t: Thread)

  /** The action is a step of the request handler. */
  ghost predicate IsHandler(a: Action) {
    a.UpdateClock? || a.TestFlag? || a.TestGreater? || a.TestTie? || a.Park?
  }

  /** Indices are in range; part of every reachable state. */
  ghost predicate InRange(cfg: Config, s: State) {
    && WellFormed(cfg)
    && |s.nodes| == |cfg.macs|
    && (forall t :: t in s.threads ==> t.node < |s.nodes|)
    && (forall c :: c in s.calls ==> s.calls[c].dst < |s.nodes|)
  }

  ghost predicate At(s: State, t: Thread, p: Phase) {
    t in s.threads && s.threads[t] == p
  }

  ghost predicate On(s: State, c: CallId, g: Stage) {
    c in s.calls && s.calls[c].stage == g
  }

  ghost predicate Enabled(cfg: Config, s: State, a: Action)
    requires InRange(cfg, s)
  {
    match a
    case Arrive(t) => t !in s.threads && t.node < |s.nodes|
    case TakeLocal(t) => At(s, t, Blocked) && !s.nodes[t.node].locked
    case RaiseFlag(t) => At(s, t, Locked)
    case ReadClock(t) => At(s, t, Flagged)
    case WriteSeqno(t) => t in s.threads && s.threads[t].ClockRead?
    case Send(t, c) =>
      && t in s.threads && s.threads[t].Asking?
      && s.threads[t].asked < |cfg.peers[t.node]|
      && c !in s.calls
    case UpdateClock(c) => On(s, c, InFlight)
    case TestFlag(c) => On(s, c, ClockDone)
    case TestGreater(c) => On(s, c, FlagSeen)
    case TestTie(c) => On(s, c, NotGreater)
    case Park(c) => On(s, c, MustDefer)
    case Receive(t) =>
      t in s.threads && s.threads[t].Waiting? && On(s, s.threads[t].call, Answered)
    case Enter(t) =>
      t in s.threads && s.threads[t].Asking? && s.threads[t].asked == |cfg.peers[t.node]|
    case Flush(t) => At(s, t, Critical)
    case Unlock(t) => At(s, t, Flushed)
  }

  ghost function StampOf(cfg: Config, s: State, n: nat): Stamp
    requires n < |s.nodes| && n < |cfg.macs|
  {
    Stamp(s.nodes[n].myseqno, cfg.macs[n])
  }

  ghost function SetPhase(s: State, t: Thread, p: Phase): State {
    s.(threads := s.threads[t := p])
  }

  ghost function SetNode(s: State, n: nat, v: LockRec): State
    requires n < |s.nodes|
  {
    s.(nodes := s.nodes[n := v])
  }

  ghost function SetStage(s: State, c: CallId, g: Stage): State
    requires c in s.calls
  {
    s.(calls := s.calls[c := s.calls[c].(stage := g)])
  }

  /** The stage a test leads to, for a request stamped x at a node with the given variables and address. */
  ghost function Outcome(a: Action, v: LockRec, x: Stamp, mac: nat): Stage {
    match a
    case TestFlag(_) => if v.requesting then FlagSeen else Answered
    case TestGreater(_) => if x.seqno > v.myseqno then MustDefer else NotGreater
    case _ => if x.seqno == v.myseqno && x.mac > mac then MustDefer else Answered
  }

  /** Waking the parked requests lets each of their handlers return an answer. */
  ghost function Woken(calls: map<CallId, Call>, parked: seq<CallId>): map<CallId, Call> {
    map c | c in calls :: if c in parked then calls[c].(stage := Answered) else calls[c]
  }

  ghost function Step(cfg: Config, s: State, a: Action): State
    requires InRange(cfg, s) && Enabled(cfg, s, a)
  {
    match a
    case Arrive(t) => SetPhase(s, t, Blocked)
    case TakeLocal(t) => SetPhase(SetNode(s, t.node, Taken(s.nodes[t.node])), t, Locked)
    case RaiseFlag(t) => SetPhase(SetNode(s, t.node, Raised(s.nodes[t.node])), t, Flagged)
    case ReadClock(t) => SetPhase(s, t, ClockRead(s.nodes[t.node].highest))
    case WriteSeqno(t) =>
      SetPhase(SetNode(s, t.node, Numbered(s.nodes[t.node], s.threads[t].clock)), t, Asking(0))
    case Send(t, c) =>
      var k := s.threads[t].asked;
      var call := Call(t, cfg.peers[t.node][k], StampOf(cfg, s, t.node), InFlight);
      SetPhase(s.(calls := s.calls[c := call]), t, Waiting(k, c))
    case UpdateClock(c) =>
      var call := s.calls[c];
      SetStage(SetNode(s, call.dst, Clocked(s.nodes[call.dst], call.stamp.seqno)), c, ClockDone)
    case TestFlag(c) =>
      SetStage(s, c, Outcome(a, s.nodes[s.calls[c].dst], s.calls[c].stamp, cfg.macs[s.calls[c].dst]))
    case TestGreater(c) =>
      SetStage(s, c, Outcome(a, s.nodes[s.calls[c].dst], s.calls[c].stamp, cfg.macs[s.calls[c].dst]))
    case TestTie(c) =>
      SetStage(s, c, Outcome(a, s.nodes[s.calls[c].dst], s.calls[c].stamp, cfg.macs[s.calls[c].dst]))
    case Park(c) =>
      var call := s.calls[c];
      SetStage(SetNode(s, call.dst, Appended(s.nodes[call.dst], c)), c, Parked)
    case Receive(t) =>
      var w := s.threads[t];
      SetPhase(s.(calls := s.calls - {w.call}), t, Asking(w.asked + 1))
    case Enter(t) =>
      SetPhase(s.(entries := s.entries + [Entry(t.node, StampOf(cfg, s, t.node))]), t, Critical)
    case Flush(t) =>
      var v := s.nodes[t.node];
      SetPhase(SetNode(s.(calls := Woken(s.calls, v.deferred)), t.node, Emptied(v, cfg.clears)), t, Flushed)
    case Unlock(t) =>
      SetNode(s.(threads := s.threads - {t}), t.node, Freed(s.nodes[t.node]))
  }

  lemma StepInRange(cfg: Config, s: State, a: Action)
    requires InRange(cfg, s) && Enabled(cfg, s, a)
    ensures InRange(cfg, Step(cfg, s, a))
  {
  }

  /** A run is a sequence of actions, each enabled where it is taken. */
  ghost predicate IsRun(cfg: Config, s: State, acts: seq<Action>)
    decreases |acts|
  {
    InRange(cfg, s) &&
    (acts != [] ==>
       Enabled(cfg, s, acts[0]) && IsRun(cfg, Step(cfg, s, acts[0]), acts[1..]))
  }

  ghost function Exec(cfg: Config, s: State, acts: seq<Action>): (r: State)
    requires IsRun(cfg, s, acts)
    ensures InRange(cfg, r)
    decreases |acts|
  {
    if acts == [] then s else Exec(cfg, Step(cfg, s, acts[0]), acts[1..])
  }

  ghost predicate Leads(cfg: Config, s: State, acts: seq<Action>, s': State) {
    IsRun(cfg, s, acts) && Exec(cfg, s, acts) == s'
  }

  lemma LeadsOne(cfg: Config, s: State, a: Action, s': State)
    requires InRange(cfg, s) && Enabled(cfg, s, a) && Step(cfg, s, a) == s'
    ensures Leads(cfg, s, [a], s')
  {
    StepInRange(cfg, s, a);
    assert [a][1..] == [];
  }

  lemma LeadsMore(cfg: Config, s: State, a: Action, s1: State, acts: seq<Action>, s': State)
    requires InRange(cfg, s) && Enabled(cfg, s, a) && Step(cfg, s, a) == s1 && Leads(cfg, s1, acts, s')
    ensures Leads(cfg, s, [a] + acts, s')
  {
    assert ([a] + acts)[1..] == acts;
  }

  lemma LeadsFirst(cfg: Config, s: State, acts: seq<Action>, s': State) returns (s1: State)
    requires Leads(cfg, s, acts, s') && acts != []
    ensures InRange(cfg, s) && Enabled(cfg, s, acts[0]) && s1 == Step(cfg, s, acts[0]) && Leads(cfg, s1, acts[1..], s')
  {
    s1 := Step(cfg, s, acts[0]);
  }

  lemma {:induction false} LeadsConcat(cfg: Config, s: State, a: seq<Action>, s1: State, b: seq<Action>, s2: State)
    requires Leads(cfg, s, a, s1) && Leads(cfg, s1, b, s2)
    ensures Leads(cfg, s, a + b, s2)
    decreases |a|
  {
    if a == [] {
      assert a + b == b;
    } else {
      var s0 := LeadsFirst(cfg, s, a, s1);
      LeadsConcat(cfg, s0, a[1..], s1, b, s2);
      LeadsMore(cfg, s, a[0], s0, a[1..] + b, s2);
      assert a + b == [a[0]] + (a[1..] + b);
    }
  }

  /** Runs compose. */
  lemma ExecConcat(cfg: Config, s: State, a: seq<Action>, b: seq<Action>)
    requires IsRun(cfg, s, a) && IsRun(cfg, Exec(cfg, s, a), b)
    ensures IsRun(cfg, s, a + b)
    ensures Exec(cfg, s, a + b) == Exec(cfg, Exec(cfg, s, a), b)
  {
    LeadsConcat(cfg, s, a, Exec(cfg, s, a), b, Exec(cfg, Exec(cfg, s, a), b));
  }
}
