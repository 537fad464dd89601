/**
 The protocol at the granularity of handlers: choosing a sequence number and
 handling a request each happen without interruption. A move is a burst of
 protocol actions, so every play of moves is a run, and what holds of all runs
 holds of all plays.
 */
module Moves {
  import opened Protocol
  import opened Invariants

  datatype Move =
    | Join(t: Thread)
    | Take(t: Thread)
    | Begin(t: Thread)
    | Ask(t: Thread, c: CallId)
    | Handle(c: CallId)
    | Hear(t: Thread)
    | Proceed(t: Thread)
    | Release(t: Thread)
    | Leave(t: Thread)

  /** The condition under which the request handler parks its caller. */
  predicate Defers(v: LockRec, mac: nat, x: Stamp) {
    v.requesting && (x.seqno > v.myseqno || (x.seqno == v.myseqno && x.mac > mac))
  }

  /** The handler's condition is the stamp order. */
  lemma DefersIsBefore(v: LockRec, mac: nat, x: Stamp)
    ensures Defers(v, mac, x) <==> v.requesting && Before(Stamp(v.myseqno, mac), x)
  {
  }

  ghost predicate Allowed(cfg: Config, s: State, m: Move)
    requires InRange(cfg, s)
  {
    match m
    case Join(t) => Enabled(cfg, s, Arrive(t))
    case Take(t) => Enabled(cfg, s, TakeLocal(t))
    case Begin(t) => At(s, t, Locked)
    case Ask(t, c) => Enabled(cfg, s, Send(t, c))
    case Handle(c) => On(s, c, InFlight)
    case Hear(t) => Enabled(cfg, s, Receive(t))
    case Proceed(t) => Enabled(cfg, s, Enter(t))
    case Release(t) => Enabled(cfg, s, Flush(t))
    case Leave(t) => Enabled(cfg, s, Unlock(t))
  }

  ghost function Result(cfg: Config, s: State, m: Move): State
    requires InRange(cfg, s) && Allowed(cfg, s, m)
  {
    match m
    case Join(t) => Step(cfg, s, Arrive(t))
    case Take(t) => Step(cfg, s, TakeLocal(t))
    case Begin(t) =>
      var v := s.nodes[t.node];
      SetPhase(SetNode(s, t.node, Numbered(Raised(v), v.highest)), t, Asking(0))
    case Ask(t, c) => Step(cfg, s, Send(t, c))
    case Handle(c) =>
      var call := s.calls[c];
      var v := Clocked(s.nodes[call.dst], call.stamp.seqno);
      if Defers(v, cfg.macs[call.dst], call.stamp)
      then SetStage(SetNode(s, call.dst, Appended(v, c)), c, Parked)
      else SetStage(SetNode(s, call.dst, v), c, Answered)
    case Hear(t) => Step(cfg, s, Receive(t))
    case Proceed(t) => Step(cfg, s, Enter(t))
    case Release(t) => Step(cfg, s, Flush(t))
    case Leave(t) => Step(cfg, s, Unlock(t))
  }

  /** The test a handler at stage g performs next. */
  ghost function NextTest(c: CallId, g: Stage): Action {
    if g == ClockDone then TestFlag(c) else if g == FlagSeen then TestGreater(c) else TestTie(c)
  }

  /** The stage that test leads to. */
  ghost function Verdict(cfg: Config, s: State, c: CallId, g: Stage): Stage
    requires InRange(cfg, s) && c in s.calls
  {
    Outcome(NextTest(c, g), s.nodes[s.calls[c].dst], s.calls[c].stamp, cfg.macs[s.calls[c].dst])
  }

  /** A handler past its clock update that has not finished with its caller. */
  ghost predicate Judging(g: Stage) {
    g == ClockDone || g == FlagSeen || g == NotGreater || g == MustDefer || g == Answered
  }

  ghost function ToGo(g: Stage): nat {
    match g
    case ClockDone => 4
    case FlagSeen => 3
    case NotGreater => 2
    case MustDefer => 1
    case _ => 0
  }

  /** The tests a handler performs from stage g, stopping when the answer is known, and the parking if it must. */
  ghost function Tests(cfg: Config, s: State, c: CallId, g: Stage): seq<Action>
    requires InRange(cfg, s) && c in s.calls && Judging(g)
    decreases ToGo(g)
  {
    if g == Answered then []
    else if g == MustDefer then [Park(c)]
    else [NextTest(c, g)] + Tests(cfg, s, c, Verdict(cfg, s, c, g))
  }

  /** The protocol actions a move performs, in order. */
  ghost function Burst(cfg: Config, s: State, m: Move): seq<Action>
    requires InRange(cfg, s) && Allowed(cfg, s, m)
  {
    match m
    case Join(t) => [Arrive(t)]
    case Take(t) => [TakeLocal(t)]
    case Begin(t) => [RaiseFlag(t), ReadClock(t), WriteSeqno(t)]
    case Ask(t, c) => [Send(t, c)]
    case Handle(c) => [UpdateClock(c)] + Tests(cfg, s, c, ClockDone)
    case Hear(t) => [Receive(t)]
    case Proceed(t) => [Enter(t)]
    case Release(t) => [Flush(t)]
    case Leave(t) => [Unlock(t)]
  }

  lemma BeginBurst(cfg: Config, s: State, t: Thread)
    requires InRange(cfg, s) && At(s, t, Locked)
    ensures Leads(cfg, s, Burst(cfg, s, Begin(t)), Result(cfg, s, Begin(t)))
  {
    var s1 := Step(cfg, s, RaiseFlag(t));
    var s2 := Step(cfg, s1, ReadClock(t));
    var s3 := Step(cfg, s2, WriteSeqno(t));
    assert s3 == Result(cfg, s, Begin(t)) by {
      assert s3.nodes == Result(cfg, s, Begin(t)).nodes;
      assert s3.threads == Result(cfg, s, Begin(t)).threads;
    }
    LeadsOne(cfg, s2, WriteSeqno(t), s3);
    LeadsMore(cfg, s1, ReadClock(t), s2, [WriteSeqno(t)], s3);
    LeadsMore(cfg, s, RaiseFlag(t), s1, [ReadClock(t), WriteSeqno(t)], s3);
  }

  lemma TestLeads(cfg: Config, s: State, c: CallId, g: Stage, acts: seq<Action>, s': State)
    requires InRange(cfg, s) && c in s.calls && g in {ClockDone, FlagSeen, NotGreater}
    requires Leads(cfg, SetStage(s, c, Verdict(cfg, s, c, g)), acts, s')
    ensures Leads(cfg, SetStage(s, c, g), [NextTest(c, g)] + acts, s')
  {
    var sg, sv := SetStage(s, c, g), SetStage(s, c, Verdict(cfg, s, c, g));
    var a := NextTest(c, g);
    assert Step(cfg, sg, a) == sv by {
      assert Step(cfg, sg, a).calls == sv.calls;
    }
    LeadsMore(cfg, sg, a, sv, acts, s');
  }

  ghost function Parking(s: State, c: CallId): State
    requires c in s.calls && s.calls[c].dst < |s.nodes|
  {
    SetStage(SetNode(s, s.calls[c].dst, Appended(s.nodes[s.calls[c].dst], c)), c, Parked)
  }

  lemma ParkLeads(cfg: Config, s: State, c: CallId)
    requires InRange(cfg, s) && c in s.calls
    ensures Leads(cfg, SetStage(s, c, MustDefer), [Park(c)], Parking(s, c))
  {
    var sd := SetStage(s, c, MustDefer);
    assert Step(cfg, sd, Park(c)) == Parking(s, c) by {
      assert Step(cfg, sd, Park(c)).calls == Parking(s, c).calls;
    }
    LeadsOne(cfg, sd, Park(c), Parking(s, c));
  }

  /** Where the tests from stage g end: parked, or answered. */
  ghost function Judged(cfg: Config, s: State, c: CallId, g: Stage): State
    requires InRange(cfg, s) && c in s.calls && Judging(g)
    decreases ToGo(g)
  {
    if g == Answered then SetStage(s, c, Answered)
    else if g == MustDefer then Parking(s, c)
    else Judged(cfg, s, c, Verdict(cfg, s, c, g))
  }

  lemma {:induction false} TestsLead(cfg: Config, s: State, c: CallId, g: Stage)
    requires InRange(cfg, s) && c in s.calls && Judging(g)
    ensures Leads(cfg, SetStage(s, c, g), Tests(cfg, s, c, g), Judged(cfg, s, c, g))
    decreases ToGo(g)
  {
    if g == MustDefer {
      ParkLeads(cfg, s, c);
    } else if g != Answered {
      var g' := Verdict(cfg, s, c, g);
      TestsLead(cfg, s, c, g');
      TestLeads(cfg, s, c, g, Tests(cfg, s, c, g'), Judged(cfg, s, c, g'));
    }
  }

  /** The three tests together are the condition of the source. */
  lemma JudgedRight(cfg: Config, s: State, c: CallId)
    requires InRange(cfg, s) && c in s.calls
    ensures Judged(cfg, s, c, ClockDone) ==
      if Defers(s.nodes[s.calls[c].dst], cfg.macs[s.calls[c].dst], s.calls[c].stamp)
      then Parking(s, c) else SetStage(s, c, Answered)
  {
    var g1 := Verdict(cfg, s, c, ClockDone);
    var g2 := Verdict(cfg, s, c, FlagSeen);
    assert Judged(cfg, s, c, ClockDone) == Judged(cfg, s, c, g1);
    assert Judged(cfg, s, c, FlagSeen) == Judged(cfg, s, c, g2);
  }

  /** The tests do not look at the clock. */
  lemma {:induction false} TestsSame(cfg: Config, s: State, b: State, c: CallId, g: Stage)
    requires InRange(cfg, s) && InRange(cfg, b) && c in s.calls && Judging(g) && b.calls == s.calls
    requires b.nodes == s.nodes[s.calls[c].dst := Clocked(s.nodes[s.calls[c].dst], s.calls[c].stamp.seqno)]
    ensures Tests(cfg, b, c, g) == Tests(cfg, s, c, g)
    decreases ToGo(g)
  {
    if g != Answered && g != MustDefer {
      TestsSame(cfg, s, b, c, Verdict(cfg, s, c, g));
    }
  }

  lemma HandleBurst(cfg: Config, s: State, c: CallId)
    requires InRange(cfg, s) && On(s, c, InFlight)
    ensures Leads(cfg, s, Burst(cfg, s, Handle(c)), Result(cfg, s, Handle(c)))
  {
    var call := s.calls[c];
    var b := SetNode(s, call.dst, Clocked(s.nodes[call.dst], call.stamp.seqno));
    TestsLead(cfg, b, c, ClockDone);
    JudgedRight(cfg, b, c);
    assert Parking(b, c).nodes == s.nodes[call.dst := Appended(b.nodes[call.dst], c)];
    TestsSame(cfg, s, b, c, ClockDone);
    LeadsMore(cfg, s, UpdateClock(c), SetStage(b, c, ClockDone), Tests(cfg, b, c, ClockDone), Result(cfg, s, Handle(c)));
  }

  /**
   Of two requests with equal numbers the smaller address wins: at a node that
   claims with the caller's own number, the caller is answered if its address
   is the smaller and parked if it is the larger.
   */
  lemma TieBreak(cfg: Config, s: State, c: CallId) returns (s': State)
    requires InRange(cfg, s) && On(s, c, InFlight)
    requires var v := s.nodes[s.calls[c].dst]; v.requesting && v.myseqno == s.calls[c].stamp.seqno
    ensures Leads(cfg, s, Burst(cfg, s, Handle(c)), s')
    ensures s.calls[c].stamp.mac < cfg.macs[s.calls[c].dst] ==> On(s', c, Answered)
    ensures s.calls[c].stamp.mac > cfg.macs[s.calls[c].dst] ==> On(s', c, Parked)
  {
    HandleBurst(cfg, s, c);
    s' := Result(cfg, s, Handle(c));
  }

  /** And of two with different numbers the smaller number wins, whatever the addresses. */
  lemma NumberFirst(cfg: Config, s: State, c: CallId) returns (s': State)
    requires InRange(cfg, s) && On(s, c, InFlight)
    requires var v := s.nodes[s.calls[c].dst]; v.requesting && v.myseqno != s.calls[c].stamp.seqno
    ensures Leads(cfg, s, Burst(cfg, s, Handle(c)), s')
    ensures On(s', c, if s.calls[c].stamp.seqno < s.nodes[s.calls[c].dst].myseqno then Answered else Parked)
  {
    HandleBurst(cfg, s, c);
    s' := Result(cfg, s, Handle(c));
  }

  /** A move does what its burst of actions does. */
  lemma MoveIsBurst(cfg: Config, s: State, m: Move)
    requires InRange(cfg, s) && Allowed(cfg, s, m)
    ensures IsRun(cfg, s, Burst(cfg, s, m))
    ensures Exec(cfg, s, Burst(cfg, s, m)) == Result(cfg, s, m)
  {
    if m.Begin? {
      BeginBurst(cfg, s, m.t);
    } else if m.Handle? {
      HandleBurst(cfg, s, m.c);
    } else {
      LeadsOne(cfg, s, Burst(cfg, s, m)[0], Result(cfg, s, m));
    }
  }

  // ----- plays

  ghost predicate IsPlay(cfg: Config, s: State, ms: seq<Move>)
    decreases |ms|
  {
    InRange(cfg, s) &&
    (ms != [] ==> Allowed(cfg, s, ms[0]) && IsPlay(cfg, Result(cfg, s, ms[0]), ms[1..]))
  }

  ghost function Play(cfg: Config, s: State, ms: seq<Move>): (r: State)
    requires IsPlay(cfg, s, ms)
    ensures InRange(cfg, r)
    decreases |ms|
  {
    if ms == [] then s else Play(cfg, Result(cfg, s, ms[0]), ms[1..])
  }

  ghost function Flatten(cfg: Config, s: State, ms: seq<Move>): seq<Action>
    requires IsPlay(cfg, s, ms)
    decreases |ms|
  {
    if ms == [] then [] else Burst(cfg, s, ms[0]) + Flatten(cfg, Result(cfg, s, ms[0]), ms[1..])
  }

  /** Every play is a run of the interleaved protocol. */
  lemma {:induction false} PlayIsRun(cfg: Config, s: State, ms: seq<Move>)
    requires IsPlay(cfg, s, ms)
    ensures IsRun(cfg, s, Flatten(cfg, s, ms))
    ensures Exec(cfg, s, Flatten(cfg, s, ms)) == Play(cfg, s, ms)
    decreases |ms|
  {
    if ms != [] {
      MoveIsBurst(cfg, s, ms[0]);
      PlayIsRun(cfg, Result(cfg, s, ms[0]), ms[1..]);
      ExecConcat(cfg, s, Burst(cfg, s, ms[0]), Flatten(cfg, Result(cfg, s, ms[0]), ms[1..]));
    }
  }

  lemma ResultBase(cfg: Config, s: State, m: Move)
    requires Base(cfg, s) && Allowed(cfg, s, m)
    ensures Base(cfg, Result(cfg, s, m))
  {
    MoveIsBurst(cfg, s, m);
    RunBase(cfg, s, Burst(cfg, s, m));
  }

  lemma PlayInv(cfg: Config, s: State, ms: seq<Move>)
    requires Inv(cfg, s) && IsPlay(cfg, s, ms)
    ensures Inv(cfg, Play(cfg, s, ms))
  {
    PlayIsRun(cfg, s, ms);
    RunInv(cfg, s, Flatten(cfg, s, ms));
  }
}
