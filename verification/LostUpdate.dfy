/**
 The clock update of the request handler is one statement of the source but a
 read and a write of shared memory, and the handler holds no lock. Here the two
 are separate steps. As long as no write takes the clock back, every run is a
 run of the protocol and mutual exclusion holds; a write that does, by
 overwriting another handler's update with a stale one, can break it.
 */
module LostUpdate {
  import opened Protocol
  import opened Invariants
  import opened Safety
  import opened Moves

  /** A protocol state and, for handlers between the two steps, the clock value they read. */
  datatype Loose = Loose(s: State, read: map<CallId, int>)

  datatype LooseAction = Plain(a: Action) | Fetch(c: CallId) | Store(c: CallId)

  ghost predicate LooseEnabled(cfg: Config, l: Loose, la: LooseAction)
    requires InRange(cfg, l.s)
  {
    match la
    case Plain(a) => !a.UpdateClock? && Enabled(cfg, l.s, a)
    case Fetch(c) => On(l.s, c, InFlight) && c !in l.read
    case Store(c) => On(l.s, c, InFlight) && c in l.read
  }

  ghost function Stored(l: Loose, c: CallId): int
    requires c in l.s.calls && c in l.read
  {
    if l.s.calls[c].stamp.seqno > l.read[c] then l.s.calls[c].stamp.seqno else l.read[c]
  }

  ghost function LooseStep(cfg: Config, l: Loose, la: LooseAction): Loose
    requires InRange(cfg, l.s) && LooseEnabled(cfg, l, la)
  {
    match la
    case Plain(a) => Loose(Step(cfg, l.s, a), l.read)
    case Fetch(c) => l.(read := l.read[c := l.s.nodes[l.s.calls[c].dst].highest])
    case Store(c) =>
      var d := l.s.calls[c].dst;
      Loose(SetStage(SetNode(l.s, d, l.s.nodes[d].(highest := Stored(l, c))), c, ClockDone), l.read - {c})
  }

  /** The write would take the clock back below what it is now. */
  ghost predicate Loses(cfg: Config, l: Loose, la: LooseAction)
    requires InRange(cfg, l.s) && LooseEnabled(cfg, l, la)
  {
    la.Store? && Stored(l, la.c) < l.s.nodes[l.s.calls[la.c].dst].highest
  }

  ghost predicate IsLooseRun(cfg: Config, l: Loose, las: seq<LooseAction>)
    decreases |las|
  {
    InRange(cfg, l.s) &&
    (las != [] ==> LooseEnabled(cfg, l, las[0]) && IsLooseRun(cfg, LooseStep(cfg, l, las[0]), las[1..]))
  }

  ghost function LooseExec(cfg: Config, l: Loose, las: seq<LooseAction>): (r: Loose)
    requires IsLooseRun(cfg, l, las)
    ensures InRange(cfg, r.s)
    decreases |las|
  {
    if las == [] then l else LooseExec(cfg, LooseStep(cfg, l, las[0]), las[1..])
  }

  ghost predicate LosesNothing(cfg: Config, l: Loose, las: seq<LooseAction>)
    requires IsLooseRun(cfg, l, las)
    decreases |las|
  {
    las == [] || (!Loses(cfg, l, las[0]) && LosesNothing(cfg, LooseStep(cfg, l, las[0]), las[1..]))
  }

  // ----- no lost update, no harm

  /** The protocol action a loose action amounts to. */
  ghost function Tight(la: LooseAction): seq<Action> {
    match la
    case Plain(a) => [a]
    case Fetch(_) => []
    case Store(c) => [UpdateClock(c)]
  }

  ghost function TightRun(las: seq<LooseAction>): seq<Action> {
    if las == [] then [] else Tight(las[0]) + TightRun(las[1..])
  }

  /** What a handler between the two steps has read was the clock once, so it is no more than the clock now. */
  ghost predicate ReadsFit(cfg: Config, l: Loose)
    requires InRange(cfg, l.s)
  {
    forall c :: c in l.read ==>
      On(l.s, c, InFlight) && l.read[c] <= l.s.nodes[l.s.calls[c].dst].highest
  }

  lemma StoreIsUpdate(cfg: Config, l: Loose, c: CallId)
    requires InRange(cfg, l.s) && LooseEnabled(cfg, l, Store(c)) && !Loses(cfg, l, Store(c))
    requires l.read[c] <= l.s.nodes[l.s.calls[c].dst].highest
    ensures LooseStep(cfg, l, Store(c)).s == Step(cfg, l.s, UpdateClock(c))
  {
    var d := l.s.calls[c].dst;
    assert l.s.nodes[d].(highest := Stored(l, c)) == Clocked(l.s.nodes[d], l.s.calls[c].stamp.seqno);
  }

  lemma PlainKeepsReads(cfg: Config, l: Loose, a: Action, c: CallId)
    requires Base(cfg, l.s) && LooseEnabled(cfg, l, Plain(a)) && On(l.s, c, InFlight)
    ensures On(Step(cfg, l.s, a), c, InFlight) && Step(cfg, l.s, a).calls[c].dst == l.s.calls[c].dst
  {
    if a.Flush? { InvListed(cfg, l.s, a.t.node, c); }
  }

  lemma StepReads(cfg: Config, l: Loose, la: LooseAction)
    requires Base(cfg, l.s) && LooseEnabled(cfg, l, la) && !Loses(cfg, l, la) && ReadsFit(cfg, l)
    requires InRange(cfg, LooseStep(cfg, l, la).s)
    ensures ReadsFit(cfg, LooseStep(cfg, l, la))
  {
    var l' := LooseStep(cfg, l, la);
    forall c | c in l'.read
      ensures On(l'.s, c, InFlight) && l'.read[c] <= l'.s.nodes[l'.s.calls[c].dst].highest
    {
      assert On(l.s, c, InFlight);
      if la.Plain? {
        PlainKeepsReads(cfg, l, la.a, c);
        KeepSeqnos(cfg, l.s, la.a, l.s.calls[c].dst);
      }
    }
  }

  lemma {:induction false} LooseIsRun(cfg: Config, l: Loose, las: seq<LooseAction>)
    requires Base(cfg, l.s) && ReadsFit(cfg, l)
    requires IsLooseRun(cfg, l, las) && LosesNothing(cfg, l, las)
    ensures IsRun(cfg, l.s, TightRun(las)) && Exec(cfg, l.s, TightRun(las)) == LooseExec(cfg, l, las).s
    decreases |las|
  {
    if las != [] {
      var la, l' := las[0], LooseStep(cfg, l, las[0]);
      StepReads(cfg, l, la);
      if la.Store? {
        StoreIsUpdate(cfg, l, la.c);
        StepBase(cfg, l.s, UpdateClock(la.c));
      } else if la.Plain? {
        StepBase(cfg, l.s, la.a);
      }
      LooseIsRun(cfg, l', las[1..]);
      TightCons(cfg, l.s, Tight(la), TightRun(las[1..]), l'.s);
    }
  }

  lemma TightCons(cfg: Config, s: State, first: seq<Action>, rest: seq<Action>, s': State)
    requires |first| <= 1 && InRange(cfg, s) && IsRun(cfg, s', rest)
    requires if first == [] then s' == s else Enabled(cfg, s, first[0]) && s' == Step(cfg, s, first[0])
    ensures IsRun(cfg, s, first + rest) && Exec(cfg, s, first + rest) == Exec(cfg, s', rest)
  {
    assert first != [] ==> (first + rest)[1..] == rest;
    assert first == [] ==> first + rest == rest;
  }

  /** Mutual exclusion in every run that loses no clock update, with the update in two steps. */
  lemma NoLostUpdateIsSafe(cfg: Config, las: seq<LooseAction>)
    requires WellFormed(cfg) && DistinctMacs(cfg) && CompleteMembership(cfg)
    requires IsLooseRun(cfg, Loose(Initial(cfg), map[]), las)
    requires LosesNothing(cfg, Loose(Initial(cfg), map[]), las)
    ensures MutuallyExclusive(LooseExec(cfg, Loose(Initial(cfg), map[]), las).s)
  {
    InitialBase(cfg);
    LooseIsRun(cfg, Loose(Initial(cfg), map[]), las);
    MutualExclusion(cfg, TightRun(las));
  }

  // ----- with two nodes no update is ever lost

  ghost predicate NoSelfCalls(cfg: Config) {
    forall i, k :: 0 <= i < |cfg.peers| && 0 <= k < |cfg.peers[i]| ==> cfg.peers[i][k] != i
  }

  /** What a handler between the two steps has read is still the clock. */
  ghost predicate ReadFresh(cfg: Config, l: Loose, c: CallId)
    requires InRange(cfg, l.s) && c in l.read
  {
    On(l.s, c, InFlight) && l.read[c] == l.s.nodes[l.s.calls[c].dst].highest
  }

  ghost predicate ReadsFresh(cfg: Config, l: Loose)
    requires InRange(cfg, l.s)
  {
    forall c {:trigger ReadFresh(cfg, l, c)} :: c in l.read ==> ReadFresh(cfg, l, c)
  }

  /** Only one node can call the other, and it makes one call at a time. */
  lemma OneCaller(cfg: Config, s: State, c: CallId, d: CallId)
    requires Base(cfg, s) && |cfg.macs| <= 2 && NoSelfCalls(cfg)
    requires c in s.calls && d in s.calls && s.calls[c].dst == s.calls[d].dst
    ensures c == d
  {
    assert CallMatch(cfg, s, c) && CallMatch(cfg, s, d);
    assert ThreadMatch(cfg, s, s.calls[c].src) && ThreadMatch(cfg, s, s.calls[d].src);
    assert s.calls[c].src.node != s.calls[c].dst && s.calls[d].src.node != s.calls[d].dst;
  }

  lemma PlainKeepsClocks(cfg: Config, s: State, a: Action, n: nat)
    requires InRange(cfg, s) && Enabled(cfg, s, a) && !a.UpdateClock? && n < |s.nodes|
    ensures Step(cfg, s, a).nodes[n].highest == s.nodes[n].highest
  {
  }

  lemma KeepReadFresh(cfg: Config, l: Loose, la: LooseAction, c: CallId)
    requires Base(cfg, l.s) && LooseEnabled(cfg, l, la) && |cfg.macs| <= 2 && NoSelfCalls(cfg)
    requires InRange(cfg, LooseStep(cfg, l, la).s)
    requires c in LooseStep(cfg, l, la).read && (c in l.read ==> ReadFresh(cfg, l, c))
    ensures ReadFresh(cfg, LooseStep(cfg, l, la), c)
  {
    if la.Plain? {
      PlainKeepsReads(cfg, l, la.a, c);
      PlainKeepsClocks(cfg, l.s, la.a, l.s.calls[c].dst);
    } else if la.Store? && l.s.calls[c].dst == l.s.calls[la.c].dst {
      OneCaller(cfg, l.s, c, la.c);
    }
  }

  lemma {:induction false} NeverLoses(cfg: Config, l: Loose, las: seq<LooseAction>)
    requires Base(cfg, l.s) && ReadsFresh(cfg, l) && |cfg.macs| <= 2 && NoSelfCalls(cfg)
    requires IsLooseRun(cfg, l, las)
    ensures LosesNothing(cfg, l, las)
    decreases |las|
  {
    if las != [] {
      var la, l' := las[0], LooseStep(cfg, l, las[0]);
      if la.Store? {
        assert ReadFresh(cfg, l, la.c);
        StoreIsUpdate(cfg, l, la.c);
        StepBase(cfg, l.s, UpdateClock(la.c));
      } else if la.Plain? {
        StepBase(cfg, l.s, la.a);
      }
      forall c | c in l'.read ensures ReadFresh(cfg, l', c) {
        assert c in l.read ==> ReadFresh(cfg, l, c);
        KeepReadFresh(cfg, l, la, c);
      }
      NeverLoses(cfg, l', las[1..]);
    }
  }
}
