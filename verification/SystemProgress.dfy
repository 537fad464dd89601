/**
 Progress of the whole system. What the one-lock protocol can do in the view of
 a lock the system can do, so runs of the protocol are exactly what the system
 shows of one lock, and everybody waiting for a lock is served under the same
 exact condition.
 */
module SystemProgress {
  import opened Xdr
  import opened Protocol
  import opened Invariants
  import opened Safety
  import opened Progress
  import opened Termination
  import opened Interleaved
  import opened Systems

  /** The machines' numbers are ones the message can carry. */
  ghost predicate Carried(cfg: Config, lock: int) {
    -TWO31 <= lock < TWO31 && forall n :: 0 <= n < |cfg.macs| ==> cfg.macs[n] < TWO64
  }

  ghost function Lifted(lock: int, a: Action): SysAction {
    if IsHandler(a) then ByHandler(a) else ByThread(lock, a)
  }

  ghost predicate SendFits(cfg: Config, s: System, lock: int, a: Action)
    requires SysInRange(cfg, s)
  {
    a.Send? ==>
      && a.c !in s.calls
      && a.t.node < |s.tables| && PackFits(Pack(lock, Stamp(RecAt(s, a.t.node, lock).myseqno, cfg.macs[a.t.node])))
  }

  /** An action of the protocol enabled in a lock's view is enabled in the system. */
  lemma EnabledLifts(cfg: Config, s: System, lock: int, a: Action)
    requires SysInRange(cfg, s) && InRange(cfg, View(cfg, s, lock))
    requires Enabled(cfg, View(cfg, s, lock), a) && SendFits(cfg, s, lock, a)
    ensures SysEnabled(cfg, s, Lifted(lock, a)) && LockOf(s, Lifted(lock, a)) == lock
  {
    var view := View(cfg, s, lock);
    if IsHandler(a) {
      assert a.c in view.calls;
      assert view.calls[a.c] == ViewCall(s.calls[a.c]);
    } else {
      assert a.t in view.threads ==> Key(lock, a.t) in s.threads && s.threads[Key(lock, a.t)] == view.threads[a.t];
      if a.Receive? {
        var c := view.threads[a.t].call;
        assert c in view.calls && view.calls[c] == ViewCall(s.calls[c]);
      }
    }
  }

  // ----- everybody waiting for a lock

  /** Nothing more can happen about this lock without a new acquire. */
  ghost predicate SysStill(cfg: Config, s: System, lock: int)
    requires SysInRange(cfg, s)
  {
    forall sa {:trigger SysEnabled(cfg, s, sa)} :: SysEnabled(cfg, s, sa) && LockOf(s, sa) == lock ==> sa.a.Arrive?
  }

  lemma StillView(cfg: Config, s: System, lock: int)
    requires SysInRange(cfg, s) && InRange(cfg, View(cfg, s, lock)) && SysStill(cfg, s, lock)
    requires forall n :: 0 <= n < |s.tables| ==>
      PackFits(Pack(lock, Stamp(RecAt(s, n, lock).myseqno, cfg.macs[n])))
    ensures Still(cfg, View(cfg, s, lock))
  {
    var view := View(cfg, s, lock);
    forall a ensures !Serves(cfg, view, a) {
      if Serves(cfg, view, a) {
        var b := a;
        if a.Send? {
          var unused := FreshCall(s.calls.Keys);
          b := Send(a.t, unused);
        }
        EnabledLifts(cfg, s, lock, b);
      }
    }
  }

  /**
   Any run of the whole system, any interleaving, both kinds of release: where
   nothing more can happen about a lock, everybody who acquired it has been
   served, each exactly once, if and only if no untimely park occurred for it.
   */
  lemma SystemServed(cfg: Config, sas: seq<SysAction>, lock: int)
    requires WellFormed(cfg) && DistinctMacs(cfg) && CompleteMembership(cfg) && Carried(cfg, lock)
    requires IsSysRun(cfg, InitialSystem(cfg), sas)
    requires SysStill(cfg, SysExec(cfg, InitialSystem(cfg), sas), lock)
    requires Begun(Projected(cfg, InitialSystem(cfg), sas, lock)) < INT_MAX
    ensures var s, acts := SysExec(cfg, InitialSystem(cfg), sas), Projected(cfg, InitialSystem(cfg), sas, lock);
      && IsRun(cfg, Initial(cfg), acts)
      && ((forall t :: Key(lock, t) !in s.threads) <==> !SomeUntimelyPark(cfg, Initial(cfg), acts))
      && (|LogOf(s, lock)| == Arrivals(acts) <==> !SomeUntimelyPark(cfg, Initial(cfg), acts))
  {
    var s, acts := SysExec(cfg, InitialSystem(cfg), sas), Projected(cfg, InitialSystem(cfg), sas, lock);
    SystemRefines(cfg, sas, lock);
    forall n | 0 <= n < |s.tables| ensures PackFits(Pack(lock, Stamp(RecAt(s, n, lock).myseqno, cfg.macs[n]))) {
      WireAlwaysFits(cfg, sas, lock, n);
    }
    StillView(cfg, s, lock);
    ServedUnlessUntimelyPark(cfg, acts);
    var threads := View(cfg, s, lock).threads;
    assert threads == map[] <==> forall t :: t !in threads;
  }

  /** From wherever a run has led, without new acquires of a lock the whole system acts on it no more often than its measure says. */
  lemma SystemBounded(cfg: Config, pre: seq<SysAction>, s: System, sas: seq<SysAction>, lock: int)
    requires WellFormed(cfg) && IsSysRun(cfg, InitialSystem(cfg), pre) && SysExec(cfg, InitialSystem(cfg), pre) == s
    requires IsSysRun(cfg, s, sas) && NoArrive(Projected(cfg, s, sas, lock))
    ensures Base(cfg, View(cfg, s, lock))
    ensures |Projected(cfg, s, sas, lock)| <= Measure(cfg, View(cfg, s, lock))
  {
    InitialTracks(cfg);
    RunRefines(cfg, InitialSystem(cfg), pre, lock);
    assert Base(cfg, View(cfg, s, lock));
    RunRefines(cfg, s, sas, lock);
    RunIsBounded(cfg, View(cfg, s, lock), Projected(cfg, s, sas, lock));
  }

  // ----- every run of the protocol is what the system shows of one lock

  ghost predicate OnlyAbout(s: System, lock: int) {
    forall c :: c in s.calls ==> Readable(s.calls[c]) && PackOf(s.calls[c]).lock == lock
  }

  lemma KeepOnlyAbout(cfg: Config, s: System, lock: int, a: Action)
    requires SysInRange(cfg, s) && OnlyAbout(s, lock) && SysEnabled(cfg, s, Lifted(lock, a))
    ensures OnlyAbout(SysStep(cfg, s, Lifted(lock, a)), lock)
  {
  }

  lemma {:induction false} RunLast(cfg: Config, s: State, acts: seq<Action>, a: Action)
    requires IsRun(cfg, s, acts + [a])
    ensures IsRun(cfg, s, acts) && Enabled(cfg, Exec(cfg, s, acts), a) && Begun(acts) <= Begun(acts + [a])
    decreases |acts|
  {
    if acts != [] {
      assert (acts + [a])[1..] == acts[1..] + [a];
      RunLast(cfg, Step(cfg, s, acts[0]), acts[1..], a);
    }
  }

  /** The system run shows the protocol run, and is about this lock only. */
  ghost predicate Shows(cfg: Config, s: System, lock: int, sas: seq<SysAction>, acts: seq<Action>) {
    && IsSysRun(cfg, s, sas) && Projected(cfg, s, sas, lock) == acts
    && OnlyAbout(SysExec(cfg, s, sas), lock)
  }

  /** A system run from s to s' that shows acts of the lock. */
  ghost predicate SysLeads(cfg: Config, s: System, sas: seq<SysAction>, s': System, lock: int, acts: seq<Action>) {
    IsSysRun(cfg, s, sas) && SysExec(cfg, s, sas) == s' && Projected(cfg, s, sas, lock) == acts
  }

  ghost function Own(s: System, sa: SysAction, lock: int): seq<Action>
    requires sa.ByHandler? ==> IsHandler(sa.a) && sa.a.c in s.calls && Readable(s.calls[sa.a.c])
  {
    if LockOf(s, sa) == lock then [sa.a] else []
  }

  lemma SysLeadsFirst(cfg: Config, s: System, sas: seq<SysAction>, s': System, lock: int, acts: seq<Action>)
    returns (s1: System, rest: seq<Action>)
    requires SysLeads(cfg, s, sas, s', lock, acts) && sas != []
    ensures SysInRange(cfg, s) && SysEnabled(cfg, s, sas[0]) && s1 == SysStep(cfg, s, sas[0])
    ensures acts == Own(s, sas[0], lock) + rest && SysLeads(cfg, s1, sas[1..], s', lock, rest)
  {
    s1 := SysStep(cfg, s, sas[0]);
    rest := Projected(cfg, s1, sas[1..], lock);
  }

  lemma SysLeadsMore(cfg: Config, s: System, sa: SysAction, s1: System, sas: seq<SysAction>, s': System, lock: int, rest: seq<Action>)
    requires SysInRange(cfg, s) && SysEnabled(cfg, s, sa) && s1 == SysStep(cfg, s, sa)
    requires SysLeads(cfg, s1, sas, s', lock, rest)
    ensures SysLeads(cfg, s, [sa] + sas, s', lock, Own(s, sa, lock) + rest)
  {
    assert ([sa] + sas)[1..] == sas;
  }

  lemma SysLeadsNone(cfg: Config, s: System, lock: int)
    requires SysInRange(cfg, s)
    ensures SysLeads(cfg, s, [], s, lock, [])
  {
  }

  lemma {:induction false} SysLeadsSnoc(cfg: Config, s: System, sas: seq<SysAction>, s1: System, sa: SysAction, lock: int, acts: seq<Action>)
    requires SysLeads(cfg, s, sas, s1, lock, acts) && SysInRange(cfg, s1) && SysEnabled(cfg, s1, sa)
    requires SysInRange(cfg, SysStep(cfg, s1, sa))
    ensures SysLeads(cfg, s, sas + [sa], SysStep(cfg, s1, sa), lock, acts + Own(s1, sa, lock))
    decreases |sas|
  {
    if sas == [] {
      SysLeadsNone(cfg, SysStep(cfg, s, sa), lock);
      SysLeadsMore(cfg, s, sa, SysStep(cfg, s, sa), [], SysStep(cfg, s, sa), lock, []);
      assert sas + [sa] == [sa] + [] && acts + Own(s1, sa, lock) == Own(s, sa, lock) + [];
    } else {
      var s0, rest := SysLeadsFirst(cfg, s, sas, s1, lock, acts);
      SysLeadsSnoc(cfg, s0, sas[1..], s1, sa, lock, rest);
      SysLeadsMore(cfg, s, sas[0], s0, sas[1..] + [sa], SysStep(cfg, s1, sa), lock, rest + Own(s1, sa, lock));
      assert sas + [sa] == [sas[0]] + (sas[1..] + [sa]);
      assert acts + Own(s1, sa, lock) == Own(s, sas[0], lock) + (rest + Own(s1, sa, lock));
    }
  }

  /** What the protocol can do after a run, the system can do after the run that shows it. */
  lemma NextLifts(cfg: Config, lock: int, sas: seq<SysAction>, acts: seq<Action>, a: Action)
    requires WellFormed(cfg) && Carried(cfg, lock) && Shows(cfg, InitialSystem(cfg), lock, sas, acts)
    requires IsRun(cfg, Initial(cfg), acts) && Enabled(cfg, Exec(cfg, Initial(cfg), acts), a) && Begun(acts) < INT_MAX
    ensures var s := SysExec(cfg, InitialSystem(cfg), sas);
      && SysEnabled(cfg, s, Lifted(lock, a)) && LockOf(s, Lifted(lock, a)) == lock
      && SysInRange(cfg, SysStep(cfg, s, Lifted(lock, a)))
  {
    var s := SysExec(cfg, InitialSystem(cfg), sas);
    SystemRefines(cfg, sas, lock);
    if a.Send? {
      WireAlwaysFits(cfg, sas, lock, a.t.node);
      assert a.c !in View(cfg, s, lock).calls;
    }
    EnabledLifts(cfg, s, lock, a);
    InitialBase(cfg);
    RunBase(cfg, Initial(cfg), acts);
    StepSimulates(cfg, s, Lifted(lock, a), lock);
  }

  /** Every run of the protocol with fewer than 2^31 - 1 acquires is what some run of the system shows of the lock. */
  lemma {:induction false} RunLifts(cfg: Config, lock: int, acts: seq<Action>) returns (sas: seq<SysAction>)
    requires WellFormed(cfg) && Carried(cfg, lock) && IsRun(cfg, Initial(cfg), acts) && Begun(acts) < INT_MAX
    ensures Shows(cfg, InitialSystem(cfg), lock, sas, acts)
    decreases |acts|
  {
    if acts == [] {
      sas := [];
    } else {
      var front, a := acts[..|acts| - 1], acts[|acts| - 1];
      assert acts == front + [a];
      RunLast(cfg, Initial(cfg), front, a);
      var rest := RunLifts(cfg, lock, front);
      NextLifts(cfg, lock, rest, front, a);
      var s := SysExec(cfg, InitialSystem(cfg), rest);
      SysLeadsSnoc(cfg, InitialSystem(cfg), rest, s, Lifted(lock, a), lock, front);
      KeepOnlyAbout(cfg, s, lock, a);
      sas := rest + [Lifted(lock, a)];
    }
  }

  /** In the whole system too, entries to every lock come in stamp order. */
  lemma SystemEntryOrder(cfg: Config, sas: seq<SysAction>, lock: int)
    requires WellFormed(cfg) && DistinctMacs(cfg) && CompleteMembership(cfg)
    requires IsSysRun(cfg, InitialSystem(cfg), sas)
    ensures EntriesOrdered(LogOf(SysExec(cfg, InitialSystem(cfg), sas), lock))
  {
    SystemRefines(cfg, sas, lock);
    EntryOrder(cfg, Projected(cfg, InitialSystem(cfg), sas, lock));
  }
}
