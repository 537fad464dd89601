/**
 Exactly when the unprotected clock update matters. In every deployment of at
 most two nodes no update is ever lost and exclusion holds; in every deployment
 of three or more, whatever the addresses and the order of the node lists, a
 stale write lets two nodes in at once.
 */
module StaleClock {
  import opened Protocol
  import opened Invariants
  import opened Safety
  import opened Moves
  import opened Progress
  import opened LostUpdate

  // ----- building runs

  ghost predicate Gets(cfg: Config, l: Loose, l': Loose) {
    exists las :: IsLooseRun(cfg, l, las) && LooseExec(cfg, l, las) == l'
  }

  lemma {:induction false} LooseConcat(cfg: Config, l: Loose, a: seq<LooseAction>, b: seq<LooseAction>)
    requires IsLooseRun(cfg, l, a) && IsLooseRun(cfg, LooseExec(cfg, l, a), b)
    ensures IsLooseRun(cfg, l, a + b) && LooseExec(cfg, l, a + b) == LooseExec(cfg, LooseExec(cfg, l, a), b)
    decreases |a|
  {
    if a == [] {
      assert a + b == b;
    } else {
      LooseConcat(cfg, LooseStep(cfg, l, a[0]), a[1..], b);
      assert (a + b)[1..] == a[1..] + b;
    }
  }

  lemma GetsThen(cfg: Config, l: Loose, l1: Loose, l2: Loose)
    requires Gets(cfg, l, l1) && Gets(cfg, l1, l2)
    ensures Gets(cfg, l, l2)
  {
    var a :| IsLooseRun(cfg, l, a) && LooseExec(cfg, l, a) == l1;
    var b :| IsLooseRun(cfg, l1, b) && LooseExec(cfg, l1, b) == l2;
    LooseConcat(cfg, l, a, b);
  }

  lemma GetsOne(cfg: Config, l: Loose, la: LooseAction, l': Loose)
    requires InRange(cfg, l.s) && LooseEnabled(cfg, l, la) && LooseStep(cfg, l, la) == l' && InRange(cfg, l'.s)
    ensures Gets(cfg, l, l')
  {
    assert [la][1..] == [];
    assert IsLooseRun(cfg, l', []);
    assert IsLooseRun(cfg, l, [la]) && LooseExec(cfg, l, [la]) == l';
  }

  ghost function Plainly(acts: seq<Action>): seq<LooseAction> {
    if acts == [] then [] else [Plain(acts[0])] + Plainly(acts[1..])
  }

  lemma {:induction false} PlainRun(cfg: Config, l: Loose, acts: seq<Action>)
    requires IsRun(cfg, l.s, acts) && forall k :: 0 <= k < |acts| ==> !acts[k].UpdateClock?
    ensures IsLooseRun(cfg, l, Plainly(acts))
    ensures LooseExec(cfg, l, Plainly(acts)) == Loose(Exec(cfg, l.s, acts), l.read)
    decreases |acts|
  {
    if acts != [] {
      PlainRun(cfg, LooseStep(cfg, l, Plain(acts[0])), acts[1..]);
      assert Plainly(acts)[1..] == Plainly(acts[1..]);
    }
  }

  lemma {:induction false} TestsPlain(cfg: Config, s: State, c: CallId, g: Stage)
    requires InRange(cfg, s) && c in s.calls && Judging(g)
    ensures forall k :: 0 <= k < |Tests(cfg, s, c, g)| ==> !Tests(cfg, s, c, g)[k].UpdateClock?
    decreases ToGo(g)
  {
    if g != Answered && g != MustDefer {
      TestsPlain(cfg, s, c, Verdict(cfg, s, c, g));
    }
  }

  /** Reading and at once writing the clock is the update. */
  lemma GetsUpdate(cfg: Config, l: Loose, c: CallId, s': State)
    requires InRange(cfg, l.s) && On(l.s, c, InFlight) && c !in l.read && Step(cfg, l.s, UpdateClock(c)) == s'
    ensures Gets(cfg, l, Loose(s', l.read))
  {
    var l1 := LooseStep(cfg, l, Fetch(c));
    GetsOne(cfg, l, Fetch(c), l1);
    var l2 := LooseStep(cfg, l1, Store(c));
    StoreIsUpdate(cfg, l1, c);
    StepInRange(cfg, l.s, UpdateClock(c));
    assert l2.read == l.read;
    GetsOne(cfg, l1, Store(c), l2);
    GetsThen(cfg, l, l1, l2);
  }

  /** A handler undisturbed between its read and its write does a whole move. */
  lemma GetsHandle(cfg: Config, l: Loose, c: CallId, s': State)
    requires InRange(cfg, l.s) && On(l.s, c, InFlight) && Result(cfg, l.s, Handle(c)) == s' && c !in l.read
    ensures Gets(cfg, l, Loose(s', l.read))
  {
    var acts := Burst(cfg, l.s, Handle(c));
    MoveIsBurst(cfg, l.s, Handle(c));
    var tests := Tests(cfg, l.s, c, ClockDone);
    assert acts[1..] == tests;
    var s1 := LeadsFirst(cfg, l.s, acts, s');
    GetsUpdate(cfg, l, c, s1);
    TestsPlain(cfg, l.s, c, ClockDone);
    PlainRun(cfg, Loose(s1, l.read), tests);
    GetsThen(cfg, l, Loose(s1, l.read), Loose(s', l.read));
  }

  lemma GetsByMove(cfg: Config, l: Loose, m: Move, s': State)
    requires InRange(cfg, l.s) && Allowed(cfg, l.s, m) && Result(cfg, l.s, m) == s'
    requires m.Handle? ==> m.c !in l.read
    ensures Gets(cfg, l, Loose(s', l.read))
  {
    if m.Handle? {
      GetsHandle(cfg, l, m.c, s');
    } else {
      MoveIsBurst(cfg, l.s, m);
      PlainRun(cfg, l, Burst(cfg, l.s, m));
    }
  }

  ghost predicate Possible(cfg: Config, l: Loose) {
    InRange(cfg, l.s) && Gets(cfg, Loose(Initial(cfg), map[]), l)
  }

  /** One more move of a possible run. */
  lemma Go(cfg: Config, l: Loose, m: Move, l': Loose)
    requires Possible(cfg, l) && Allowed(cfg, l.s, m) && (m.Handle? ==> m.c !in l.read)
    requires l' == Loose(Result(cfg, l.s, m), l.read)
    ensures Possible(cfg, l')
  {
    GetsByMove(cfg, l, m, l'.s);
    GetsThen(cfg, Loose(Initial(cfg), map[]), l, l');
  }

  lemma GoOne(cfg: Config, l: Loose, la: LooseAction, l': Loose)
    requires Possible(cfg, l) && LooseEnabled(cfg, l, la) && LooseStep(cfg, l, la) == l' && InRange(cfg, l'.s)
    ensures Possible(cfg, l')
  {
    GetsOne(cfg, l, la, l');
    GetsThen(cfg, Loose(Initial(cfg), map[]), l, l');
  }

  /** A thread takes its free mutex and chooses its number. */
  lemma Enlist(cfg: Config, l: Loose, t: Thread) returns (l': Loose)
    requires Possible(cfg, l) && t.node < |l.s.nodes| && t !in l.s.threads && !l.s.nodes[t.node].locked
    ensures Possible(cfg, l') && l'.read == l.read && l'.s.calls == l.s.calls
    ensures l'.s.threads == l.s.threads[t := Asking(0)]
    ensures var v := l.s.nodes[t.node]; l'.s.nodes == l.s.nodes[t.node := Numbered(Raised(Taken(v)), v.highest)]
  {
    var l1 := Loose(Result(cfg, l.s, Join(t)), l.read);
    Go(cfg, l, Join(t), l1);
    var l2 := Loose(Result(cfg, l1.s, Take(t)), l.read);
    Go(cfg, l1, Take(t), l2);
    l' := Loose(Result(cfg, l2.s, Begin(t)), l.read);
    Go(cfg, l2, Begin(t), l');
  }

  /** A thread asks its next peer, whose handler runs undisturbed. */
  lemma AskNext(cfg: Config, l: Loose, t: Thread, k: nat, c: CallId) returns (l': Loose)
    requires Possible(cfg, l) && At(l.s, t, Asking(k)) && k < |cfg.peers[t.node]|
    requires c !in l.s.calls && c !in l.read
    ensures Possible(cfg, l') && l'.read == l.read && l'.s.threads == l.s.threads[t := Waiting(k, c)]
    ensures var p, x := cfg.peers[t.node][k], StampOf(cfg, l.s, t.node);
      var v := Clocked(l.s.nodes[p], x.seqno);
      if Defers(v, cfg.macs[p], x)
      then l'.s.nodes == l.s.nodes[p := Appended(v, c)] && l'.s.calls == l.s.calls[c := Call(t, p, x, Parked)]
      else l'.s.nodes == l.s.nodes[p := v] && l'.s.calls == l.s.calls[c := Call(t, p, x, Answered)]
  {
    var l1 := Loose(Result(cfg, l.s, Ask(t, c)), l.read);
    Go(cfg, l, Ask(t, c), l1);
    l' := Loose(Result(cfg, l1.s, Handle(c)), l.read);
    Go(cfg, l1, Handle(c), l');
  }

  lemma HearNext(cfg: Config, l: Loose, t: Thread, k: nat, c: CallId) returns (l': Loose)
    requires Possible(cfg, l) && At(l.s, t, Waiting(k, c)) && On(l.s, c, Answered)
    ensures Possible(cfg, l') && l'.read == l.read && l'.s.nodes == l.s.nodes
    ensures l'.s.threads == l.s.threads[t := Asking(k + 1)] && l'.s.calls == l.s.calls - {c}
  {
    l' := Loose(Result(cfg, l.s, Hear(t)), l.read);
    Go(cfg, l, Hear(t), l');
  }

  lemma EnterNow(cfg: Config, l: Loose, t: Thread) returns (l': Loose)
    requires Possible(cfg, l) && t in l.s.threads && l.s.threads[t] == Asking(|cfg.peers[t.node]|)
    ensures Possible(cfg, l') && l'.read == l.read && l'.s.nodes == l.s.nodes
    ensures l'.s.threads == l.s.threads[t := Critical] && l'.s.calls == l.s.calls
  {
    l' := Loose(Result(cfg, l.s, Proceed(t)), l.read);
    Go(cfg, l, Proceed(t), l');
  }

  lemma ReleaseNow(cfg: Config, l: Loose, t: Thread) returns (l': Loose)
    requires Possible(cfg, l) && At(l.s, t, Critical)
    ensures Possible(cfg, l') && l'.read == l.read && l'.s.threads == l.s.threads[t := Flushed]
    ensures l'.s.nodes == l.s.nodes[t.node := Emptied(l.s.nodes[t.node], cfg.clears)]
    ensures l'.s.calls == Woken(l.s.calls, l.s.nodes[t.node].deferred)
  {
    l' := Loose(Result(cfg, l.s, Release(t)), l.read);
    Go(cfg, l, Release(t), l');
  }

  lemma LeaveNow(cfg: Config, l: Loose, t: Thread) returns (l': Loose)
    requires Possible(cfg, l) && At(l.s, t, Flushed)
    ensures Possible(cfg, l') && l'.read == l.read && l'.s.threads == l.s.threads - {t}
    ensures l'.s.nodes == l.s.nodes[t.node := Freed(l.s.nodes[t.node])] && l'.s.calls == l.s.calls
  {
    l' := Loose(Result(cfg, l.s, Leave(t)), l.read);
    Go(cfg, l, Leave(t), l');
  }

  // ----- asking a stretch of the node list

  /** The nodes after those listed have been told a number. */
  ghost function Told(nodes: seq<LockRec>, ps: seq<nat>, seqno: int): (r: seq<LockRec>)
    requires forall q :: 0 <= q < |ps| ==> ps[q] < |nodes|
    ensures |r| == |nodes|
    decreases |ps|
  {
    if ps == [] then nodes else Told(nodes[ps[0] := Clocked(nodes[ps[0]], seqno)], ps[1..], seqno)
  }

  lemma {:induction false} ToldAt(nodes: seq<LockRec>, ps: seq<nat>, seqno: int, n: nat)
    requires forall q :: 0 <= q < |ps| ==> ps[q] < |nodes|
    requires n < |nodes|
    ensures Told(nodes, ps, seqno)[n] == if n in ps then Clocked(nodes[n], seqno) else nodes[n]
    decreases |ps|
  {
    if ps != [] {
      ToldAt(nodes[ps[0] := Clocked(nodes[ps[0]], seqno)], ps[1..], seqno, n);
      assert n in ps <==> n == ps[0] || n in ps[1..];
    }
  }

  /** Nothing but clocks has changed, and those only up to the number. */
  ghost predicate ClocksOnly(s: State, s': State, seqno: int) {
    && |s'.nodes| == |s.nodes|
    && forall n :: 0 <= n < |s.nodes| ==> s'.nodes[n] == s.nodes[n] || s'.nodes[n] == Clocked(s.nodes[n], seqno)
  }

  /** Node p would answer a request stamped x. */
  ghost predicate Willing(cfg: Config, s: State, p: nat, x: Stamp) {
    p < |s.nodes| && p < |cfg.macs| && !Defers(s.nodes[p], cfg.macs[p], x)
  }

  ghost predicate AllWilling(cfg: Config, s: State, ps: seq<nat>, x: Stamp) {
    forall q :: 0 <= q < |ps| ==> Willing(cfg, s, ps[q], x)
  }

  lemma AskHear(cfg: Config, l: Loose, t: Thread, k: nat) returns (l': Loose)
    requires Possible(cfg, l) && At(l.s, t, Asking(k)) && k < |cfg.peers[t.node]|
    requires Willing(cfg, l.s, cfg.peers[t.node][k], StampOf(cfg, l.s, t.node))
    ensures Possible(cfg, l') && l'.read == l.read && l'.s.calls == l.s.calls
    ensures l'.s.threads == l.s.threads[t := Asking(k + 1)]
    ensures var p := cfg.peers[t.node][k];
      l'.s.nodes == l.s.nodes[p := Clocked(l.s.nodes[p], l.s.nodes[t.node].myseqno)]
  {
    var c := FreshCall(l.s.calls.Keys + l.read.Keys);
    assert c !in l.s.calls && c !in l.read;
    l' := AskNext(cfg, l, t, k, c);
    l' := HearNext(cfg, l', t, k, c);
  }

  /** A thread whose peers in positions k to n - 1 are willing gets their answers; only clocks change. */
  lemma {:induction false} AskOn(cfg: Config, l: Loose, t: Thread, k: nat, n: nat) returns (l': Loose)
    requires Possible(cfg, l) && At(l.s, t, Asking(k)) && k <= n <= |cfg.peers[t.node]|
    requires AllWilling(cfg, l.s, cfg.peers[t.node][k..n], StampOf(cfg, l.s, t.node))
    ensures Possible(cfg, l') && l'.read == l.read && l'.s.calls == l.s.calls
    ensures l'.s.threads == l.s.threads[t := Asking(n)]
    ensures l'.s.nodes == Told(l.s.nodes, cfg.peers[t.node][k..n], l.s.nodes[t.node].myseqno)
    decreases n - k
  {
    var ps, x := cfg.peers[t.node][k..n], StampOf(cfg, l.s, t.node);
    if k == n {
      l' := l;
      assert l.s.threads == l.s.threads[t := Asking(k)];
    } else {
      assert Willing(cfg, l.s, ps[0], x);
      var l1 := AskHear(cfg, l, t, k);
      assert ps[1..] == cfg.peers[t.node][k + 1..n];
      forall q | 0 <= q < |ps[1..]| ensures Willing(cfg, l1.s, ps[1..][q], x) {
        assert Willing(cfg, l.s, ps[q + 1], x);
      }
      l' := AskOn(cfg, l1, t, k + 1, n);
    }
  }

  /** A thread whose remaining peers are all willing enters. */
  lemma Finish(cfg: Config, l: Loose, t: Thread, k: nat) returns (l': Loose)
    requires Possible(cfg, l) && At(l.s, t, Asking(k)) && k <= |cfg.peers[t.node]|
    requires AllWilling(cfg, l.s, cfg.peers[t.node][k..], StampOf(cfg, l.s, t.node))
    ensures Possible(cfg, l') && l'.read == l.read && l'.s.calls == l.s.calls
    ensures l'.s.threads == l.s.threads[t := Critical] && ClocksOnly(l.s, l'.s, l.s.nodes[t.node].myseqno)
  {
    var n := |cfg.peers[t.node]|;
    var ps := cfg.peers[t.node][k..n];
    assert ps == cfg.peers[t.node][k..];
    var l1 := AskOn(cfg, l, t, k, n);
    AskedClocks(l.s, l1.s, ps, l.s.nodes[t.node].myseqno);
    l' := EnterNow(cfg, l1, t);
  }

  lemma AskedClocks(s: State, s': State, ps: seq<nat>, seqno: int)
    requires forall q :: 0 <= q < |ps| ==> ps[q] < |s.nodes|
    requires s'.nodes == Told(s.nodes, ps, seqno)
    ensures ClocksOnly(s, s', seqno)
  {
    forall n | 0 <= n < |s.nodes|
      ensures s'.nodes[n] == s.nodes[n] || s'.nodes[n] == Clocked(s.nodes[n], seqno)
    {
      ToldAt(s.nodes, ps, seqno, n);
    }
  }

  // ----- the run

  /** What initialisation gives every server: each other node once, and not itself. */
  ghost predicate ListsOthersOnce(cfg: Config) {
    && CompleteMembership(cfg) && NoSelfCalls(cfg)
    && forall i, p, q :: 0 <= i < |cfg.peers| && 0 <= p < q < |cfg.peers[i]| ==> cfg.peers[i][p] != cfg.peers[i][q]
  }

  /** Node j asks i first and k next, and has a larger address than i. */
  ghost predicate Cast(cfg: Config, i: nat, j: nat, k: nat) {
    && WellFormed(cfg) && ListsOthersOnce(cfg)
    && i < |cfg.macs| && j < |cfg.macs| && k < |cfg.macs| && i != j && j != k && i != k
    && |cfg.peers[j]| >= 2 && cfg.peers[j][0] == i && cfg.peers[j][1] == k
    && cfg.macs[i] < cfg.macs[j]
  }

  function T(n: nat): Thread { Thread(n, 0) }

  ghost predicate Resting(v: LockRec, clock: int) {
    !v.locked && !v.requesting && v.highest == clock
  }

  ghost predicate Requesting(v: LockRec, seqno: int) {
    v.requesting && v.myseqno == seqno
  }

  /** Everybody but k rests with clock 1. */
  ghost predicate RestBut(s: State, k: nat) {
    forall n :: 0 <= n < |s.nodes| && n != k ==> Resting(s.nodes[n], 1)
  }

  ghost predicate Bystanders(s: State, i: nat, j: nat, k: nat) {
    forall n :: 0 <= n < |s.nodes| && n != i && n != j && n != k ==> !s.nodes[n].requesting
  }

  /** K has acquired and released once, with number 1; its own clock has not moved. */
  ghost predicate Scene1(cfg: Config, l: Loose, k: nat) {
    && Possible(cfg, l) && k < |l.s.nodes| && l.s.threads == map[] && l.s.calls == map[] && l.read == map[]
    && RestBut(l.s, k) && !l.s.nodes[k].locked && l.s.nodes[k].highest == 0
  }

  lemma FirstAsk(cfg: Config, k: nat) returns (l: Loose)
    requires WellFormed(cfg) && ListsOthersOnce(cfg) && k < |cfg.macs|
    ensures Possible(cfg, l) && l.s.threads == map[T(k) := Asking(|cfg.peers[k]|)]
    ensures l.s.calls == map[] && l.read == map[]
    ensures RestBut(l.s, k) && l.s.nodes[k].highest == 0
  {
    l := Loose(Initial(cfg), map[]);
    assert IsLooseRun(cfg, l, []) && LooseExec(cfg, l, []) == l;
    l := Enlist(cfg, l, T(k));
    var nodes, ps := l.s.nodes, cfg.peers[k];
    assert ps[0..|ps|] == ps;
    forall q | 0 <= q < |ps| ensures Willing(cfg, l.s, ps[q], StampOf(cfg, l.s, k)) {
      assert ps[q] != k;
    }
    l := AskOn(cfg, l, T(k), 0, |ps|);
    forall n | 0 <= n < |nodes| ensures if n == k then l.s.nodes[n].highest == 0 else Resting(l.s.nodes[n], 1) {
      ToldAt(nodes, ps, 1, n);
      if n == k { assert n !in ps; }
    }
  }

  lemma FirstCycle(cfg: Config, k: nat) returns (l: Loose)
    requires WellFormed(cfg) && ListsOthersOnce(cfg) && k < |cfg.macs|
    ensures Scene1(cfg, l, k)
  {
    l := FirstAsk(cfg, k);
    l := EnterNow(cfg, l, T(k));
    l := ReleaseNow(cfg, l, T(k));
    l := LeaveNow(cfg, l, T(k));
  }

  /** K has taken number 1 again and is being handled at I, its q-th peer: the clock 1 is read, not yet written. */
  ghost predicate Scene2(cfg: Config, l: Loose, i: nat, k: nat, q: nat, c: CallId) {
    && Possible(cfg, l) && i < |cfg.macs| && k < |l.s.nodes| && q < |cfg.peers[k]| && cfg.peers[k][q] == i
    && l.s.threads == map[T(k) := Waiting(q, c)] && l.read == map[c := 1]
    && l.s.calls == map[c := Call(T(k), i, Stamp(1, cfg.macs[k]), InFlight)]
    && RestBut(l.s, k) && Requesting(l.s.nodes[k], 1)
  }

  lemma AskAgain(cfg: Config, l0: Loose, i: nat, k: nat, q: nat) returns (l: Loose)
    requires WellFormed(cfg) && ListsOthersOnce(cfg) && Scene1(cfg, l0, k)
    requires q < |cfg.peers[k]| && cfg.peers[k][q] == i
    ensures Possible(cfg, l) && l.s.threads == map[T(k) := Asking(q)] && l.s.calls == map[] && l.read == map[]
    ensures RestBut(l.s, k) && Requesting(l.s.nodes[k], 1)
  {
    l := Enlist(cfg, l0, T(k));
    var nodes, ps := l.s.nodes, cfg.peers[k][0..q];
    forall r | 0 <= r < |ps| ensures Willing(cfg, l.s, ps[r], StampOf(cfg, l.s, k)) {
      assert ps[r] != k && Resting(l0.s.nodes[ps[r]], 1);
    }
    l := AskOn(cfg, l, T(k), 0, q);
    forall n | 0 <= n < |nodes| ensures if n == k then Requesting(l.s.nodes[n], 1) else Resting(l.s.nodes[n], 1) {
      ToldAt(nodes, ps, 1, n);
    }
  }

  lemma FetchAtI(cfg: Config, l0: Loose, i: nat, k: nat, q: nat) returns (l: Loose, c: CallId)
    requires WellFormed(cfg) && ListsOthersOnce(cfg) && Scene1(cfg, l0, k)
    requires q < |cfg.peers[k]| && cfg.peers[k][q] == i && i != k
    ensures Scene2(cfg, l, i, k, q, c)
  {
    var l1 := AskAgain(cfg, l0, i, k, q);
    c := 0;
    var l2 := Loose(Result(cfg, l1.s, Ask(T(k), c)), l1.read);
    Go(cfg, l1, Ask(T(k), c), l2);
    l := LooseStep(cfg, l2, Fetch(c));
    GoOne(cfg, l2, Fetch(c), l);
  }

  /** J has taken number 2 and has been answered by r peers, the first being I; I's clock is r + 1. */
  ghost predicate Scene3(cfg: Config, l: Loose, i: nat, j: nat, k: nat, q: nat, c: CallId, r: nat) {
    && Possible(cfg, l) && Cast(cfg, i, j, k) && q < |cfg.peers[k]| && cfg.peers[k][q] == i
    && l.s.threads == map[T(k) := Waiting(q, c), T(j) := Asking(r)] && l.read == map[c := 1]
    && l.s.calls == map[c := Call(T(k), i, Stamp(1, cfg.macs[k]), InFlight)]
    && Resting(l.s.nodes[i], r + 1) && Requesting(l.s.nodes[j], 2) && Requesting(l.s.nodes[k], 1)
    && Bystanders(l.s, i, j, k)
  }

  lemma JBegins(cfg: Config, l0: Loose, i: nat, j: nat, k: nat, q: nat, c: CallId) returns (l: Loose)
    requires Cast(cfg, i, j, k) && Scene2(cfg, l0, i, k, q, c)
    ensures Scene3(cfg, l, i, j, k, q, c, 0)
  {
    assert forall n :: 0 <= n < |l0.s.nodes| && n != k ==> Resting(l0.s.nodes[n], 1);
    l := Enlist(cfg, l0, T(j));
  }

  lemma PassI(cfg: Config, l0: Loose, i: nat, j: nat, k: nat, q: nat, c: CallId) returns (l: Loose)
    requires Scene3(cfg, l0, i, j, k, q, c, 0)
    ensures Scene3(cfg, l, i, j, k, q, c, 1)
  {
    l := AskHear(cfg, l0, T(j), 0);
  }

  /** K's handler at I has written what it made of the old clock, and answered: I has forgotten J's number. */
  ghost predicate Scene4(cfg: Config, l: Loose, i: nat, j: nat, k: nat, p: Phase) {
    && Possible(cfg, l) && Cast(cfg, i, j, k)
    && l.s.threads == map[T(k) := p, T(j) := Asking(1)] && l.s.calls == map[] && l.read == map[]
    && Resting(l.s.nodes[i], 1) && Requesting(l.s.nodes[j], 2) && Requesting(l.s.nodes[k], 1)
    && Bystanders(l.s, i, j, k)
  }

  lemma StoreStale(cfg: Config, l0: Loose, i: nat, j: nat, k: nat, q: nat, c: CallId) returns (l: Loose)
    requires Scene3(cfg, l0, i, j, k, q, c, 1)
    ensures Possible(cfg, l) && l.s.threads == l0.s.threads && l.read == map[]
    ensures l.s.nodes == l0.s.nodes[i := l0.s.nodes[i].(highest := 1)]
    ensures l.s.calls == map[c := Call(T(k), i, Stamp(1, cfg.macs[k]), ClockDone)]
  {
    l := LooseStep(cfg, l0, Store(c));
    assert Loses(cfg, l0, Store(c));
    GoOne(cfg, l0, Store(c), l);
  }

  lemma AnswerK(cfg: Config, l0: Loose, i: nat, j: nat, k: nat, q: nat, c: CallId) returns (l: Loose)
    requires Scene3(cfg, l0, i, j, k, q, c, 1)
    ensures Scene4(cfg, l, i, j, k, Asking(q + 1))
  {
    var l1 := StoreStale(cfg, l0, i, j, k, q, c);
    var l2 := LooseStep(cfg, l1, Plain(TestFlag(c)));
    GoOne(cfg, l1, Plain(TestFlag(c)), l2);
    l := HearNext(cfg, l2, T(k), q, c);
    assert l.s.calls == map[];
  }

  lemma AnswersK(cfg: Config, s: State, i: nat, j: nat, k: nat, n: nat)
    requires InRange(cfg, s) && Cast(cfg, i, j, k) && Requesting(s.nodes[k], 1) && Requesting(s.nodes[j], 2)
    requires Bystanders(s, i, j, k) && !s.nodes[i].requesting && n < |s.nodes| && n != k
    ensures Willing(cfg, s, n, StampOf(cfg, s, k))
  {
  }

  /** K gets the rest of its answers and enters. */
  lemma KEnters(cfg: Config, l0: Loose, i: nat, j: nat, k: nat, q: nat) returns (l: Loose)
    requires Scene4(cfg, l0, i, j, k, Asking(q)) && q <= |cfg.peers[k]|
    ensures Scene4(cfg, l, i, j, k, Critical)
  {
    var ps := cfg.peers[k][q..];
    forall r | 0 <= r < |ps| ensures Willing(cfg, l0.s, ps[r], StampOf(cfg, l0.s, k)) {
      assert ps[r] == cfg.peers[k][q + r] != k;
      AnswersK(cfg, l0.s, i, j, k, ps[r]);
    }
    l := Finish(cfg, l0, T(k), q);
  }

  /** J is parked at K, which holds the lock. */
  ghost predicate Scene5(cfg: Config, l: Loose, i: nat, j: nat, k: nat, cj: CallId) {
    && Possible(cfg, l) && Cast(cfg, i, j, k)
    && l.s.threads == map[T(k) := Critical, T(j) := Waiting(1, cj)] && l.read == map[]
    && l.s.calls == map[cj := Call(T(j), k, Stamp(2, cfg.macs[j]), Parked)] && cj in l.s.nodes[k].deferred
    && Resting(l.s.nodes[i], 1) && Requesting(l.s.nodes[j], 2) && Requesting(l.s.nodes[k], 1)
    && Bystanders(l.s, i, j, k)
  }

  lemma JParks(cfg: Config, l0: Loose, i: nat, j: nat, k: nat) returns (l: Loose)
    requires Scene4(cfg, l0, i, j, k, Critical)
    ensures Scene5(cfg, l, i, j, k, 0)
  {
    l := AskNext(cfg, l0, T(j), 1, 0);
    var d := l.s.nodes[k].deferred;
    assert d[|d| - 1] == 0;
  }

  /** I, whose clock says 1, has taken number 2 as well and been answered by r peers; K is its p-th. */
  ghost predicate Scene6(cfg: Config, l: Loose, i: nat, j: nat, k: nat, cj: CallId, p: nat, r: nat) {
    && Possible(cfg, l) && Cast(cfg, i, j, k) && p < |cfg.peers[i]| && cfg.peers[i][p] == k
    && l.s.threads == map[T(k) := Critical, T(j) := Waiting(1, cj), T(i) := Asking(r)] && l.read == map[]
    && l.s.calls == map[cj := Call(T(j), k, Stamp(2, cfg.macs[j]), Parked)] && cj in l.s.nodes[k].deferred
    && Requesting(l.s.nodes[i], 2) && Requesting(l.s.nodes[j], 2) && Requesting(l.s.nodes[k], 1)
    && Bystanders(l.s, i, j, k)
  }

  /** J and the bystanders answer I. */
  lemma AnswersI(cfg: Config, s: State, i: nat, j: nat, k: nat, n: nat)
    requires InRange(cfg, s) && Cast(cfg, i, j, k) && Requesting(s.nodes[i], 2) && Requesting(s.nodes[j], 2)
    requires Bystanders(s, i, j, k) && n < |s.nodes| && n != i && n != k
    ensures Willing(cfg, s, n, StampOf(cfg, s, i))
  {
  }

  lemma IBegins(cfg: Config, l0: Loose, i: nat, j: nat, k: nat, cj: CallId, p: nat) returns (l: Loose)
    requires Scene5(cfg, l0, i, j, k, cj) && p < |cfg.peers[i]| && cfg.peers[i][p] == k
    ensures Scene6(cfg, l, i, j, k, cj, p, 0)
  {
    l := Enlist(cfg, l0, T(i));
  }

  lemma ComeToK(cfg: Config, l0: Loose, i: nat, j: nat, k: nat, cj: CallId, p: nat) returns (l: Loose)
    requires Scene6(cfg, l0, i, j, k, cj, p, 0)
    ensures Scene6(cfg, l, i, j, k, cj, p, p)
  {
    var ps := cfg.peers[i][0..p];
    forall r | 0 <= r < |ps| ensures Willing(cfg, l0.s, ps[r], StampOf(cfg, l0.s, i)) {
      assert ps[r] == cfg.peers[i][r] != i && cfg.peers[i][r] != cfg.peers[i][p];
      AnswersI(cfg, l0.s, i, j, k, ps[r]);
    }
    l := AskOn(cfg, l0, T(i), 0, p);
    AskedClocks(l0.s, l.s, ps, 2);
  }

  /** Both wait for K's answer, at stage g. */
  ghost predicate Scene7(cfg: Config, l: Loose, i: nat, j: nat, k: nat, cj: CallId, ci: CallId, p: nat, g: Stage) {
    && Possible(cfg, l) && Cast(cfg, i, j, k) && p < |cfg.peers[i]| && cfg.peers[i][p] == k && ci != cj
    && T(j) in l.s.threads && l.s.threads[T(j)] == Waiting(1, cj)
    && T(i) in l.s.threads && l.s.threads[T(i)] == Waiting(p, ci) && l.read == map[]
    && On(l.s, cj, g) && On(l.s, ci, g)
    && Requesting(l.s.nodes[i], 2) && Requesting(l.s.nodes[j], 2) && Bystanders(l.s, i, j, k)
  }

  lemma IParks(cfg: Config, l0: Loose, i: nat, j: nat, k: nat, cj: CallId, ci: CallId, p: nat) returns (l: Loose)
    requires Scene6(cfg, l0, i, j, k, cj, p, p) && ci != cj
    ensures Scene7(cfg, l, i, j, k, cj, ci, p, Parked) && At(l.s, T(k), Critical)
    ensures cj in l.s.nodes[k].deferred && ci in l.s.nodes[k].deferred
  {
    l := AskNext(cfg, l0, T(i), p, ci);
    var d := l.s.nodes[k].deferred;
    assert d[|d| - 1] == ci;
  }

  /** K releases and wakes both. */
  lemma KReleases(cfg: Config, l0: Loose, i: nat, j: nat, k: nat, cj: CallId, ci: CallId, p: nat) returns (l: Loose)
    requires Scene7(cfg, l0, i, j, k, cj, ci, p, Parked) && At(l0.s, T(k), Critical)
    requires cj in l0.s.nodes[k].deferred && ci in l0.s.nodes[k].deferred
    ensures Scene7(cfg, l, i, j, k, cj, ci, p, Answered)
  {
    l := ReleaseNow(cfg, l0, T(k));
  }

  /** J is inside, I waits with its answer at hand. */
  ghost predicate Scene8(cfg: Config, l: Loose, i: nat, j: nat, k: nat, ci: CallId, p: nat) {
    && Possible(cfg, l) && Cast(cfg, i, j, k) && p < |cfg.peers[i]| && cfg.peers[i][p] == k
    && At(l.s, T(j), Critical) && At(l.s, T(i), Waiting(p, ci)) && On(l.s, ci, Answered)
    && Requesting(l.s.nodes[i], 2) && Requesting(l.s.nodes[j], 2) && Bystanders(l.s, i, j, k)
  }

  lemma JEnters(cfg: Config, l0: Loose, i: nat, j: nat, k: nat, cj: CallId, ci: CallId, p: nat) returns (l: Loose)
    requires Scene7(cfg, l0, i, j, k, cj, ci, p, Answered)
    ensures Scene8(cfg, l, i, j, k, ci, p)
  {
    var l1 := HearNext(cfg, l0, T(j), 1, cj);
    var ps := cfg.peers[j][2..];
    forall r | 0 <= r < |ps| ensures Willing(cfg, l1.s, ps[r], StampOf(cfg, l1.s, j)) {
      assert ps[r] == cfg.peers[j][r + 2] != j;
      assert cfg.peers[j][0] != cfg.peers[j][r + 2] && cfg.peers[j][1] != cfg.peers[j][r + 2];
    }
    l := Finish(cfg, l1, T(j), 2);
  }

  /** J, inside, answers I, whose stamp is earlier; I enters too. */
  lemma IEnters(cfg: Config, l0: Loose, i: nat, j: nat, k: nat, ci: CallId, p: nat) returns (l: Loose)
    requires Scene8(cfg, l0, i, j, k, ci, p)
    ensures Possible(cfg, l) && At(l.s, T(i), Critical) && At(l.s, T(j), Critical)
  {
    var l1 := HearNext(cfg, l0, T(i), p, ci);
    var ps := cfg.peers[i][p + 1..];
    forall r | 0 <= r < |ps| ensures Willing(cfg, l1.s, ps[r], StampOf(cfg, l1.s, i)) {
      assert ps[r] == cfg.peers[i][p + 1 + r] != i && cfg.peers[i][p] != cfg.peers[i][p + 1 + r];
      AnswersI(cfg, l1.s, i, j, k, ps[r]);
    }
    l := Finish(cfg, l1, T(i), p + 1);
  }

  /** Up to the stale write and K's entry. */
  lemma KInside(cfg: Config, i: nat, j: nat, k: nat, q: nat) returns (l: Loose)
    requires Cast(cfg, i, j, k) && q < |cfg.peers[k]| && cfg.peers[k][q] == i
    ensures Scene4(cfg, l, i, j, k, Critical)
  {
    var l1 := FirstCycle(cfg, k);
    var l2, c := FetchAtI(cfg, l1, i, k, q);
    var l3 := JBegins(cfg, l2, i, j, k, q, c);
    var l4 := PassI(cfg, l3, i, j, k, q, c);
    var l5 := AnswerK(cfg, l4, i, j, k, q, c);
    l := KEnters(cfg, l5, i, j, k, q + 1);
  }

  /** Up to K's release, which wakes both. */
  lemma BothWoken(cfg: Config, l0: Loose, i: nat, j: nat, k: nat, p: nat) returns (l: Loose)
    requires Scene4(cfg, l0, i, j, k, Critical) && p < |cfg.peers[i]| && cfg.peers[i][p] == k
    ensures Scene7(cfg, l, i, j, k, 0, 1, p, Answered)
  {
    var l1 := JParks(cfg, l0, i, j, k);
    var l2 := IBegins(cfg, l1, i, j, k, 0, p);
    var l3 := ComeToK(cfg, l2, i, j, k, 0, p);
    var l4 := IParks(cfg, l3, i, j, k, 0, 1, p);
    l := KReleases(cfg, l4, i, j, k, 0, 1, p);
  }

  lemma TwoInside(cfg: Config, i: nat, j: nat, k: nat) returns (l: Loose)
    requires Cast(cfg, i, j, k)
    ensures Possible(cfg, l) && At(l.s, T(i), Critical) && At(l.s, T(j), Critical)
  {
    assert i in cfg.peers[k] && k in cfg.peers[i];
    var q :| 0 <= q < |cfg.peers[k]| && cfg.peers[k][q] == i;
    var p :| 0 <= p < |cfg.peers[i]| && cfg.peers[i][p] == k;
    var l1 := KInside(cfg, i, j, k, q);
    var l2 := BothWoken(cfg, l1, i, j, k, p);
    var l3 := JEnters(cfg, l2, i, j, k, 0, 1, p);
    l := IEnters(cfg, l3, i, j, k, 1, p);
  }

  // ----- exactly which systems need the update to be atomic

  lemma {:induction false} LargestMac(cfg: Config, n: nat) returns (j: nat)
    requires 0 < n <= |cfg.macs|
    ensures j < n && forall i :: 0 <= i < n ==> cfg.macs[i] <= cfg.macs[j]
    decreases n
  {
    j := n - 1;
    if n > 1 {
      var m := LargestMac(cfg, n - 1);
      if cfg.macs[m] > cfg.macs[j] {
        j := m;
      }
    }
  }

  lemma TwoPeers(cfg: Config, j: nat)
    requires WellFormed(cfg) && ListsOthersOnce(cfg) && |cfg.macs| >= 3 && j < |cfg.macs|
    ensures |cfg.peers[j]| >= 2
  {
    var a := if j == 0 then 1 else 0;
    var b := if j == 2 then 1 else 2;
    assert a in cfg.peers[j] && b in cfg.peers[j];
    var p :| 0 <= p < |cfg.peers[j]| && cfg.peers[j][p] == a;
    var q :| 0 <= q < |cfg.peers[j]| && cfg.peers[j][q] == b;
  }

  ghost predicate LooselyExclusive(cfg: Config) {
    forall las :: IsLooseRun(cfg, Loose(Initial(cfg), map[]), las) ==>
      MutuallyExclusive(LooseExec(cfg, Loose(Initial(cfg), map[]), las).s)
  }

  /** In every system of three or more nodes a lost update lets two nodes in at once, whatever release does. */
  lemma LostUpdateBreaks(cfg: Config) returns (las: seq<LooseAction>)
    requires WellFormed(cfg) && DistinctMacs(cfg) && ListsOthersOnce(cfg) && |cfg.macs| >= 3
    ensures IsLooseRun(cfg, Loose(Initial(cfg), map[]), las)
    ensures !MutuallyExclusive(LooseExec(cfg, Loose(Initial(cfg), map[]), las).s)
  {
    var j := LargestMac(cfg, |cfg.macs|);
    TwoPeers(cfg, j);
    var i, k := cfg.peers[j][0], cfg.peers[j][1];
    assert i != j && k != j && i != k && cfg.macs[i] != cfg.macs[j];
    var l := TwoInside(cfg, i, j, k);
    las :| IsLooseRun(cfg, Loose(Initial(cfg), map[]), las) && LooseExec(cfg, Loose(Initial(cfg), map[]), las) == l;
    assert At(l.s, T(i), Critical) && At(l.s, T(j), Critical) && T(i) != T(j);
  }

  /**
   With the clock update a read and a write, as the code has it: mutual
   exclusion holds in every run if and only if there are at most two nodes.
   */
  lemma SafeIffTwoNodes(cfg: Config)
    requires WellFormed(cfg) && DistinctMacs(cfg) && ListsOthersOnce(cfg)
    ensures LooselyExclusive(cfg) <==> |cfg.macs| <= 2
  {
    var l0 := Loose(Initial(cfg), map[]);
    if |cfg.macs| <= 2 {
      InitialBase(cfg);
      forall las | IsLooseRun(cfg, l0, las) ensures MutuallyExclusive(LooseExec(cfg, l0, las).s) {
        NeverLoses(cfg, l0, las);
        NoLostUpdateIsSafe(cfg, las);
      }
    } else {
      var las := LostUpdateBreaks(cfg);
    }
  }
}
