/**
 The lock servers with all their locks and with real messages: each server
 keeps a table of lock variables by lock number, and a request travels as the
 bytes of a RequestPack, which the handler decodes to find out which lock, which
 number and whose address it is about. Seen through one lock number, every run
 of this system is a run of the single-lock protocol.
 */
module Systems {
  import opened Xdr
  import opened Shapes
  import opened Protocol
  import opened Invariants
  import opened Safety

  // ----- messages

  datatype Pack = Pack(lock: int, stamp: Stamp)

  function PackValue(p: Pack): Value {
    Items([Num(p.lock), Num(p.stamp.seqno), Num(p.stamp.mac)])
  }

  ghost predicate PackFits(p: Pack) {
    -TWO31 <= p.lock < TWO31 && -TWO31 <= p.stamp.seqno < TWO31 && p.stamp.mac < TWO64
  }

  lemma PackFitsShape(p: Pack)
    requires PackFits(p)
    ensures Fits(REQUESTPACK, PackValue(p))
  {
    var fs, vs := REQUESTPACK.fields, PackValue(p).items;
    assert fs[1..] == [Int, UHyper] && vs[1..] == [Num(p.stamp.seqno), Num(p.stamp.mac)];
    assert fs[1..][1..] == [UHyper] && vs[1..][1..] == [Num(p.stamp.mac)];
    assert FieldsFit([UHyper][1..], [Num(p.stamp.mac)][1..]);
  }

  ghost function Wire(p: Pack): (b: seq<Byte>)
    requires PackFits(p)
    ensures Unwire(b) == Ok(p, [])
  {
    PackFitsShape(p);
    var b := Encode(REQUESTPACK, PackValue(p));
    RoundTrip(REQUESTPACK, PackValue(p), []);
    assert b + [] == b;
    b
  }

  ghost function Unwire(b: seq<Byte>): Parsed<Pack> {
    match Decode(REQUESTPACK, b)
    case Ok(Items(vs), rest) =>
      if |vs| == 3 && vs[0].Num? && vs[1].Num? && vs[2].Num? && vs[2].n >= 0
      then Ok(Pack(vs[0].n, Stamp(vs[1].n, vs[2].n)), rest) else Fail
    case _ => Fail
  }

  /** Every request the protocol can send survives the wire in 16 bytes, whatever follows it. */
  lemma WireRoundTrip(p: Pack, rest: seq<Byte>)
    requires PackFits(p)
    ensures |Wire(p)| == 16 && Unwire(Wire(p) + rest) == Ok(p, rest)
  {
    PackFitsShape(p);
    RoundTrip(REQUESTPACK, PackValue(p), rest);
    RequestSize(PackValue(p));
  }

  // ----- states

  datatype Key = Key(lock: int, t: Thread)

  datatype WireCall = WireCall(src: Thread, dst: nat, bytes: seq<Byte>, stage: Stage)

  type Table = map<int, LockRec>

  datatype System = System(
    tables: seq<Table>,
    threads: map<Key, Phase>,
    calls: map<CallId, WireCall>,
    entries: map<int, seq<Entry>>)

  /** The record a lookup that creates finds. */
  function Rec(table: Table, lock: int): LockRec {
    if lock in table then table[lock] else FRESH
  }

  function LogOf(s: System, lock: int): seq<Entry> {
    if lock in s.entries then s.entries[lock] else []
  }

  ghost predicate Readable(w: WireCall) { Unwire(w.bytes).Ok? }

  ghost function PackOf(w: WireCall): Pack
    requires Readable(w)
  {
    Unwire(w.bytes).value
  }

  ghost predicate SysInRange(cfg: Config, s: System) {
    && WellFormed(cfg)
    && |s.tables| == |cfg.macs|
    && (forall k :: k in s.threads ==> k.t.node < |s.tables|)
    && (forall c :: c in s.calls ==> s.calls[c].dst < |s.tables| && Readable(s.calls[c]))
  }

  ghost function InitialSystem(cfg: Config): System {
    System(seq(|cfg.macs|, _ => map[]), map[], map[], map[])
  }

  // ----- actions

  /** A thread acts on the lock it was called for; a handler on the lock its message names. */
  datatype SysAction = ByThread(lock: int, a: Action) | ByHandler(a: Action)

  ghost function LockOf(s: System, a: SysAction): int
    requires a.ByHandler? ==> IsHandler(a.a) && a.a.c in s.calls && Readable(s.calls[a.a.c])
  {
    match a
    case ByThread(lock, _) => lock
    case ByHandler(h) => PackOf(s.calls[h.c]).lock
  }

  ghost predicate SysAt(s: System, k: Key, p: Phase) {
    k in s.threads && s.threads[k] == p
  }

  ghost predicate SysOn(s: System, c: CallId, g: Stage) {
    c in s.calls && s.calls[c].stage == g
  }

  ghost function RecAt(s: System, n: nat, lock: int): LockRec
    requires n < |s.tables|
  {
    Rec(s.tables[n], lock)
  }

  ghost predicate SysEnabled(cfg: Config, s: System, sa: SysAction)
    requires SysInRange(cfg, s)
  {
    match sa
    case ByHandler(a) =>
      (match a
       case UpdateClock(c) => SysOn(s, c, InFlight)
       case TestFlag(c) => SysOn(s, c, ClockDone)
       case TestGreater(c) => SysOn(s, c, FlagSeen)
       case TestTie(c) => SysOn(s, c, NotGreater)
       case Park(c) => SysOn(s, c, MustDefer)
       case _ => false)
    case ByThread(lock, a) =>
      !IsHandler(a) &&
      var k := Key(lock, a.t);
      match a
      case Arrive(t) => k !in s.threads && t.node < |s.tables|
      case TakeLocal(t) => SysAt(s, k, Blocked) && !RecAt(s, t.node, lock).locked
      case RaiseFlag(t) => SysAt(s, k, Locked)
      case ReadClock(t) => SysAt(s, k, Flagged)
      case WriteSeqno(t) => k in s.threads && s.threads[k].ClockRead?
      case Send(t, c) =>
        && k in s.threads && s.threads[k].Asking? && s.threads[k].asked < |cfg.peers[t.node]|
        && c !in s.calls
        && PackFits(Pack(lock, Stamp(RecAt(s, t.node, lock).myseqno, cfg.macs[t.node])))
      case Receive(t) => k in s.threads && s.threads[k].Waiting? && SysOn(s, s.threads[k].call, Answered)
      case Enter(t) => k in s.threads && s.threads[k].Asking? && s.threads[k].asked == |cfg.peers[t.node]|
      case Flush(t) => SysAt(s, k, Critical)
      case Unlock(t) => SysAt(s, k, Flushed)
      case _ => false
  }

  ghost function PutPhase(s: System, k: Key, p: Phase): System {
    s.(threads := s.threads[k := p])
  }

  ghost function PutRec(s: System, n: nat, lock: int, v: LockRec): System
    requires n < |s.tables|
  {
    s.(tables := s.tables[n := s.tables[n][lock := v]])
  }

  ghost function PutStage(s: System, c: CallId, g: Stage): System
    requires c in s.calls
  {
    s.(calls := s.calls[c := s.calls[c].(stage := g)])
  }

  ghost function PutCall(s: System, c: CallId, w: WireCall): System {
    s.(calls := s.calls[c := w])
  }

  ghost function DropCall(s: System, c: CallId): System {
    s.(calls := s.calls - {c})
  }

  ghost function DropThread(s: System, k: Key): System {
    s.(threads := s.threads - {k})
  }

  ghost function Wake(s: System, parked: seq<CallId>): System {
    s.(calls := map c | c in s.calls :: if c in parked then s.calls[c].(stage := Answered) else s.calls[c])
  }

  ghost function Received(s: System, k: Key, i: nat, c: CallId): System {
    PutPhase(DropCall(s, c), k, Asking(i + 1))
  }

  ghost function HandlerStep(cfg: Config, s: System, a: Action): System
    requires SysInRange(cfg, s) && SysEnabled(cfg, s, ByHandler(a))
  {
    var w := s.calls[a.c];
    var pack := PackOf(w);
    var v, x := RecAt(s, w.dst, pack.lock), pack.stamp;
    match a
    case UpdateClock(c) => PutStage(PutRec(s, w.dst, pack.lock, Clocked(v, x.seqno)), c, ClockDone)
    case Park(c) => PutStage(PutRec(s, w.dst, pack.lock, Appended(v, c)), c, Parked)
    case _ => PutStage(s, a.c, Outcome(a, v, x, cfg.macs[w.dst]))
  }

  ghost function ThreadStep(cfg: Config, s: System, lock: int, a: Action): System
    requires SysInRange(cfg, s) && SysEnabled(cfg, s, ByThread(lock, a))
  {
    var k, n := Key(lock, a.t), a.t.node;
    var v := RecAt(s, n, lock);
    match a
    case Arrive(t) => PutPhase(PutRec(s, n, lock, v), k, Blocked)
    case TakeLocal(t) => PutPhase(PutRec(s, n, lock, Taken(v)), k, Locked)
    case RaiseFlag(t) => PutPhase(PutRec(s, n, lock, Raised(v)), k, Flagged)
    case ReadClock(t) => PutPhase(s, k, ClockRead(v.highest))
    case WriteSeqno(t) => PutPhase(PutRec(s, n, lock, Numbered(v, s.threads[k].clock)), k, Asking(0))
    case Send(t, c) =>
      var i := s.threads[k].asked;
      var bytes := Wire(Pack(lock, Stamp(v.myseqno, cfg.macs[n])));
      PutPhase(PutCall(s, c, WireCall(t, cfg.peers[n][i], bytes, InFlight)), k, Waiting(i, c))
    case Receive(t) => Received(s, k, s.threads[k].asked, s.threads[k].call)
    case Enter(t) =>
      var log := LogOf(s, lock) + [Entry(n, Stamp(v.myseqno, cfg.macs[n]))];
      PutPhase(s.(entries := s.entries[lock := log]), k, Critical)
    case Flush(t) => PutPhase(PutRec(Wake(s, v.deferred), n, lock, Emptied(v, cfg.clears)), k, Flushed)
    case Unlock(t) => PutRec(DropThread(s, k), n, lock, Freed(v))
    case _ => s
  }

  ghost function SysStep(cfg: Config, s: System, sa: SysAction): System
    requires SysInRange(cfg, s) && SysEnabled(cfg, s, sa)
  {
    match sa
    case ByHandler(a) => HandlerStep(cfg, s, a)
    case ByThread(lock, a) => ThreadStep(cfg, s, lock, a)
  }

  // ----- one lock's view

  ghost function ViewCall(w: WireCall): Call
    requires Readable(w)
  {
    Call(w.src, w.dst, PackOf(w).stamp, w.stage)
  }

  ghost function ViewThreads(threads: map<Key, Phase>, lock: int): (m: map<Thread, Phase>)
    ensures forall t :: t in m <==> Key(lock, t) in threads
    ensures forall t :: t in m ==> m[t] == threads[Key(lock, t)]
  {
    var ts := set k | k in threads && k.lock == lock :: k.t;
    assert forall t :: Key(lock, t) in threads ==> Key(lock, t).t in ts;
    map t | t in ts :: threads[Key(lock, t)]
  }

  ghost predicate AllReadable(calls: map<CallId, WireCall>) {
    forall c :: c in calls ==> Readable(calls[c])
  }

  ghost function ViewCalls(calls: map<CallId, WireCall>, lock: int): (m: map<CallId, Call>)
    requires AllReadable(calls)
  {
    map c | c in calls && PackOf(calls[c]).lock == lock :: ViewCall(calls[c])
  }

  ghost function ViewNodes(tables: seq<Table>, lock: int): (v: seq<LockRec>)
    ensures |v| == |tables| && forall i :: 0 <= i < |v| ==> v[i] == Rec(tables[i], lock)
  {
    seq(|tables|, i requires 0 <= i < |tables| => Rec(tables[i], lock))
  }

  /** The system as the threads and messages of one lock see it. */
  ghost function View(cfg: Config, s: System, lock: int): State
    requires SysInRange(cfg, s)
  {
    State(ViewNodes(s.tables, lock), ViewThreads(s.threads, lock), ViewCalls(s.calls, lock), LogOf(s, lock))
  }

  lemma ViewPutRec(cfg: Config, s: System, n: nat, l: int, v: LockRec, lock: int)
    requires SysInRange(cfg, s) && n < |s.tables|
    ensures SysInRange(cfg, PutRec(s, n, l, v))
    ensures View(cfg, PutRec(s, n, l, v), lock) ==
      if l == lock then SetNode(View(cfg, s, lock), n, v) else View(cfg, s, lock)
  {
    var tables' := PutRec(s, n, l, v).tables;
    assert ViewNodes(tables', lock) ==
      if l == lock then ViewNodes(s.tables, lock)[n := v] else ViewNodes(s.tables, lock);
  }

  lemma ViewPutPhase(cfg: Config, s: System, k: Key, p: Phase, lock: int)
    requires SysInRange(cfg, s) && k.t.node < |s.tables|
    ensures SysInRange(cfg, PutPhase(s, k, p))
    ensures View(cfg, PutPhase(s, k, p), lock) ==
      if k.lock == lock then SetPhase(View(cfg, s, lock), k.t, p) else View(cfg, s, lock)
  {
    assert ViewThreads(s.threads[k := p], lock) ==
      if k.lock == lock then ViewThreads(s.threads, lock)[k.t := p] else ViewThreads(s.threads, lock);
  }

  lemma ViewPutStage(cfg: Config, s: System, c: CallId, g: Stage, lock: int)
    requires SysInRange(cfg, s) && c in s.calls
    ensures SysInRange(cfg, PutStage(s, c, g))
    ensures (PackOf(s.calls[c]).lock == lock) <==> c in View(cfg, s, lock).calls
    ensures View(cfg, PutStage(s, c, g), lock) ==
      if PackOf(s.calls[c]).lock == lock then SetStage(View(cfg, s, lock), c, g) else View(cfg, s, lock)
  {
    var calls' := PutStage(s, c, g).calls;
    assert calls'[c].bytes == s.calls[c].bytes;
    assert AllReadable(calls') && AllReadable(s.calls);
    assert ViewCalls(calls', lock) ==
      if PackOf(s.calls[c]).lock == lock
      then ViewCalls(s.calls, lock)[c := ViewCall(s.calls[c]).(stage := g)] else ViewCalls(s.calls, lock);
  }

  lemma ViewPutCall(cfg: Config, s: System, c: CallId, w: WireCall, lock: int)
    requires SysInRange(cfg, s) && c !in s.calls && w.dst < |s.tables| && Readable(w)
    ensures SysInRange(cfg, PutCall(s, c, w)) && c !in View(cfg, s, lock).calls
    ensures View(cfg, PutCall(s, c, w), lock) ==
      if PackOf(w).lock == lock then View(cfg, s, lock).(calls := View(cfg, s, lock).calls[c := ViewCall(w)])
      else View(cfg, s, lock)
  {
    var calls' := s.calls[c := w];
    assert AllReadable(calls') && AllReadable(s.calls);
    assert ViewCalls(calls', lock) ==
      if PackOf(w).lock == lock then ViewCalls(s.calls, lock)[c := ViewCall(w)] else ViewCalls(s.calls, lock);
  }

  lemma ViewDropCall(cfg: Config, s: System, c: CallId, lock: int)
    requires SysInRange(cfg, s)
    ensures SysInRange(cfg, DropCall(s, c))
    ensures View(cfg, DropCall(s, c), lock) ==
            View(cfg, s, lock).(calls := View(cfg, s, lock).calls - {c})
  {
    var calls' := s.calls - {c};
    assert AllReadable(calls') && AllReadable(s.calls);
    assert ViewCalls(calls', lock) == ViewCalls(s.calls, lock) - {c};
  }

  lemma ViewWake(cfg: Config, s: System, parked: seq<CallId>, lock: int)
    requires SysInRange(cfg, s)
    ensures SysInRange(cfg, Wake(s, parked))
    ensures View(cfg, Wake(s, parked), lock) ==
            View(cfg, s, lock).(calls := Woken(View(cfg, s, lock).calls, parked))
  {
    var calls' := Wake(s, parked).calls;
    assert forall c :: c in calls' ==> calls'[c].bytes == s.calls[c].bytes;
    assert AllReadable(calls') && AllReadable(s.calls);
    assert ViewCalls(calls', lock) == Woken(ViewCalls(s.calls, lock), parked);
  }

  lemma ViewDropThread(cfg: Config, s: System, k: Key, lock: int)
    requires SysInRange(cfg, s)
    ensures SysInRange(cfg, DropThread(s, k))
    ensures View(cfg, DropThread(s, k), lock) ==
      if k.lock == lock then View(cfg, s, lock).(threads := View(cfg, s, lock).threads - {k.t})
      else View(cfg, s, lock)
  {
    assert ViewThreads(s.threads - {k}, lock) ==
      if k.lock == lock then ViewThreads(s.threads, lock) - {k.t} else ViewThreads(s.threads, lock);
  }

  // ----- simulation

  lemma ViewInRange(cfg: Config, s: System, lock: int)
    requires SysInRange(cfg, s)
    ensures InRange(cfg, View(cfg, s, lock))
  {
  }

  /** In the view of its own lock an action is the same action of the protocol; in any other it is nothing. */
  ghost predicate Simulates(cfg: Config, s: System, a: Action, l: int, s': System, lock: int)
    requires SysInRange(cfg, s) && SysInRange(cfg, s')
  {
    && InRange(cfg, View(cfg, s, lock))
    && if l == lock
       then Enabled(cfg, View(cfg, s, lock), a) && Step(cfg, View(cfg, s, lock), a) == View(cfg, s', lock)
       else View(cfg, s', lock) == View(cfg, s, lock)
  }

  /** What a lock's view knows of a call to that lock. */
  lemma ViewOfCall(cfg: Config, s: System, c: CallId, lock: int)
    requires SysInRange(cfg, s) && c in s.calls && PackOf(s.calls[c]).lock == lock
    ensures c in View(cfg, s, lock).calls && View(cfg, s, lock).calls[c] == ViewCall(s.calls[c])
    ensures View(cfg, s, lock).nodes[s.calls[c].dst] == RecAt(s, s.calls[c].dst, lock)
  {
  }

  /** Handlers that change the lock variables and their stage. */
  lemma RecSimulates(cfg: Config, s: System, a: Action, v: LockRec, g: Stage, lock: int)
    requires SysInRange(cfg, s) && SysEnabled(cfg, s, ByHandler(a)) && (a.UpdateClock? || a.Park?)
    requires var w := s.calls[a.c];
      var u := RecAt(s, w.dst, PackOf(w).lock);
      && v == (if a.UpdateClock? then Clocked(u, PackOf(w).stamp.seqno) else Appended(u, a.c))
      && g == (if a.UpdateClock? then ClockDone else Parked)
    ensures SysInRange(cfg, HandlerStep(cfg, s, a))
    ensures Simulates(cfg, s, a, PackOf(s.calls[a.c]).lock, HandlerStep(cfg, s, a), lock)
  {
    var w := s.calls[a.c];
    var l := PackOf(w).lock;
    ViewInRange(cfg, s, lock);
    ViewPutRec(cfg, s, w.dst, l, v, lock);
    ViewPutStage(cfg, PutRec(s, w.dst, l, v), a.c, g, lock);
    if l == lock { ViewOfCall(cfg, s, a.c, lock); }
  }

  /** Handlers that only test. */
  lemma TestSimulates(cfg: Config, s: System, a: Action, lock: int)
    requires SysInRange(cfg, s) && SysEnabled(cfg, s, ByHandler(a)) && !a.UpdateClock? && !a.Park?
    ensures SysInRange(cfg, HandlerStep(cfg, s, a))
    ensures Simulates(cfg, s, a, PackOf(s.calls[a.c]).lock, HandlerStep(cfg, s, a), lock)
  {
    var w := s.calls[a.c];
    ViewInRange(cfg, s, lock);
    ViewPutStage(cfg, s, a.c, Outcome(a, RecAt(s, w.dst, PackOf(w).lock), PackOf(w).stamp, cfg.macs[w.dst]), lock);
    if PackOf(s.calls[a.c]).lock == lock { ViewOfCall(cfg, s, a.c, lock); }
  }

  lemma HandlerSimulates(cfg: Config, s: System, a: Action, lock: int)
    requires SysInRange(cfg, s) && SysEnabled(cfg, s, ByHandler(a))
    ensures SysInRange(cfg, HandlerStep(cfg, s, a))
    ensures Simulates(cfg, s, a, PackOf(s.calls[a.c]).lock, HandlerStep(cfg, s, a), lock)
  {
    var w := s.calls[a.c];
    var u := RecAt(s, w.dst, PackOf(w).lock);
    if a.UpdateClock? {
      RecSimulates(cfg, s, a, Clocked(u, PackOf(w).stamp.seqno), ClockDone, lock);
    } else if a.Park? {
      RecSimulates(cfg, s, a, Appended(u, a.c), Parked, lock);
    } else {
      TestSimulates(cfg, s, a, lock);
    }
  }

  lemma ViewPutBoth(cfg: Config, s: System, n: nat, k: Key, v: LockRec, p: Phase, lock: int)
    requires SysInRange(cfg, s) && n == k.t.node < |s.tables|
    ensures var s' := PutPhase(PutRec(s, n, k.lock, v), k, p);
      && SysInRange(cfg, s')
      && View(cfg, s', lock) ==
         (if k.lock == lock then SetPhase(SetNode(View(cfg, s, lock), n, v), k.t, p) else View(cfg, s, lock))
  {
    ViewPutRec(cfg, s, n, k.lock, v, lock);
    ViewPutPhase(cfg, PutRec(s, n, k.lock, v), k, p, lock);
  }

  /** What a lock's view knows of a thread of that lock. */
  lemma ViewOfThread(cfg: Config, s: System, k: Key)
    requires SysInRange(cfg, s) && k.t.node < |s.tables|
    ensures var view := View(cfg, s, k.lock);
      && InRange(cfg, view)
      && (k.t in view.threads <==> k in s.threads)
      && (k in s.threads ==> view.threads[k.t] == s.threads[k])
      && view.nodes[k.t.node] == RecAt(s, k.t.node, k.lock)
  {
    ViewInRange(cfg, s, k.lock);
    assert Key(k.lock, k.t) == k;
  }

  lemma SameNode(s: State, n: nat)
    requires n < |s.nodes|
    ensures SetNode(s, n, s.nodes[n]) == s
  {
    assert s.nodes[n := s.nodes[n]] == s.nodes;
  }

  lemma ArriveSimulates(cfg: Config, s: System, l: int, a: Action, lock: int)
    requires SysInRange(cfg, s) && SysEnabled(cfg, s, ByThread(l, a)) && a.Arrive?
    ensures SysInRange(cfg, ThreadStep(cfg, s, l, a))
    ensures Simulates(cfg, s, a, l, ThreadStep(cfg, s, l, a), lock)
  {
    var k, n := Key(l, a.t), a.t.node;
    ViewInRange(cfg, s, lock);
    ViewOfThread(cfg, s, k);
    ViewPutBoth(cfg, s, n, k, RecAt(s, n, l), Blocked, lock);
    SameNode(View(cfg, s, l), n);
  }

  lemma ReadClockSimulates(cfg: Config, s: System, l: int, a: Action, lock: int)
    requires SysInRange(cfg, s) && SysEnabled(cfg, s, ByThread(l, a)) && a.ReadClock?
    ensures SysInRange(cfg, ThreadStep(cfg, s, l, a))
    ensures Simulates(cfg, s, a, l, ThreadStep(cfg, s, l, a), lock)
  {
    var k := Key(l, a.t);
    ViewInRange(cfg, s, lock);
    ViewOfThread(cfg, s, k);
    ViewPutPhase(cfg, s, k, ClockRead(RecAt(s, a.t.node, l).highest), lock);
  }

  /** Steps of a thread that write its own lock variables. */
  lemma WriteSimulates(cfg: Config, s: System, l: int, a: Action, lock: int)
    requires SysInRange(cfg, s) && SysEnabled(cfg, s, ByThread(l, a))
    requires a.TakeLocal? || a.RaiseFlag? || a.WriteSeqno?
    ensures SysInRange(cfg, ThreadStep(cfg, s, l, a))
    ensures Simulates(cfg, s, a, l, ThreadStep(cfg, s, l, a), lock)
  {
    var k, n := Key(l, a.t), a.t.node;
    var v := RecAt(s, n, l);
    ViewInRange(cfg, s, lock);
    ViewOfThread(cfg, s, k);
    if a.TakeLocal? {
      ViewPutBoth(cfg, s, n, k, Taken(v), Locked, lock);
    } else if a.RaiseFlag? {
      ViewPutBoth(cfg, s, n, k, Raised(v), Flagged, lock);
    } else {
      ViewPutBoth(cfg, s, n, k, Numbered(v, s.threads[k].clock), Asking(0), lock);
    }
  }

  lemma SendSimulates(cfg: Config, s: System, l: int, a: Action, lock: int)
    requires SysInRange(cfg, s) && SysEnabled(cfg, s, ByThread(l, a)) && a.Send?
    ensures SysInRange(cfg, ThreadStep(cfg, s, l, a))
    ensures Simulates(cfg, s, a, l, ThreadStep(cfg, s, l, a), lock)
  {
    var k, n := Key(l, a.t), a.t.node;
    var i := s.threads[k].asked;
    var pack := Pack(l, Stamp(RecAt(s, n, l).myseqno, cfg.macs[n]));
    var w := WireCall(a.t, cfg.peers[n][i], Wire(pack), InFlight);
    ViewInRange(cfg, s, lock);
    assert PackOf(w) == pack;
    ViewPutCall(cfg, s, a.c, w, lock);
    ViewPutPhase(cfg, PutCall(s, a.c, w), k, Waiting(i, a.c), lock);
  }

  lemma ReceiveView(cfg: Config, s: System, k: Key, c: CallId, p: Phase, lock: int)
    requires SysInRange(cfg, s) && k.t.node < |s.tables| && c in s.calls && PackOf(s.calls[c]).lock == k.lock
    ensures var s' := PutPhase(DropCall(s, c), k, p);
      && SysInRange(cfg, s')
      && View(cfg, s', lock) ==
         (if k.lock == lock
          then SetPhase(View(cfg, s, lock).(calls := View(cfg, s, lock).calls - {c}), k.t, p)
          else View(cfg, s, lock))
  {
    ViewDropCall(cfg, s, c, lock);
    ViewPutPhase(cfg, DropCall(s, c), k, p, lock);
    if k.lock != lock { ForeignCall(cfg, s, c, lock); }
  }

  lemma ReceiveStep(cfg: Config, view: State, t: Thread, i: nat, c: CallId, view': State)
    requires InRange(cfg, view) && At(view, t, Waiting(i, c)) && On(view, c, Answered)
    requires view' == SetPhase(view.(calls := view.calls - {c}), t, Asking(i + 1))
    ensures Enabled(cfg, view, Receive(t)) && Step(cfg, view, Receive(t)) == view'
  {
  }

  lemma ReceiveOwn(cfg: Config, s: System, k: Key, i: nat, c: CallId)
    requires SysInRange(cfg, s) && SysAt(s, k, Waiting(i, c)) && SysOn(s, c, Answered)
    requires PackOf(s.calls[c]).lock == k.lock
    ensures InRange(cfg, View(cfg, s, k.lock))
    ensures At(View(cfg, s, k.lock), k.t, Waiting(i, c)) && On(View(cfg, s, k.lock), c, Answered)
  {
    ViewOfThread(cfg, s, k);
    ViewOfCall(cfg, s, c, k.lock);
  }

  lemma ReceiveSimulates(cfg: Config, s: System, k: Key, i: nat, c: CallId, lock: int)
    requires SysInRange(cfg, s) && SysAt(s, k, Waiting(i, c)) && SysOn(s, c, Answered)
    requires PackOf(s.calls[c]).lock == k.lock
    ensures SysInRange(cfg, Received(s, k, i, c))
    ensures Simulates(cfg, s, Receive(k.t), k.lock, Received(s, k, i, c), lock)
  {
    ViewInRange(cfg, s, lock);
    ReceiveView(cfg, s, k, c, Asking(i + 1), lock);
    if k.lock == lock {
      ReceiveOwn(cfg, s, k, i, c);
      ReceiveStep(cfg, View(cfg, s, lock), k.t, i, c, View(cfg, Received(s, k, i, c), lock));
    }
  }

  lemma ReceiveIsReceived(cfg: Config, s: System, l: int, t: Thread)
    requires SysInRange(cfg, s) && SysEnabled(cfg, s, ByThread(l, Receive(t)))
    ensures var k := Key(l, t);
      SysStep(cfg, s, ByThread(l, Receive(t))) == Received(s, k, s.threads[k].asked, s.threads[k].call)
  {
  }

  lemma ForeignCall(cfg: Config, s: System, c: CallId, lock: int)
    requires SysInRange(cfg, s) && c in s.calls && PackOf(s.calls[c]).lock != lock
    ensures View(cfg, s, lock).(calls := View(cfg, s, lock).calls - {c}) == View(cfg, s, lock)
  {
    assert View(cfg, s, lock).calls - {c} == View(cfg, s, lock).calls;
  }

  /** A thread waits for a call of its own lock. */
  lemma WaitsForOwnLock(cfg: Config, s: System, k: Key)
    requires SysInRange(cfg, s) && k in s.threads && s.threads[k].Waiting?
    requires CallsMatch(cfg, View(cfg, s, k.lock))
    ensures s.threads[k].call in s.calls && PackOf(s.calls[s.threads[k].call]).lock == k.lock
  {
    ViewOfThread(cfg, s, k);
    assert ThreadMatch(cfg, View(cfg, s, k.lock), k.t);
  }

  lemma EnterSimulates(cfg: Config, s: System, l: int, a: Action, lock: int)
    requires SysInRange(cfg, s) && SysEnabled(cfg, s, ByThread(l, a)) && a.Enter?
    ensures SysInRange(cfg, ThreadStep(cfg, s, l, a))
    ensures Simulates(cfg, s, a, l, ThreadStep(cfg, s, l, a), lock)
  {
    var n := a.t.node;
    var log := LogOf(s, l) + [Entry(n, Stamp(RecAt(s, n, l).myseqno, cfg.macs[n]))];
    ViewInRange(cfg, s, lock);
    ViewPutPhase(cfg, s.(entries := s.entries[l := log]), Key(l, a.t), Critical, lock);
  }

  lemma FlushSimulates(cfg: Config, s: System, l: int, a: Action, lock: int)
    requires SysInRange(cfg, s) && SysEnabled(cfg, s, ByThread(l, a)) && a.Flush?
    requires ParkedListed(cfg, View(cfg, s, l))
    ensures SysInRange(cfg, ThreadStep(cfg, s, l, a))
    ensures Simulates(cfg, s, a, l, ThreadStep(cfg, s, l, a), lock)
  {
    var k, n := Key(l, a.t), a.t.node;
    var v := RecAt(s, n, l);
    ViewInRange(cfg, s, lock);
    ViewOfThread(cfg, s, k);
    ViewWake(cfg, s, v.deferred, lock);
    ViewPutBoth(cfg, Wake(s, v.deferred), n, k, Emptied(v, cfg.clears), Flushed, lock);
    if l != lock {
      WakesNobodyElse(cfg, s, l, n, lock);
    }
  }

  /** The deferred list of one lock names no call of another. */
  lemma WakesNobodyElse(cfg: Config, s: System, l: int, n: nat, lock: int)
    requires SysInRange(cfg, s) && n < |s.tables| && l != lock
    requires ParkedListed(cfg, View(cfg, s, l))
    ensures Woken(View(cfg, s, lock).calls, RecAt(s, n, l).deferred) == View(cfg, s, lock).calls
  {
    var d := RecAt(s, n, l).deferred;
    forall c | c in d ensures c !in View(cfg, s, lock).calls {
      DeferredOwnLock(cfg, s, l, n, c);
    }
  }

  lemma DeferredOwnLock(cfg: Config, s: System, l: int, n: nat, c: CallId)
    requires SysInRange(cfg, s) && n < |s.tables| && c in RecAt(s, n, l).deferred
    requires ParkedListed(cfg, View(cfg, s, l))
    ensures c in s.calls && PackOf(s.calls[c]).lock == l
  {
    var view, d := View(cfg, s, l), RecAt(s, n, l).deferred;
    assert view.nodes[n].deferred == d;
    var k :| 0 <= k < |d| && d[k] == c;
    assert DeferredMatch(view, n, k);
  }

  lemma UnlockView(cfg: Config, s: System, k: Key, v: LockRec, lock: int)
    requires SysInRange(cfg, s) && k.t.node < |s.tables|
    ensures var s' := PutRec(DropThread(s, k), k.t.node, k.lock, v);
      && SysInRange(cfg, s')
      && View(cfg, s', lock) ==
         (if k.lock == lock
          then SetNode(View(cfg, s, lock).(threads := View(cfg, s, lock).threads - {k.t}), k.t.node, v)
          else View(cfg, s, lock))
  {
    ViewDropThread(cfg, s, k, lock);
    ViewPutRec(cfg, DropThread(s, k), k.t.node, k.lock, v, lock);
  }

  lemma UnlockSimulates(cfg: Config, s: System, l: int, a: Action, lock: int)
    requires SysInRange(cfg, s) && SysEnabled(cfg, s, ByThread(l, a)) && a.Unlock?
    ensures SysInRange(cfg, ThreadStep(cfg, s, l, a))
    ensures Simulates(cfg, s, a, l, ThreadStep(cfg, s, l, a), lock)
  {
    var k := Key(l, a.t);
    ViewInRange(cfg, s, lock);
    ViewOfThread(cfg, s, k);
    UnlockView(cfg, s, k, Freed(RecAt(s, a.t.node, l)), lock);
  }

  lemma ThreadSimulates(cfg: Config, s: System, l: int, a: Action, lock: int)
    requires SysInRange(cfg, s) && SysEnabled(cfg, s, ByThread(l, a)) && !a.Receive?
    requires ParkedListed(cfg, View(cfg, s, l))
    ensures SysInRange(cfg, ThreadStep(cfg, s, l, a))
    ensures Simulates(cfg, s, a, l, ThreadStep(cfg, s, l, a), lock)
  {
    if a.Send? {
      SendSimulates(cfg, s, l, a, lock);
    } else if a.Enter? {
      EnterSimulates(cfg, s, l, a, lock);
    } else if a.Flush? {
      FlushSimulates(cfg, s, l, a, lock);
    } else if a.Unlock? {
      UnlockSimulates(cfg, s, l, a, lock);
    } else if a.Arrive? {
      ArriveSimulates(cfg, s, l, a, lock);
    } else if a.ReadClock? {
      ReadClockSimulates(cfg, s, l, a, lock);
    } else {
      WriteSimulates(cfg, s, l, a, lock);
    }
  }

  /** Every action is simulated, in every lock's view. */
  lemma StepSimulates(cfg: Config, s: System, sa: SysAction, lock: int)
    requires SysInRange(cfg, s) && SysEnabled(cfg, s, sa)
    requires InRange(cfg, View(cfg, s, LockOf(s, sa)))
    requires CallsMatch(cfg, View(cfg, s, LockOf(s, sa))) && ParkedListed(cfg, View(cfg, s, LockOf(s, sa)))
    ensures SysInRange(cfg, SysStep(cfg, s, sa))
    ensures Simulates(cfg, s, sa.a, LockOf(s, sa), SysStep(cfg, s, sa), lock)
  {
    if sa.ByHandler? {
      HandlerSimulates(cfg, s, sa.a, lock);
    } else if sa.a.Receive? {
      var k := Key(sa.lock, sa.a.t);
      WaitsForOwnLock(cfg, s, k);
      ReceiveIsReceived(cfg, s, sa.lock, sa.a.t);
      ReceiveSimulates(cfg, s, k, s.threads[k].asked, s.threads[k].call, lock);
    } else {
      ThreadSimulates(cfg, s, sa.lock, sa.a, lock);
    }
  }

  // ----- runs

  ghost predicate IsSysRun(cfg: Config, s: System, sas: seq<SysAction>)
    decreases |sas|
  {
    SysInRange(cfg, s) &&
    (sas != [] ==> SysEnabled(cfg, s, sas[0]) && IsSysRun(cfg, SysStep(cfg, s, sas[0]), sas[1..]))
  }

  ghost function SysExec(cfg: Config, s: System, sas: seq<SysAction>): (r: System)
    requires IsSysRun(cfg, s, sas)
    ensures SysInRange(cfg, r)
    decreases |sas|
  {
    if sas == [] then s else SysExec(cfg, SysStep(cfg, s, sas[0]), sas[1..])
  }

  /** The actions of a run that concern one lock. */
  ghost function Projected(cfg: Config, s: System, sas: seq<SysAction>, lock: int): seq<Action>
    requires IsSysRun(cfg, s, sas)
    decreases |sas|
  {
    if sas == [] then []
    else
      (if LockOf(s, sas[0]) == lock then [sas[0].a] else []) +
      Projected(cfg, SysStep(cfg, s, sas[0]), sas[1..], lock)
  }

  /** Every lock's view satisfies the protocol invariant. */
  ghost predicate Tracks(cfg: Config, s: System) {
    SysInRange(cfg, s) && forall lock {:trigger View(cfg, s, lock)} :: Base(cfg, View(cfg, s, lock))
  }

  lemma InitialTracks(cfg: Config)
    requires WellFormed(cfg)
    ensures Tracks(cfg, InitialSystem(cfg))
    ensures forall lock {:trigger View(cfg, InitialSystem(cfg), lock)} ::
      View(cfg, InitialSystem(cfg), lock) == Initial(cfg)
  {
    forall lock ensures View(cfg, InitialSystem(cfg), lock) == Initial(cfg) {
      assert View(cfg, InitialSystem(cfg), lock).nodes == Initial(cfg).nodes;
      assert View(cfg, InitialSystem(cfg), lock).threads == map[];
      assert View(cfg, InitialSystem(cfg), lock).calls == map[];
    }
    InitialBase(cfg);
  }

  lemma StepTracks(cfg: Config, s: System, sa: SysAction)
    requires Tracks(cfg, s) && SysEnabled(cfg, s, sa)
    ensures Tracks(cfg, SysStep(cfg, s, sa))
  {
    assert Base(cfg, View(cfg, s, LockOf(s, sa)));
    StepSimulates(cfg, s, sa, 0);
    forall lock ensures Base(cfg, View(cfg, SysStep(cfg, s, sa), lock)) {
      StepSimulates(cfg, s, sa, lock);
      assert Base(cfg, View(cfg, s, lock));
      if LockOf(s, sa) == lock {
        StepBase(cfg, View(cfg, s, lock), sa.a);
      }
    }
  }

  lemma {:induction false} RunRefines(cfg: Config, s: System, sas: seq<SysAction>, lock: int)
    requires Tracks(cfg, s) && IsSysRun(cfg, s, sas)
    ensures Tracks(cfg, SysExec(cfg, s, sas))
    ensures IsRun(cfg, View(cfg, s, lock), Projected(cfg, s, sas, lock))
    ensures Exec(cfg, View(cfg, s, lock), Projected(cfg, s, sas, lock)) == View(cfg, SysExec(cfg, s, sas), lock)
    decreases |sas|
  {
    ViewInRange(cfg, s, lock);
    if sas != [] {
      var s' := SysStep(cfg, s, sas[0]);
      assert Base(cfg, View(cfg, s, LockOf(s, sas[0])));
      StepSimulates(cfg, s, sas[0], lock);
      StepTracks(cfg, s, sas[0]);
      RunRefines(cfg, s', sas[1..], lock);
      RunCons(cfg, View(cfg, s, lock), sas[0].a, Projected(cfg, s', sas[1..], lock), LockOf(s, sas[0]) == lock,
              View(cfg, s', lock));
    }
  }

  lemma RunCons(cfg: Config, v: State, a: Action, rest: seq<Action>, mine: bool, v': State)
    requires InRange(cfg, v) && IsRun(cfg, v', rest)
    requires if mine then Enabled(cfg, v, a) && Step(cfg, v, a) == v' else v' == v
    ensures var acts := (if mine then [a] else []) + rest;
      IsRun(cfg, v, acts) && Exec(cfg, v, acts) == Exec(cfg, v', rest)
  {
    assert ([a] + rest)[1..] == rest && [] + rest == rest;
  }

  /** Through any lock number, every run of the whole system is a run of the single-lock protocol. */
  lemma SystemRefines(cfg: Config, sas: seq<SysAction>, lock: int)
    requires WellFormed(cfg) && IsSysRun(cfg, InitialSystem(cfg), sas)
    ensures IsRun(cfg, Initial(cfg), Projected(cfg, InitialSystem(cfg), sas, lock))
    ensures Exec(cfg, Initial(cfg), Projected(cfg, InitialSystem(cfg), sas, lock)) ==
            View(cfg, SysExec(cfg, InitialSystem(cfg), sas), lock)
  {
    InitialTracks(cfg);
    assert View(cfg, InitialSystem(cfg), lock) == Initial(cfg);
    RunRefines(cfg, InitialSystem(cfg), sas, lock);
  }

  /** Mutual exclusion for every lock of the whole system, over encoded messages. */
  lemma SystemMutualExclusion(cfg: Config, sas: seq<SysAction>, lock: int, t: Thread, u: Thread)
    requires WellFormed(cfg) && DistinctMacs(cfg) && CompleteMembership(cfg)
    requires IsSysRun(cfg, InitialSystem(cfg), sas)
    requires SysAt(SysExec(cfg, InitialSystem(cfg), sas), Key(lock, t), Critical)
    requires SysAt(SysExec(cfg, InitialSystem(cfg), sas), Key(lock, u), Critical)
    ensures t == u
  {
    var s := SysExec(cfg, InitialSystem(cfg), sas);
    SystemRefines(cfg, sas, lock);
    MutualExclusion(cfg, Projected(cfg, InitialSystem(cfg), sas, lock));
    ViewOfThread(cfg, s, Key(lock, t));
    ViewOfThread(cfg, s, Key(lock, u));
    assert At(View(cfg, s, lock), t, Critical) && At(View(cfg, s, lock), u, Critical);
  }

  /** With fewer than 2^31 - 1 acquires of a lock, whatever a server has to send about it fits the wire. */
  lemma WireAlwaysFits(cfg: Config, sas: seq<SysAction>, lock: int, n: nat)
    requires WellFormed(cfg) && IsSysRun(cfg, InitialSystem(cfg), sas)
    requires -TWO31 <= lock < TWO31 && n < |cfg.macs| && cfg.macs[n] < TWO64
    requires Begun(Projected(cfg, InitialSystem(cfg), sas, lock)) < INT_MAX
    ensures var s := SysExec(cfg, InitialSystem(cfg), sas);
      PackFits(Pack(lock, Stamp(RecAt(s, n, lock).myseqno, cfg.macs[n])))
  {
    var s := SysExec(cfg, InitialSystem(cfg), sas);
    SystemRefines(cfg, sas, lock);
    ClockBound(cfg, Projected(cfg, InitialSystem(cfg), sas, lock));
    assert View(cfg, s, lock).nodes[n] == RecAt(s, n, lock);
  }
}
