/**
 One lock server: the list of lock variables it searches and extends, the node
 list it was initialised with, and the handlers, each up to the point where it
 blocks. Every handler does to the table of lock variables what the protocol
 says; clocks and messages are parameters.
 */
module Server {
  import opened Protocol
  import opened Moves
  import opened NodeList
  import opened Systems

  // ----- lists of numbered records as tables

  ghost predicate NoRepeats(ns: seq<int>) {
    forall i, j :: 0 <= i < j < |ns| ==> ns[i] != ns[j]
  }

  ghost function TableOf(ns: seq<int>, rs: seq<LockRec>): Table
    requires |ns| == |rs|
    decreases |ns|
  {
    if ns == [] then map[]
    else TableOf(ns[..|ns| - 1], rs[..|ns| - 1])[ns[|ns| - 1] := rs[|ns| - 1]]
  }

  lemma {:induction false} TableKeys(ns: seq<int>, rs: seq<LockRec>, x: int)
    requires |ns| == |rs|
    ensures x in TableOf(ns, rs) <==> x in ns
    decreases |ns|
  {
    if ns != [] {
      var n := |ns| - 1;
      TableKeys(ns[..n], rs[..n], x);
      assert x in ns <==> x in ns[..n] || x == ns[n];
    }
  }

  lemma {:induction false} TableHas(ns: seq<int>, rs: seq<LockRec>, k: nat)
    requires |ns| == |rs| && NoRepeats(ns) && k < |ns|
    ensures ns[k] in TableOf(ns, rs) && TableOf(ns, rs)[ns[k]] == rs[k]
    decreases |ns|
  {
    var n := |ns| - 1;
    if k < n {
      TableHas(ns[..n], rs[..n], k);
    }
  }

  lemma TableAppend(ns: seq<int>, rs: seq<LockRec>, x: int, r: LockRec)
    requires |ns| == |rs|
    ensures TableOf(ns + [x], rs + [r]) == TableOf(ns, rs)[x := r]
  {
    assert (ns + [x])[..|ns|] == ns && (rs + [r])[..|rs|] == rs;
  }

  lemma {:induction false} TableUpdate(ns: seq<int>, rs: seq<LockRec>, k: nat, r: LockRec)
    requires |ns| == |rs| && NoRepeats(ns) && k < |ns|
    ensures TableOf(ns, rs[k := r]) == TableOf(ns, rs)[ns[k] := r]
    decreases |ns|
  {
    var n := |ns| - 1;
    if k < n {
      TableUpdate(ns[..n], rs[..n], k, r);
      assert rs[k := r][..n] == rs[..n][k := r];
      var m := TableOf(ns[..n], rs[..n]);
      assert m[ns[k] := r][ns[n] := rs[n]] == m[ns[n] := rs[n]][ns[k] := r];
    } else {
      assert rs[k := r][..n] == rs[..n];
    }
  }

  /** The record found is the table's, and putting it back changes nothing. */
  lemma TableFound(ns: seq<int>, rs: seq<LockRec>, k: nat)
    requires |ns| == |rs| && NoRepeats(ns) && k < |ns|
    ensures ns[k] in TableOf(ns, rs) && Rec(TableOf(ns, rs), ns[k]) == rs[k]
    ensures TableOf(ns, rs)[ns[k] := rs[k]] == TableOf(ns, rs)
  {
    TableHas(ns, rs, k);
  }

  /** A number not in the list gets a fresh record at its end. */
  lemma TableGrows(ns: seq<int>, rs: seq<LockRec>, x: int)
    requires |ns| == |rs| && NoRepeats(ns) && x !in ns
    ensures x !in TableOf(ns, rs) && NoRepeats(ns + [x])
    ensures TableOf(ns + [x], rs + [FRESH]) == TableOf(ns, rs)[x := Rec(TableOf(ns, rs), x)]
  {
    TableKeys(ns, rs, x);
    TableAppend(ns, rs, x, FRESH);
  }

  // ----- the server

  /** The mutex a deferred request sleeps on. */
  class Waiter {
    const call: CallId
    var asleep: bool

    constructor (c: CallId)
      ensures call == c && asleep
    {
      call, asleep := c, true;
    }
  }

  ghost function CallsOf(ws: seq<Waiter>): (cs: seq<CallId>)
    ensures |cs| == |ws| && forall i :: 0 <= i < |ws| ==> cs[i] == ws[i].call
  {
    seq(|ws|, i requires 0 <= i < |ws| => ws[i].call)
  }

  class LockVar {
    const lockNumber: int
    var locked: bool
    var requesting: bool
    var myseqno: int
    var highestseqno: int
    var deferred: seq<Waiter>

    constructor (n: int)
      ensures lockNumber == n && Record() == FRESH
    {
      lockNumber := n;
      locked, requesting, myseqno, highestseqno, deferred := false, false, 0, 0, [];
    }

    ghost function Record(): LockRec
      reads this
    {
      LockRec(locked, requesting, myseqno, highestseqno, CallsOf(deferred))
    }

    /** The clock update, the test and the append of a request handler, which then sleeps if it must. */
    method Handle(x: Stamp, mac: nat, c: CallId) returns (w: Waiter?)
      modifies this
      ensures var v := Clocked(old(Record()), x.seqno);
        (w != null <==> Defers(v, mac, x)) && Record() == if w != null then Appended(v, c) else v
      ensures w != null ==> fresh(w) && w.call == c && w.asleep && deferred == old(deferred) + [w]
    {
      highestseqno := if x.seqno > highestseqno then x.seqno else highestseqno;
      w := null;
      if requesting && (x.seqno > myseqno || (x.seqno == myseqno && x.mac > mac)) {
        var sleeper := new Waiter(c);
        deferred := deferred + [sleeper];
        w := sleeper;
      }
    }

    /** Wakes everyone on the deferred list, and starts a new one. */
    method Flush()
      modifies this`deferred, deferred
      ensures Record() == Emptied(old(Record()), false)
      ensures forall w :: w in old(deferred) ==> !w.asleep
    {
      for i := 0 to |deferred|
        invariant deferred == old(deferred)
        invariant forall j :: 0 <= j < i ==> !deferred[j].asleep
      {
        deferred[i].asleep := false;
      }
      deferred := [];
    }
  }

  class LockServer {
    const mac: nat
    var nodes: seq<string>
    var initialized: bool
    var lockvars: seq<LockVar>

    ghost function Numbers(): (ns: seq<int>)
      reads this, lockvars
      ensures |ns| == |lockvars| && forall i :: 0 <= i < |ns| ==> ns[i] == lockvars[i].lockNumber
    {
      seq(|lockvars|, i requires 0 <= i < |lockvars| reads this, lockvars => lockvars[i].lockNumber)
    }

    ghost function Records(): (rs: seq<LockRec>)
      reads this, lockvars
      ensures |rs| == |lockvars| && forall i :: 0 <= i < |rs| ==> rs[i] == lockvars[i].Record()
    {
      seq(|lockvars|, i requires 0 <= i < |lockvars| reads this, lockvars => lockvars[i].Record())
    }

    /** At most one record per lock number. */
    ghost predicate Valid()
      reads this, lockvars
    {
      NoRepeats(Numbers())
    }

    /** The list as a map from lock numbers to lock variables. */
    ghost function LockTable(): Table
      reads this, lockvars
    {
      TableOf(Numbers(), Records())
    }

    /** Those who sleep on a lock's deferred list. */
    ghost function Sleepers(number: int): set<Waiter>
      reads this, lockvars
    {
      set v, w | v in lockvars && v.lockNumber == number && w in v.deferred :: w
    }

    constructor (m: nat)
      ensures Valid() && mac == m && nodes == [] && !initialized && lockvars == [] && LockTable() == map[]
    {
      mac := m;
      nodes, initialized, lockvars := [], false, [];
    }

    /** Finds the record of a lock, or appends a fresh one when asked to; no record is ever replaced. */
    method FindLockVar(number: int, create: bool) returns (v: LockVar?, ghost k: nat)
      requires Valid()
      modifies this`lockvars
      ensures Valid() && old(lockvars) <= lockvars
      ensures v != null <==> number in old(LockTable()) || create
      ensures v != null ==> k < |lockvars| && lockvars[k] == v && v.lockNumber == number
      ensures v != null ==> v.Record() == Rec(old(LockTable()), number)
      ensures number in old(LockTable()) || v == null ==> lockvars == old(lockvars)
      ensures number !in old(LockTable()) && v != null ==> fresh(v) && lockvars == old(lockvars) + [v]
      ensures LockTable() == if v == null then old(LockTable()) else old(LockTable())[number := Rec(old(LockTable()), number)]
    {
      ghost var ns, rs := Numbers(), Records();
      k := 0;
      for i := 0 to |lockvars|
        invariant forall j :: 0 <= j < i ==> ns[j] != number
      {
        if lockvars[i].lockNumber == number {
          TableFound(ns, rs, i);
          return lockvars[i], i;
        }
      }
      TableKeys(ns, rs, number);
      if !create {
        return null, 0;
      }
      v, k := AppendLockVar(number, ns, rs);
    }

    /** A fresh record at the end of the list. */
    method AppendLockVar(number: int, ghost ns: seq<int>, ghost rs: seq<LockRec>) returns (v: LockVar, ghost k: nat)
      requires Valid() && ns == Numbers() && rs == Records() && number !in ns
      modifies this`lockvars
      ensures Valid() && fresh(v) && lockvars == old(lockvars) + [v] && k == |old(lockvars)|
      ensures v.lockNumber == number && v.Record() == FRESH && number !in old(LockTable())
      ensures LockTable() == old(LockTable())[number := Rec(old(LockTable()), number)]
    {
      v := new LockVar(number);
      k := |lockvars|;
      lockvars := lockvars + [v];
      assert Numbers() == ns + [number];
      assert Records() == rs + [FRESH];
      TableGrows(ns, rs, number);
    }

    /** After a handler has written to record k only, the table has changed at that number only. */
    twostate lemma Rewritten(k: nat)
      requires lockvars == old(lockvars) && old(Valid()) && k < |lockvars|
      requires forall v :: v in lockvars && v != lockvars[k] ==> v.Record() == old(v.Record())
      ensures Valid() && LockTable() == old(LockTable())[lockvars[k].lockNumber := lockvars[k].Record()]
    {
      var ns := Numbers();
      assert ns == old(Numbers());
      assert forall i :: 0 <= i < |lockvars| && i != k ==> ns[i] != ns[k] && lockvars[i] in lockvars;
      assert Records() == old(Records())[k := lockvars[k].Record()];
      TableUpdate(Numbers(), old(Records()), k, lockvars[k].Record());
    }

    // ----- handlers

    /** Initialisation adds to the node list every name of the string that is not this machine's. */
    method Init(nodeStr: string, locals: seq<string>)
      modifies this`nodes, this`initialized
      ensures nodes == old(nodes) + Kept(Tokens(nodeStr), locals) && initialized
    {
      nodes := InitNodes(nodeStr, locals, nodes);
      initialized := true;
    }

    /** Acquire, up to the local mutex; when it is taken already the thread blocks and nothing else changes. */
    method TakeLocal(number: int) returns (taken: bool)
      requires Valid()
      modifies this`lockvars, lockvars
      ensures Valid()
      ensures var v := Rec(old(LockTable()), number);
        taken == !v.locked && LockTable() == old(LockTable())[number := if taken then Protocol.Taken(v) else v]
    {
      var v, k := FindLockVar(number, true);
      label found:
      taken := !v.locked;
      v.locked := true;
      Rewritten@found(k);
    }

    /** Acquire, once the mutex is held: raises the flag and picks the next number. */
    method Begin(number: int)
      requires Valid() && number in LockTable()
      modifies this`lockvars, lockvars
      ensures Valid()
      ensures var v := old(LockTable())[number];
        LockTable() == old(LockTable())[number := Numbered(Raised(v), v.highest)]
    {
      var v, k := FindLockVar(number, true);
      label found:
      v.requesting := true;
      v.myseqno := v.highestseqno + 1;
      Rewritten@found(k);
    }

    /** Acquire, asking: the i-th node is sent this node's stamp for the lock. */
    method Ask(number: int, i: nat) returns (dest: string, pack: Pack)
      requires Valid() && number in LockTable() && i < |nodes|
      modifies this`lockvars
      ensures Valid() && LockTable() == old(LockTable())
      ensures dest == nodes[i] && pack == Pack(number, Stamp(LockTable()[number].myseqno, mac))
    {
      var v, k := FindLockVar(number, true);
      dest, pack := nodes[i], Pack(number, Stamp(v.myseqno, mac));
    }

    /** A peer's request: raises the clock, then puts the caller to sleep exactly when the protocol defers it. */
    method Request(pack: Pack, c: CallId) returns (w: Waiter?)
      requires Valid()
      modifies this`lockvars, lockvars
      ensures Valid()
      ensures var v := Clocked(Rec(old(LockTable()), pack.lock), pack.stamp.seqno);
        && (w != null <==> Defers(v, mac, pack.stamp))
        && LockTable() == old(LockTable())[pack.lock := if w != null then Appended(v, c) else v]
      ensures w != null ==> fresh(w) && w.call == c && w.asleep && w in Sleepers(pack.lock)
    {
      var v, k := FindLockVar(pack.lock, true);
      label found:
      w := v.Handle(pack.stamp, mac, c);
      Rewritten@found(k);
      assert w != null ==> v in lockvars && v.lockNumber == pack.lock && w in v.deferred;
    }

    /** Release wakes everyone who sleeps on the lock and nobody else, and frees the mutex; the flag stays up. */
    method Release(number: int)
      requires Valid() && number in LockTable()
      modifies this`lockvars, lockvars, Sleepers(number)
      ensures Valid()
      ensures var v := old(LockTable())[number];
        LockTable() == old(LockTable())[number := Freed(Emptied(v, false))]
      ensures forall w :: w in old(Sleepers(number)) ==> !w.asleep
    {
      var v, k := FindLockVar(number, false);
      OneRecord(k);
      label found:
      v.Flush();
      v.locked := false;
      Rewritten@found(k);
    }

    /** All who sleep on a lock are on the list of its one record. */
    lemma OneRecord(k: nat)
      requires Valid() && k < |lockvars|
      ensures Sleepers(lockvars[k].lockNumber) == set w | w in lockvars[k].deferred
    {
      var ns := Numbers();
      forall v | v in lockvars && v.lockNumber == lockvars[k].lockNumber ensures v == lockvars[k] {
        var i :| 0 <= i < |lockvars| && lockvars[i] == v;
        assert ns[i] == ns[k];
      }
    }
  }
}
