/**
 From a deployment to the premises of mutual exclusion: every machine is given
 the same list of names, finds exactly its own name among them, and takes its
 first nonzero hardware address as tie-breaker. Then, initialised by the code
 of the client and the server, the system excludes in every run.
 */
module Deployment {
  import opened Xdr
  import opened Protocol
  import opened Safety
  import opened NodeList
  import opened Mac
  import opened Systems
  import opened LostUpdate
  import opened StaleClock

  /** One machine: the addresses it recognises as local, and its network interfaces. */
  datatype Machine = Machine(locals: seq<string>, interfaces: seq<Option<seq<Byte>>>)

  ghost predicate InterfacesOk(ifs: seq<Option<seq<Byte>>>) {
    forall k :: 0 <= k < |ifs| && ifs[k].Some? ==> |ifs[k].value| >= 6
  }

  /** The six bytes of the first nonzero hardware address. */
  ghost function Hardware(ifs: seq<Option<seq<Byte>>>): Option<seq<Byte>>
    requires InterfacesOk(ifs)
  {
    if ifs == [] then None
    else if ifs[0].Some? && Packed(ifs[0].value[..6]) != 0 then Some(ifs[0].value[..6])
    else Hardware(ifs[1..])
  }

  lemma {:induction false} HardwareSelected(ifs: seq<Option<seq<Byte>>>)
    requires InterfacesOk(ifs)
    ensures Hardware(ifs).None? ==> Selected(ifs) == 0
    ensures Hardware(ifs).Some? ==> |Hardware(ifs).value| == 6 && Selected(ifs) == Packed(Hardware(ifs).value) != 0
    decreases |ifs|
  {
    if ifs != [] {
      HardwareSelected(ifs[1..]);
    }
  }

  /** Names are usable and distinct, name i is local to machine i and to no other, addresses differ. */
  ghost predicate Sound(names: seq<string>, machines: seq<Machine>) {
    && |names| == |machines| && NamesOk(names) && Distinct(names)
    && (forall i :: 0 <= i < |machines| ==> InterfacesOk(machines[i].interfaces))
    && (forall i :: 0 <= i < |machines| ==> Hardware(machines[i].interfaces).Some?)
    && (forall i, j :: 0 <= i < j < |machines| ==>
          Hardware(machines[i].interfaces) != Hardware(machines[j].interfaces))
    && (forall i, j :: 0 <= i < |machines| && 0 <= j < |names| ==> (names[j] in machines[i].locals <==> i == j))
  }

  /** The node list server i holds after initialisation with the joined string. */
  ghost function NodesOf(names: seq<string>, m: Machine): seq<string> {
    Kept(Tokens(Join(names)), m.locals)
  }

  ghost function IndexOf(names: seq<string>, x: string): (k: nat)
    requires x in names
    ensures k < |names| && names[k] == x
  {
    var k :| 0 <= k < |names| && names[k] == x;
    k
  }

  ghost function Indices(names: seq<string>, xs: seq<string>): (ks: seq<nat>)
    requires forall k :: 0 <= k < |xs| ==> xs[k] in names
    ensures |ks| == |xs| && forall k :: 0 <= k < |xs| ==> ks[k] < |names| && names[ks[k]] == xs[k]
  {
    seq(|xs|, k requires 0 <= k < |xs| => IndexOf(names, xs[k]))
  }

  /** After initialisation server i's list holds exactly the other servers' names, each once. */
  lemma Membership(names: seq<string>, machines: seq<Machine>, i: nat)
    requires Sound(names, machines) && i < |machines|
    ensures Distinct(NodesOf(names, machines[i]))
    ensures forall x :: x in NodesOf(names, machines[i]) <==> x in names && x != names[i]
  {
    SplitJoin(names);
    KeptDistinct(names, machines[i].locals);
    forall x ensures x in NodesOf(names, machines[i]) <==> x in names && x != names[i] {
      KeptHas(names, machines[i].locals, x);
      if x in names {
        var j :| 0 <= j < |names| && names[j] == x;
      }
    }
  }

  /** It is the given list without the server's own name, in the given order. */
  lemma MembershipExact(names: seq<string>, machines: seq<Machine>, i: nat)
    requires Sound(names, machines) && i < |machines|
    ensures NodesOf(names, machines[i]) == names[..i] + names[i + 1..]
  {
    SplitJoin(names);
    KeptOthers(names, machines[i].locals, i);
  }

  ghost function PeersOf(names: seq<string>, machines: seq<Machine>, i: nat): (ks: seq<nat>)
    requires Sound(names, machines) && i < |machines|
    ensures forall k :: 0 <= k < |ks| ==> ks[k] < |names|
  {
    Membership(names, machines, i);
    Indices(names, NodesOf(names, machines[i]))
  }

  ghost function Deployed(names: seq<string>, machines: seq<Machine>, clears: bool): Config
    requires Sound(names, machines)
  {
    Config(
      seq(|machines|, i requires 0 <= i < |machines| => Selected(machines[i].interfaces)),
      seq(|machines|, i requires 0 <= i < |machines| => PeersOf(names, machines, i)),
      clears)
  }

  lemma PeersComplete(names: seq<string>, machines: seq<Machine>, i: nat, j: nat)
    requires Sound(names, machines) && i < |machines| && j < |machines| && i != j
    ensures j in PeersOf(names, machines, i)
  {
    Membership(names, machines, i);
    var xs := NodesOf(names, machines[i]);
    assert names[j] in xs;
    var k :| 0 <= k < |xs| && xs[k] == names[j];
    assert PeersOf(names, machines, i)[k] == j;
  }

  lemma MacsDiffer(names: seq<string>, machines: seq<Machine>, i: nat, j: nat)
    requires Sound(names, machines) && i < |machines| && j < |machines| && i != j
    ensures Selected(machines[i].interfaces) != Selected(machines[j].interfaces)
    ensures 0 < Selected(machines[i].interfaces) < TWO64
  {
    HardwareSelected(machines[i].interfaces);
    HardwareSelected(machines[j].interfaces);
    PackedOrder(Hardware(machines[i].interfaces).value, Hardware(machines[j].interfaces).value);
    PackedFits(Hardware(machines[i].interfaces).value);
  }

  /** Server i's list holds no server twice and not itself. */
  lemma PeersOnce(names: seq<string>, machines: seq<Machine>, i: nat, p: nat)
    requires Sound(names, machines) && i < |machines| && p < |PeersOf(names, machines, i)|
    ensures PeersOf(names, machines, i)[p] != i
    ensures forall q :: 0 <= q < p ==> PeersOf(names, machines, i)[q] != PeersOf(names, machines, i)[p]
  {
    Membership(names, machines, i);
    var xs := NodesOf(names, machines[i]);
    assert xs[p] in xs;
  }

  /** A sound deployment meets every premise of mutual exclusion. */
  lemma DeploymentIsSafe(names: seq<string>, machines: seq<Machine>, clears: bool)
    requires Sound(names, machines)
    ensures var cfg := Deployed(names, machines, clears);
      WellFormed(cfg) && DistinctMacs(cfg) && CompleteMembership(cfg)
  {
    var cfg := Deployed(names, machines, clears);
    forall i, j | 0 <= i < |cfg.macs| && 0 <= j < |cfg.macs| && i != j ensures cfg.macs[i] != cfg.macs[j] {
      MacsDiffer(names, machines, i, j);
    }
    forall i, j | 0 <= i < |cfg.peers| && 0 <= j < |cfg.peers| && i != j ensures j in cfg.peers[i] {
      PeersComplete(names, machines, i, j);
    }
  }

  /** In a sound deployment no lock is ever held by two threads, in any run of the whole system. */
  lemma DeployedMutualExclusion(names: seq<string>, machines: seq<Machine>, clears: bool,
                                sas: seq<SysAction>, lock: int, t: Thread, u: Thread)
    requires Sound(names, machines)
    requires var cfg := Deployed(names, machines, clears);
      && IsSysRun(cfg, InitialSystem(cfg), sas)
      && SysAt(SysExec(cfg, InitialSystem(cfg), sas), Key(lock, t), Critical)
      && SysAt(SysExec(cfg, InitialSystem(cfg), sas), Key(lock, u), Critical)
    ensures t == u
  {
    DeploymentIsSafe(names, machines, clears);
    SystemMutualExclusion(Deployed(names, machines, clears), sas, lock, t, u);
  }

  /**
   With the clock update a read and a write, as the code has it, a sound
   deployment excludes in every run if and only if it has at most two machines.
   */
  lemma DeployedLostUpdate(names: seq<string>, machines: seq<Machine>, clears: bool)
    requires Sound(names, machines)
    ensures LooselyExclusive(Deployed(names, machines, clears)) <==> |machines| <= 2
  {
    var cfg := Deployed(names, machines, clears);
    DeploymentIsSafe(names, machines, clears);
    forall i, q | 0 <= i < |cfg.peers| && 0 <= q < |cfg.peers[i]| ensures cfg.peers[i][q] != i {
      PeersOnce(names, machines, i, q);
    }
    forall i, p, q | 0 <= i < |cfg.peers| && 0 <= p < q < |cfg.peers[i]| ensures cfg.peers[i][p] != cfg.peers[i][q] {
      PeersOnce(names, machines, i, q);
    }
    SafeIffTwoNodes(cfg);
  }
}
