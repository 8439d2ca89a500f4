/** Redis nodes as the operator sees them (pkg/redisutil/node.go). */
module Nodes {
  import opened Slots

  type NodeID = string
  type Addr = string

  const MASTER_ROLE := "master"
  const SLAVE_ROLE := "slave"

  datatype RedisRole = RoleMaster | RoleSlave | RoleNone

  /** host:port, with brackets around a host that holds a colon itself (an IPv6 address). */
  function JoinHostPort(host: string, port: string): Addr {
    if ':' in host then "[" + host + "]:" + port else host + ":" + port
  }

  /** As a port has no colon, different hosts or ports make different addresses. */
  lemma AddressesDiffer(host: string, port: string, host': string, port': string)
    requires ':' !in port && ':' !in port' && JoinHostPort(host, port) == JoinHostPort(host', port')
    ensures host == host' && port == port'
  {
    var head := if ':' in host then "[" + host + "]" else host;
    var head' := if ':' in host' then "[" + host' + "]" else host';
    assert JoinHostPort(host, port) == head + ":" + port && JoinHostPort(host', port') == head' + ":" + port';
    LastColon(head, port, head', port');
    assert ':' in host ==> head[1..|head| - 1] == host && head[1 + |host|] == ']' && ':' in head;
    assert ':' in host' ==> head'[1..|head'| - 1] == host' && ':' in head';
  }

  lemma LastColon(a: string, b: string, c: string, d: string)
    requires a + ":" + b == c + ":" + d && ':' !in b && ':' !in d
    ensures a == c && b == d
  {
    NotLater(a, b, c, d);
    NotLater(c, d, a, b);
    var s := a + ":" + b;
    assert s[..|a|] == a && s[|a| + 1..] == b && s[..|c|] == c && s[|c| + 1..] == d;
  }

  lemma NotLater(a: string, b: string, c: string, d: string)
    requires a + ":" + b == c + ":" + d && ':' !in b
    ensures |c| <= |a|
  {
    var s := a + ":" + b;
    assert s == c + ":" + d && s[|c|] == ':';
    assert forall k :: |a| < k < |s| ==> s[k] == b[k - |a| - 1];
  }

  class Node {
    const ID: NodeID
    const IP: string
    const Port: string
    var Role: string
    var MasterReferent: NodeID
    var Slots: seq<Slot>
    var balance: int
    var NodeName: string
    var PodName: string
    var StatefulSet: string

    /** A node as it appears once a `CLUSTER NODES` answer has been decoded. */
    constructor (id: NodeID, ip: string, port: string, role: string, master: NodeID, slots: seq<Slot>)
      ensures ID == id && IP == ip && Port == port
      ensures Role == role && MasterReferent == master && Slots == slots
      ensures NodeName == PodName == StatefulSet == ""
    {
      ID, IP, Port := id, ip, port;
      Role, MasterReferent, Slots := role, master, slots;
      balance := 0;
      NodeName, PodName, StatefulSet := "", "", "";
    }

    function IPPort(): Addr {
      JoinHostPort(IP, Port)
    }

    function TotalSlots(): nat
      reads this`Slots
    {
      |Slots|
    }

    /** An unknown role is told from the other fields. */
    function GetRole(): (r: RedisRole)
      reads this`Role, this`MasterReferent, this`Slots
      ensures r == RoleMaster <==>
        Role == MASTER_ROLE || (Role != SLAVE_ROLE && MasterReferent == "" && Slots != [])
      ensures r == RoleSlave <==> Role == SLAVE_ROLE || (Role != MASTER_ROLE && MasterReferent != "")
    {
      if Role == MASTER_ROLE then RoleMaster
      else if Role == SLAVE_ROLE then RoleSlave
      else if MasterReferent != "" then RoleSlave
      else if |Slots| > 0 then RoleMaster
      else RoleNone
    }

    predicate IsMasterWithSlot()
      reads this`Role, this`MasterReferent, this`Slots
    {
      GetRole() == RoleMaster && TotalSlots() > 0
    }

    predicate IsSlave()
      reads this`Role, this`MasterReferent, this`Slots
    {
      GetRole() == RoleSlave
    }

    method SetBalance(b: int)
      modifies this`balance
      ensures balance == b
    {
      balance := b;
    }

    /** The referent "-" is what a master prints in that column. */
    method SetReferentMaster(ref: NodeID)
      modifies this`MasterReferent
      ensures MasterReferent == if ref == "-" then "" else ref
    {
      MasterReferent := "";
      if ref == "-" {
        return;
      }
      MasterReferent := ref;
    }
  }

  /** What a cluster guarantees about its member list: ids and addresses tell nodes apart. */
  ghost predicate Distinct(nodes: seq<Node>) {
    && (forall i, j :: 0 <= i < j < |nodes| ==> nodes[i].ID != nodes[j].ID)
    && (forall i, j :: 0 <= i < j < |nodes| ==> nodes[i].IPPort() != nodes[j].IPPort())
  }

  function Addrs(nodes: seq<Node>): (r: seq<Addr>)
    ensures |r| == |nodes|
    ensures forall i :: 0 <= i < |nodes| ==> r[i] == nodes[i].IPPort()
  {
    if nodes == [] then [] else Addrs(nodes[..|nodes| - 1]) + [nodes[|nodes| - 1].IPPort()]
  }

  ghost function Lens(nodes: seq<Node>): (r: seq<nat>)
    reads nodes`Slots
    ensures |r| == |nodes|
    ensures forall i :: 0 <= i < |nodes| ==> r[i] == |nodes[i].Slots|
  {
    if nodes == [] then [] else Lens(nodes[..|nodes| - 1]) + [|nodes[|nodes| - 1].Slots|]
  }

  function IDs(nodes: seq<Node>): (r: seq<NodeID>)
    ensures |r| == |nodes|
    ensures forall i :: 0 <= i < |nodes| ==> r[i] == nodes[i].ID
  {
    if nodes == [] then [] else IDs(nodes[..|nodes| - 1]) + [nodes[|nodes| - 1].ID]
  }

  method GetNodeByID(nodes: seq<Node>, id: NodeID) returns (node: Node?)
    ensures node == null ==> forall n :: n in nodes ==> n.ID != id
    ensures node != null ==> node in nodes && node.ID == id
  {
    for i := 0 to |nodes|
      invariant forall n :: n in nodes[..i] ==> n.ID != id
    {
      if nodes[i].ID == id {
        return nodes[i];
      }
    }
    return null;
  }

  /** SortByFunc, for a `less` that compares an integer key.  Go's sort is not stable, so nothing is promised
      about nodes with equal keys. */
  method SortByFunc(nodes: seq<Node>, key: Node ~> int) returns (sn: seq<Node>)
    requires forall n :: n in nodes ==> key.requires(n)
    ensures multiset(sn) == multiset(nodes) && |sn| == |nodes|
    ensures forall n :: n in sn <==> n in nodes
    ensures forall i, j :: 0 <= i < j < |sn| && key.requires(sn[i]) && key.requires(sn[j]) ==> key(sn[i]) <= key(sn[j])
  {
    sn := [];
    var keys := [];
    for m := 0 to |nodes|
      invariant multiset(sn) == multiset(nodes[..m]) && |sn| == |keys| == m
      invariant forall i :: 0 <= i < m ==> sn[i] in nodes && keys[i] == key(sn[i])
      invariant Ordered(keys)
    {
      var x := nodes[m];
      assert nodes[..m + 1] == nodes[..m] + [x];
      var k := Position(keys, key(x));
      Inserted(sn, k, x);
      sn, keys := sn[..k] + [x] + sn[k..], keys[..k] + [key(x)] + keys[k..];
    }
    assert nodes[..|nodes|] == nodes;
    forall n ensures n in sn <==> n in nodes {
      assert n in sn <==> n in multiset(sn);
      assert n in nodes <==> n in multiset(nodes);
    }
  }

  /** Reordering a list keeps its nodes distinct. */
  lemma {:induction false} NoDupCount<T>(s: seq<T>, x: T)
    requires NoDup(s)
    ensures multiset(s)[x] <= 1
  {
    if s != [] {
      var n := |s| - 1;
      assert s == s[..n] + [s[n]];
      NoDupCount(s[..n], x);
      if s[n] == x {
        assert x !in s[..n];
      }
    }
  }

  lemma CountTwice<T>(t: seq<T>, i: nat, j: nat)
    requires i < j < |t| && t[i] == t[j]
    ensures multiset(t)[t[i]] >= 2
  {
    assert t == t[..j] + t[j..];
    assert t[i] in t[..j] && t[i] in t[j..];
  }

  lemma NoDupPermutation<T>(s: seq<T>, t: seq<T>)
    requires NoDup(s) && multiset(s) == multiset(t)
    ensures NoDup(t)
  {
    forall i, j | 0 <= i < j < |t| ensures t[i] != t[j] {
      if t[i] == t[j] {
        NoDupCount(s, t[i]);
        CountTwice(t, i, j);
      }
    }
  }

  lemma DistinctNoDup(nodes: seq<Node>)
    requires Distinct(nodes)
    ensures NoDup(nodes)
  {
  }

  lemma DistinctPermutation(nodes: seq<Node>, sn: seq<Node>)
    requires Distinct(nodes) && multiset(sn) == multiset(nodes)
    ensures Distinct(sn) && NoDup(sn)
  {
    NoDupPermutation(nodes, sn);
    forall i, j | 0 <= i < j < |sn| ensures sn[i].ID != sn[j].ID && sn[i].IPPort() != sn[j].IPPort() {
      assert sn[i] in multiset(nodes) && sn[j] in multiset(nodes);
      var a :| 0 <= a < |nodes| && nodes[a] == sn[i];
      var b :| 0 <= b < |nodes| && nodes[b] == sn[j];
      assert a != b;
    }
  }
}
