/** Whom a statefulset gets as its master, as plain values: the choices of DispatchMasters and PlaceMasters in
    pkg/controller/clustering/placement_v2.go. */
module Choice {
  import opened Nodes

  /** The nodes of a statefulset, in the order they are listed in. */
  function OfHome(nodes: seq<Node>, home: map<Node, string>, ss: string): seq<Node> {
    if nodes == [] then []
    else
      var n := nodes[|nodes| - 1];
      OfHome(nodes[..|nodes| - 1], home, ss) + (if n in home && home[n] == ss then [n] else [])
  }

  /** The place of the first node of the group that is in the set; the length of the group if none is. */
  function First(group: seq<Node>, among: set<Node>): (i: nat)
    ensures i <= |group| && (i < |group| ==> group[i] in among)
    ensures forall k :: 0 <= k < i ==> group[k] !in among
  {
    if group == [] || group[0] in among then 0 else 1 + First(group[1..], among)
  }

  lemma FirstIs(group: seq<Node>, among: set<Node>, i: nat)
    requires i < |group| && group[i] in among && forall k :: 0 <= k < i ==> group[k] !in among
    ensures First(group, among) == i
  {
  }

  lemma NoFirst(group: seq<Node>, among: set<Node>)
    requires forall n :: n in group ==> n !in among
    ensures First(group, among) == |group|
  {
  }

  /** The nodes of the group on a machine without any of these masters. */
  ghost function Free(group: seq<Node>, machine: map<Node, string>, masters: set<Node>): set<Node> {
    set n | n in group && n in machine && forall m :: m in masters && m in machine ==> machine[m] != machine[n]
  }

  /** The group needs a new master, and each of its nodes is on a machine that has a master already. */
  ghost predicate Compromise(group: seq<Node>, holders: set<Node>, machine: map<Node, string>, masters: set<Node>) {
    (forall n :: n in group ==> n !in holders) && Free(group, machine, masters) == {}
  }

  /** The slot owner of the group if there is one, else its first node on a machine without a master, else its first
      node. */
  ghost function Pick(group: seq<Node>, holders: set<Node>, machine: map<Node, string>, masters: set<Node>): Node
    requires group != []
  {
    var owner, free := First(group, holders), First(group, Free(group, machine, masters));
    if owner < |group| then group[owner] else if free < |group| then group[free] else group[0]
  }
}
