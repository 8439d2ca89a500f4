/** What a reconcile round knows once masters have been dispatched, as plain values: the statefulset every node
    belongs to, the nodes that own slots, the groups, and the masters chosen. */
module Scene {
  import opened Slots
  import opened Nodes
  import opened Roles
  import opened Choice
  import opened Placement

  datatype Scene = Scene(
    nodes: seq<Node>,                 // all nodes of the cluster
    home: map<Node, string>,          // the statefulset of each
    machine: map<Node, string>,       // the k8s node of each
    holders: set<Node>,               // those with slots
    replicas: set<Node>,              // those that follow a master
    groups: map<string, seq<Node>>,   // the nodes by statefulset
    chosen: map<string, Node>,        // the master of each expected statefulset
    current: seq<Node>,               // the masters with slots, listed
    masters: seq<Node>)               // the chosen masters, listed
  {
    /** The cluster is one whose members can be told apart, and no replica owns slots. */
    ghost predicate Members() {
      && NoDup(nodes) && home.Keys == ToSet(nodes) && holders + replicas <= ToSet(nodes) && holders !! replicas
      && (forall n, m :: n in nodes && m in nodes && n != m ==> Apart(n, m))
      && (forall n :: n in nodes ==> n.ID != "" && n.ID != "-")
    }

    /** The nodes of each statefulset, in order. */
    ghost function Groups(): map<string, seq<Node>> {
      map ss | ss in home.Values :: OfHome(nodes, home, ss)
    }

    /** The nodes that DispatchMasters is going to choose. */
    ghost function Picks(clusterName: string, masterSize: nat): map<string, Node> {
      Choices(Groups(), holders, machine, clusterName, masterSize)
    }

    /** The statefulset has at most one slot owner. */
    ghost predicate OneOwner(ss: string) {
      forall n, m :: n in holders && m in holders && n in home && m in home && home[n] == home[m] == ss ==> n == m
    }

    /** The groups are the statefulsets' nodes. */
    ghost predicate ByHome() {
      && home.Keys == ToSet(nodes)
      && (forall ss :: ss in groups ==> groups[ss] != [] && NoDup(groups[ss]))
      && (forall ss, n :: ss in groups && n in groups[ss] ==> n in nodes && home[n] == ss)
      && (forall n :: n in nodes ==> home[n] in groups && n in groups[home[n]])
    }

    /** Every chosen master is one of its statefulset, and its slot owner if there is one. */
    ghost predicate OwnMasters() {
      forall ss :: ss in chosen ==>
        ss in groups && chosen[ss] in groups[ss] && forall x :: x in groups[ss] && x in holders ==> x == chosen[ss]
    }

    ghost predicate Dispatched(clusterName: string, masterSize: nat) {
      && chosen.Keys == StatefulSetNames(clusterName, masterSize) && OwnMasters()
      && ToSet(current) == holders && NoDup(current)
      && ToSet(masters) == chosen.Values && |masters| == |chosen|
    }

    /** All nodes belong to expected statefulsets. */
    ghost predicate NoSurplus() {
      forall n :: n in home ==> home[n] in chosen
    }

    ghost function NodesOf(ss: string): set<Node> {
      set n | n in nodes && n in home && home[n] == ss
    }

    /** Every expected statefulset has this many nodes. */
    ghost predicate Complete(size: nat) {
      forall ss :: ss in chosen ==> |NodesOf(ss)| == size
    }

    ghost predicate Good(clusterName: string, masterSize: nat) {
      Members() && ByHome() && Dispatched(clusterName, masterSize)
    }

    lemma NodesApart()
      requires Members()
      ensures forall n, m :: n in nodes && m in nodes && n != m ==> Apart(n, m)
      ensures forall n :: n in nodes ==> n.ID != ""
    {
      hide NoDup, Apart;
    }

    lemma GroupsCovered()
      requires ByHome()
      ensures NodesIn(groups) == ToSet(nodes)
    {
      forall n | n in ToSet(nodes) ensures n in NodesIn(groups) {
        assert n in groups[home[n]];
      }
    }

    lemma ChosenNodes(clusterName: string, masterSize: nat)
      requires Good(clusterName, masterSize)
      ensures forall ss :: ss in chosen ==> chosen[ss] in nodes && home[chosen[ss]] == ss
      ensures forall ss, tt :: ss in chosen && tt in chosen && ss != tt ==> chosen[ss] != chosen[tt]
      ensures forall m :: m in masters ==> m in nodes && home[m] in chosen && chosen[home[m]] == m
      ensures |masters| == |chosen| == masterSize && ToSet(masters) == chosen.Values
    {
      hide NoDup, Apart;
      NamesCard(clusterName, masterSize);
      forall m | m in masters ensures m in nodes && home[m] in chosen && chosen[home[m]] == m {
        assert m in ToSet(masters);
        var ss :| ss in chosen && chosen[ss] == m;
      }
    }

    /** The list of chosen masters names no node twice. */
    lemma MastersDistinct(clusterName: string, masterSize: nat)
      requires Good(clusterName, masterSize)
      ensures NoDup(masters) && Distinct(masters)
    {
      hide NoDup, Apart;
      ChosenNodes(clusterName, masterSize);
      ValuesCard(chosen, chosen.Keys);
      assert ToSet(masters) == set ss | ss in chosen.Keys :: chosen[ss];
      CardNoDup(masters);
      NodesDistinct(masters);
    }

    lemma CurrentDistinct(clusterName: string, masterSize: nat)
      requires Good(clusterName, masterSize)
      ensures Distinct(current) && |current| == |holders| && forall n :: n in current <==> n in holders
    {
      hide NoDup, Apart;
      NoDupCard(current);
      forall n ensures n in current <==> n in holders {
        assert n in current <==> n in ToSet(current);
      }
      NodesDistinct(current);
    }

    lemma NodesDistinct(list: seq<Node>)
      requires Members() && NoDup(list) && forall n :: n in list ==> n in nodes
      ensures Distinct(list)
    {
      forall i, j | 0 <= i < j < |list| ensures list[i].ID != list[j].ID && list[i].IPPort() != list[j].IPPort() {
        assert Apart(list[i], list[j]);
      }
    }

    lemma Grouped(clusterName: string, masterSize: nat, cluster: map<NodeID, Node>)
      requires Good(clusterName, masterSize)
      requires forall n :: n in nodes ==> n.ID in cluster && cluster[n.ID] == n
      requires forall id :: id in cluster ==> cluster[id] in nodes && cluster[id].ID == id
      ensures WellGrouped(groups, chosen, cluster)
    {
      hide NoDup, Apart, Members, NodesIn;
      GroupsCovered();
      Identities(cluster);
      GroupsApart();
      assert chosen.Keys <= groups.Keys;
    }

    lemma GroupsChosen(clusterName: string, masterSize: nat)
      requires ByHome() && Dispatched(clusterName, masterSize) && NoSurplus()
      ensures groups.Keys == chosen.Keys && forall ss :: ss in groups ==> NoDup(groups[ss]) && chosen[ss] in groups[ss]
    {
      hide NoDup;
      forall ss | ss in groups ensures ss in chosen {
        HomeChosen(ss);
      }
      assert groups.Keys == chosen.Keys;
    }

    lemma GroupsApart()
      requires ByHome()
      ensures forall ss, tt, n :: ss in groups && tt in groups && n in groups[ss] && n in groups[tt] ==> ss == tt
    {
      hide NoDup;
      forall ss, tt, n | ss in groups && tt in groups && n in groups[ss] && n in groups[tt] ensures ss == tt {
        assert home[n] == ss;
      }
    }

    lemma Identities(cluster: map<NodeID, Node>)
      requires Members() && NodesIn(groups) == ToSet(nodes)
      requires forall n :: n in nodes ==> n.ID in cluster && cluster[n.ID] == n
      requires forall id :: id in cluster ==> cluster[id] in nodes && cluster[id].ID == id
      ensures forall n, m :: n in NodesIn(groups) && m in NodesIn(groups) && n != m ==> Apart(n, m)
      ensures forall n :: n in NodesIn(groups) ==> n.ID in cluster
      ensures forall id :: id in cluster ==> cluster[id].ID == id && id != "-" && id != ""
    {
      hide NoDup, Apart, NodesIn;
      forall n | n in NodesIn(groups) ensures n in nodes {
        assert n in ToSet(nodes);
      }
    }

    /** No owner is left out. */
    lemma HoldersChosen(clusterName: string, masterSize: nat)
      requires Good(clusterName, masterSize) && NoSurplus()
      ensures forall n :: n in holders ==> n in masters
    {
      hide NoDup, Apart;
      forall n | n in holders ensures n in masters {
        assert n in groups[home[n]] && chosen[home[n]] == n;
        assert n in ToSet(masters);
      }
    }

    /** With fewer owners than masters, some master has no slots; with as many, all have some. */
    lemma Pigeonhole(clusterName: string, masterSize: nat)
      requires Good(clusterName, masterSize) && NoSurplus()
      ensures |masters| > |current| ==> exists n :: n in masters && n !in holders
      ensures |masters| <= |current| ==> forall n :: n in masters ==> n in holders
    {
      hide NoDup, Apart;
      HoldersChosen(clusterName, masterSize);
      MastersDistinct(clusterName, masterSize);
      CurrentDistinct(clusterName, masterSize);
      NoDupCard(masters);
      assert holders <= ToSet(masters);
      if |masters| > |current| {
        assert ToSet(masters) != holders;
        var n :| n in ToSet(masters) && n !in holders;
        assert n in masters;
      } else {
        SubsetFull(holders, ToSet(masters));
      }
    }

    lemma GroupSizes(clusterName: string, masterSize: nat, size: nat)
      requires Good(clusterName, masterSize) && NoSurplus() && Complete(size)
      ensures forall ss :: ss in groups ==> ss in chosen && |groups[ss]| == size
    {
      hide Members, Dispatched, NoDup, Apart;
      forall ss | ss in groups ensures ss in chosen && |groups[ss]| == size {
        HomeChosen(ss);
        GroupSet(ss);
        NoDupCard(groups[ss]);
      }
    }

    lemma HomeChosen(ss: string)
      requires ByHome() && NoSurplus() && ss in groups
      ensures ss in chosen
    {
      var n := groups[ss][0];
      assert n in groups[ss] && home[n] == ss;
    }

    lemma GroupSet(ss: string)
      requires ByHome() && ss in groups
      ensures ToSet(groups[ss]) == NodesOf(ss)
    {
    }
  }

  lemma SubsetFull<T>(a: set<T>, b: set<T>)
    requires a <= b && |a| >= |b|
    ensures a == b
  {
    assert b == a + (b - a);
  }

  /** A list with as many places as members names none twice. */
  lemma {:induction false} CardNoDup<T>(s: seq<T>)
    requires |ToSet(s)| == |s|
    ensures NoDup(s)
  {
    if s != [] {
      var init, last := s[..|s| - 1], s[|s| - 1];
      assert s == init + [last];
      assert ToSet(s) == ToSet(init) + {last};
      SetSize(init);
      CardNoDup(init);
      assert last !in init;
    }
  }

  lemma {:induction false} SetSize<T>(s: seq<T>)
    ensures |ToSet(s)| <= |s|
  {
    if s == [] {
      assert ToSet(s) == {};
    } else {
      var init, last := s[..|s| - 1], s[|s| - 1];
      assert s == init + [last];
      assert ToSet(s) == ToSet(init) + {last};
      SetSize(init);
    }
  }
}
