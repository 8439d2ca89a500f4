/** Detecting that a cluster has fallen apart, and choosing the part to keep: pkg/controller/heal/clustersplit.go. */
module ClusterSplit {
  import opened Slots
  import opened Nodes
  import opened Options

  /** A node in somebody's view; it counts unless it has a failure flag. */
  datatype Viewed = Viewed(addr: Addr, failing: bool)

  /** NodeInfos: the node asked and the others it knows. */
  datatype NodeInfos = NodeInfos(node: Option<Viewed>, friends: seq<Viewed>)

  /** The addresses of the healthy nodes in a view. */
  function Healthy(view: seq<Viewed>): (r: seq<Addr>)
    ensures forall a :: a in r <==> exists v :: v in view && v.addr == a && !v.failing
  {
    if view == [] then []
    else
      var init, last := view[..|view| - 1], view[|view| - 1];
      assert view == init + [last];
      if last.failing then Healthy(init) else Healthy(init) + [last.addr]
  }

  /** The cluster a node sees itself in; None for an entry without a node. */
  function ViewOf(infos: Option<NodeInfos>): Option<seq<Addr>> {
    match infos
    case None => None
    case Some(i) => if i.node.None? then None else Some(Healthy(i.friends + [i.node.value]))
  }

  /** Whom a node sees: itself and its friends, but for those with a failure flag. */
  ghost function Members(i: NodeInfos): (r: set<Addr>)
    ensures forall v :: v in i.friends && !v.failing ==> v.addr in r
    ensures i.node.Some? && !i.node.value.failing ==> i.node.value.addr in r
  {
    (set v | v in i.friends && !v.failing :: v.addr) +
    (if i.node.Some? && !i.node.value.failing then {i.node.value.addr} else {})
  }

  /** There is an entry with a node. */
  predicate Answers(infos: map<Addr, Option<NodeInfos>>, k: Addr) {
    k in infos && infos[k].Some? && infos[k].value.node.Some?
  }

  lemma ViewMembers(i: NodeInfos)
    requires i.node.Some?
    ensures ViewOf(Some(i)).Some? && ToSet(ViewOf(Some(i)).value) == Members(i)
    ensures ViewOf(Some(i)).value == [] <==> Members(i) == {}
  {
    hide Healthy;
    var slice, c := i.friends + [i.node.value], ViewOf(Some(i)).value;
    forall a ensures a in c <==> a in Members(i) {
      assert forall v :: v in slice <==> v in i.friends || v == i.node.value;
    }
    if c != [] {
      assert c[0] in c;
    }
  }

  predicate Touches(c: seq<Addr>, d: seq<Addr>) {
    exists a :: a in c && a in d
  }

  method FindInCluster(addr: Addr, clusters: seq<seq<Addr>>) returns (found: bool)
    ensures found <==> exists c :: c in clusters && addr in c
  {
    for i := 0 to |clusters|
      invariant forall c :: c in clusters[..i] ==> addr !in c
    {
      var c := clusters[i];
      for k := 0 to |c|
        invariant addr !in c[..k]
      {
        if addr == c[k] {
          assert c in clusters;
          return true;
        }
      }
      assert c[..|c|] == c;
      assert clusters[..i + 1] == clusters[..i] + [c];
    }
    assert clusters[..|clusters|] == clusters;
    return false;
  }

  predicate PairwiseApart(clusters: seq<seq<Addr>>) {
    forall i, j :: 0 <= i < j < |clusters| ==> !Touches(clusters[i], clusters[j])
  }

  /** The lists made so far: apart from each other, each some node's view, and every view looked at is one of them
      or touches one. */
  ghost predicate Listing(infos: map<Addr, Option<NodeInfos>>, rest: set<Addr>, clusters: seq<seq<Addr>>) {
    && PairwiseApart(clusters)
    && (forall c :: c in clusters ==> exists k :: k in infos && k !in rest && ViewOf(infos[k]) == Some(c))
    && (forall k :: k in infos && k !in rest && ViewOf(infos[k]).Some? ==> Covered(ViewOf(infos[k]).value, clusters))
    && multiset(clusters)[[]] == |Empty(infos, rest)|
  }

  /** The nodes that have been looked at and see no healthy node at all. */
  ghost function Empty(infos: map<Addr, Option<NodeInfos>>, rest: set<Addr>): set<Addr> {
    set k | k in infos && k !in rest && ViewOf(infos[k]) == Some([])
  }

  lemma EmptyStep(infos: map<Addr, Option<NodeInfos>>, rest: set<Addr>, clusters: seq<seq<Addr>>, key: Addr)
    requires key in infos && key !in rest
    ensures var v := ViewOf(infos[key]);
      |Empty(infos, rest)| == |Empty(infos, rest + {key})| + (if v == Some([]) then 1 else 0)
    ensures forall c :: multiset(clusters + [c])[[]] == multiset(clusters)[[]] + (if c == [] then 1 else 0)
  {
    hide ViewOf;
    assert Empty(infos, rest) == Empty(infos, rest + {key}) + (if ViewOf(infos[key]) == Some([]) then {key} else {});
  }

  ghost predicate Covered(view: seq<Addr>, clusters: seq<seq<Addr>>) {
    exists c :: c in clusters && (c == view || Touches(view, c))
  }

  /** One more entry. */
  lemma ListingStep(infos: map<Addr, Option<NodeInfos>>, rest: set<Addr>, clusters: seq<seq<Addr>>, key: Addr)
    requires Listing(infos, rest + {key}, clusters) && key in infos && key !in rest
    ensures var v := ViewOf(infos[key]);
      if v.None? || exists d :: d in clusters && Touches(v.value, d) then Listing(infos, rest, clusters)
      else Listing(infos, rest, clusters + [v.value])
  {
    hide ViewOf, Touches;
    var v := ViewOf(infos[key]);
    EmptyStep(infos, rest, clusters, key);
    if v.Some? {
      NothingTouched(v.value, clusters);
    }
    if v.Some? && !exists d :: d in clusters && Touches(v.value, d) {
      ApartNext(clusters, v.value);
      forall k | k in infos && k !in rest && ViewOf(infos[k]).Some?
        ensures Covered(ViewOf(infos[k]).value, clusters + [v.value])
      {
        if k != key {
          CoveredStill(ViewOf(infos[k]).value, clusters, v.value);
        } else {
          assert v.value in clusters + [v.value];
        }
      }
    }
  }

  lemma NothingTouched(c: seq<Addr>, clusters: seq<seq<Addr>>)
    ensures c == [] ==> !exists d :: d in clusters && Touches(c, d)
  {
  }

  lemma CoveredStill(view: seq<Addr>, clusters: seq<seq<Addr>>, c: seq<Addr>)
    requires Covered(view, clusters)
    ensures Covered(view, clusters + [c])
  {
    hide Touches;
    var d :| d in clusters && (d == view || Touches(view, d));
    assert d in clusters + [c];
  }

  lemma ApartNext(clusters: seq<seq<Addr>>, c: seq<Addr>)
    requires PairwiseApart(clusters) && forall d :: d in clusters ==> !Touches(c, d)
    ensures PairwiseApart(clusters + [c])
  {
    forall i, j | 0 <= i < j < |clusters + [c]| ensures !Touches((clusters + [c])[i], (clusters + [c])[j]) {
      if j == |clusters| {
        assert clusters[i] in clusters && !Touches(c, clusters[i]);
      } else {
        assert !Touches(clusters[i], clusters[j]);
      }
    }
  }

  /** The list of addresses of one view. */
  method BuildView(infos: NodeInfos) returns (c: seq<Addr>)
    requires infos.node.Some?
    ensures Some(c) == ViewOf(Some(infos)) && ToSet(c) == Members(infos)
  {
    ViewMembers(infos);
    var slice := infos.friends + [infos.node.value];
    c := [];
    for i := 0 to |slice|
      invariant c == Healthy(slice[..i])
    {
      assert slice[..i + 1][..i] == slice[..i];
      if !slice[i].failing {
        c := c + [slice[i].addr];
      }
    }
    assert slice[..|slice|] == slice;
  }

  /** Whether a view overlaps with a list made before. */
  method Overlaps(c: seq<Addr>, clusters: seq<seq<Addr>>) returns (overlap: bool)
    ensures overlap <==> exists d :: d in clusters && Touches(c, d)
  {
    overlap := false;
    for i := 0 to |c|
      invariant !overlap && forall a, d :: a in c[..i] && d in clusters ==> a !in d
    {
      assert c[..i + 1] == c[..i] + [c[i]];
      var found := FindInCluster(c[i], clusters);
      if found {
        var d :| d in clusters && c[i] in d;
        assert Touches(c, d);
        return true;
      }
    }
    assert c[..|c|] == c;
  }

  /** buildClustersLists, for any order of the infos. */
  method BuildClustersLists(infos: map<Addr, Option<NodeInfos>>) returns (clusters: seq<seq<Addr>>)
    ensures Listing(infos, {}, clusters)
  {
    hide Listing, Touches, Healthy;
    clusters := [];
    var rest := infos.Keys;
    NothingListed(infos);
    while rest != {}
      invariant rest <= infos.Keys && Listing(infos, rest, clusters)
      decreases rest
    {
      var key :| key in rest;
      assert (rest - {key}) + {key} == rest;
      rest := rest - {key};
      ListingStep(infos, rest, clusters, key);
      var nodeInfos := infos[key];
      if nodeInfos.None? || nodeInfos.value.node.None? {
        continue;
      }
      var c := BuildView(nodeInfos.value);
      var overlap := Overlaps(c, clusters);
      if !overlap {
        clusters := clusters + [c];
      }
    }
  }

  lemma NothingListed(infos: map<Addr, Option<NodeInfos>>)
    ensures Listing(infos, infos.Keys, [])
  {
    hide ViewOf;
    assert Empty(infos, infos.Keys) == {};
  }

  // ----- when nodes see the same cluster or different ones

  predicate IsView(infos: map<Addr, Option<NodeInfos>>, v: seq<Addr>) {
    exists k :: k in infos && ViewOf(infos[k]) == Some(v)
  }

  /** Any two nodes see the same members or none in common. */
  ghost predicate Consistent(infos: map<Addr, Option<NodeInfos>>) {
    forall k, l :: Answers(infos, k) && Answers(infos, l) ==>
      Members(infos[k].value) == Members(infos[l].value) || Members(infos[k].value) !! Members(infos[l].value)
  }

  lemma ViewsAgree(infos: map<Addr, Option<NodeInfos>>, v: seq<Addr>, w: seq<Addr>)
    requires Consistent(infos) && IsView(infos, v) && IsView(infos, w)
    ensures ToSet(v) == ToSet(w) || !Touches(v, w)
  {
    hide Members, Healthy;
    var k :| k in infos && ViewOf(infos[k]) == Some(v);
    var l :| l in infos && ViewOf(infos[l]) == Some(w);
    ViewMembers(infos[k].value);
    ViewMembers(infos[l].value);
    if a :| a in v && a in w {
      assert a in ToSet(v) && a in ToSet(w);
    }
  }

  lemma KeyView(infos: map<Addr, Option<NodeInfos>>, k: Addr)
    requires k in infos
    ensures Answers(infos, k) <==> ViewOf(infos[k]).Some?
    ensures Answers(infos, k) ==>
      ToSet(ViewOf(infos[k]).value) == Members(infos[k].value) &&
      (ViewOf(infos[k]).value == [] <==> Members(infos[k].value) == {})
  {
    hide Members, Healthy;
    if Answers(infos, k) {
      ViewMembers(infos[k].value);
    }
  }

  /** When all nodes see the same members there is a single list, and it has these members. */
  lemma OneCluster(infos: map<Addr, Option<NodeInfos>>, clusters: seq<seq<Addr>>, members: set<Addr>, k: Addr)
    requires Listing(infos, {}, clusters) && members != {} && Answers(infos, k)
    requires forall l :: Answers(infos, l) ==> Members(infos[l].value) == members
    ensures |clusters| == 1 && ToSet(clusters[0]) == members
  {
    hide ViewOf, Members, Healthy, Covered, Empty, ToSet, Touches;
    forall c | c in clusters ensures ToSet(c) == members {
      var l :| l in infos && ViewOf(infos[l]) == Some(c);
      KeyView(infos, l);
    }
    KeyView(infos, k);
    SomeList(ViewOf(infos[k]).value, clusters);
    if |clusters| > 1 {
      SameTouch(clusters[0], clusters[1], members);
      assert false;
    }
  }

  lemma SameTouch(c: seq<Addr>, d: seq<Addr>, members: set<Addr>)
    requires ToSet(c) == ToSet(d) == members != {}
    ensures Touches(c, d)
  {
    var a :| a in members;
    assert a in c && a in d;
  }

  lemma SomeList(view: seq<Addr>, clusters: seq<seq<Addr>>)
    requires Covered(view, clusters)
    ensures |clusters| > 0
  {
  }

  /** Then the lists are the different views, each once: every view that is not empty has the members of exactly one
      list. */
  lemma ListsAreViews(infos: map<Addr, Option<NodeInfos>>, clusters: seq<seq<Addr>>)
    requires Consistent(infos) && Listing(infos, {}, clusters)
    ensures forall c :: c in clusters ==> IsView(infos, c)
    ensures forall v :: IsView(infos, v) && v != [] ==> HasPart(clusters, v)
    ensures forall i, j :: 0 <= i < j < |clusters| && clusters[i] != [] ==> ToSet(clusters[i]) != ToSet(clusters[j])
  {
    hide ViewOf, HasPart;
    forall v | IsView(infos, v) && v != [] ensures HasPart(clusters, v) {
      ViewListed(infos, clusters, v);
    }
    forall i, j | 0 <= i < j < |clusters| && clusters[i] != [] ensures ToSet(clusters[i]) != ToSet(clusters[j]) {
      assert !Touches(clusters[i], clusters[j]);
      assert clusters[i][0] in ToSet(clusters[i]) && clusters[i][0] in clusters[i];
    }
  }

  /** Some list has just these members. */
  ghost predicate HasPart(clusters: seq<seq<Addr>>, v: seq<Addr>) {
    exists c :: c in clusters && ToSet(c) == ToSet(v)
  }

  lemma ViewListed(infos: map<Addr, Option<NodeInfos>>, clusters: seq<seq<Addr>>, v: seq<Addr>)
    requires Consistent(infos) && Listing(infos, {}, clusters) && IsView(infos, v)
    ensures HasPart(clusters, v)
  {
    hide ViewOf, Empty, ToSet, Consistent;
    var k :| k in infos && ViewOf(infos[k]) == Some(v);
    assert Covered(v, clusters);
    var c :| c in clusters && (c == v || Touches(v, c));
    assert IsView(infos, c);
    ViewsAgree(infos, v, c);
  }

  /** The parts found do not depend on the order the infos are walked in. */
  lemma OrderIrrelevant(infos: map<Addr, Option<NodeInfos>>, a: seq<seq<Addr>>, b: seq<seq<Addr>>)
    requires Consistent(infos) && Listing(infos, {}, a) && Listing(infos, {}, b)
    ensures forall c :: c in a && c != [] ==> HasPart(b, c)
    ensures multiset(a)[[]] == multiset(b)[[]]
  {
    hide ViewOf, Empty, ToSet, HasPart, Consistent;
    forall c | c in a && c != [] ensures HasPart(b, c) {
      ViewListed(infos, b, c);
    }
  }

  /** Two nodes that make for two lists: they see different clusters, or both of them see no healthy node. */
  ghost predicate Split(infos: map<Addr, Option<NodeInfos>>, k: Addr, l: Addr) {
    && k != l && Answers(infos, k) && Answers(infos, l)
    && (Members(infos[k].value) != Members(infos[l].value) || Members(infos[k].value) == Members(infos[l].value) == {})
  }

  /** A split is seen exactly when there are two such nodes. */
  lemma SplitDetected(infos: map<Addr, Option<NodeInfos>>, clusters: seq<seq<Addr>>)
    requires Consistent(infos) && Listing(infos, {}, clusters)
    ensures |clusters| > 1 <==> exists k, l :: Split(infos, k, l)
  {
    hide Listing, Consistent, Split;
    if |clusters| > 1 {
      TwoLists(infos, clusters);
    }
    if k, l :| Split(infos, k, l) {
      TwoViews(infos, clusters, k, l);
    }
  }

  lemma TwoLists(infos: map<Addr, Option<NodeInfos>>, clusters: seq<seq<Addr>>)
    requires Consistent(infos) && Listing(infos, {}, clusters) && |clusters| > 1
    ensures exists k, l :: Split(infos, k, l)
  {
    hide ViewOf, ToSet, Consistent, Members;
    var c, d := clusters[0], clusters[1];
    assert c in clusters && d in clusters;
    if c == d == [] {
      assert clusters == [c, d] + clusters[2..];
      TwoOf(Empty(infos, {}));
      var k, l :| k in Empty(infos, {}) && l in Empty(infos, {}) && k != l;
      KeyView(infos, k);
      KeyView(infos, l);
      assert Split(infos, k, l);
    } else {
      DifferentParts(infos, clusters);
      var k :| k in infos && ViewOf(infos[k]) == Some(c);
      var l :| l in infos && ViewOf(infos[l]) == Some(d);
      KeyView(infos, k);
      KeyView(infos, l);
      assert Split(infos, k, l);
    }
  }

  /** The first two lists have different members, unless both are empty. */
  lemma DifferentParts(infos: map<Addr, Option<NodeInfos>>, clusters: seq<seq<Addr>>)
    requires Listing(infos, {}, clusters) && |clusters| > 1
    ensures clusters[0] != [] || clusters[1] != [] ==> ToSet(clusters[0]) != ToSet(clusters[1])
  {
    hide ViewOf, Covered, Empty;
    assert !Touches(clusters[0], clusters[1]);
    if clusters[0] != [] {
      assert clusters[0][0] in ToSet(clusters[0]) && clusters[0][0] in clusters[0];
    } else if clusters[1] != [] {
      assert clusters[1][0] in ToSet(clusters[1]);
    }
  }

  lemma TwoOf<T>(s: set<T>)
    requires |s| >= 2
    ensures exists k, l :: k in s && l in s && k != l
  {
    var k :| k in s;
    assert s == {k} + (s - {k});
    var l :| l in s - {k};
    assert k in s && l in s && k != l;
  }

  lemma TwoViews(infos: map<Addr, Option<NodeInfos>>, clusters: seq<seq<Addr>>, k: Addr, l: Addr)
    requires Consistent(infos) && Listing(infos, {}, clusters) && Split(infos, k, l)
    ensures |clusters| > 1
  {
    hide ViewOf, ToSet, Consistent, Covered, Members;
    KeyView(infos, k);
    KeyView(infos, l);
    var v, w := ViewOf(infos[k]).value, ViewOf(infos[l]).value;
    if v == w == [] {
      assert {k, l} <= Empty(infos, {});
      assert Empty(infos, {}) == {k, l} + (Empty(infos, {}) - {k, l});
      CountUpTo(clusters, []);
    } else {
      ViewListed(infos, clusters, v);
      ViewListed(infos, clusters, w);
      var c :| c in clusters && ToSet(c) == ToSet(v);
      var d :| d in clusters && ToSet(d) == ToSet(w);
      TwoMembers(clusters, c, d);
    }
  }

  lemma {:induction false} CountUpTo<T>(s: seq<T>, x: T)
    ensures multiset(s)[x] <= |s|
  {
    if s != [] {
      assert s == s[..|s| - 1] + [s[|s| - 1]];
      CountUpTo(s[..|s| - 1], x);
    }
  }

  lemma TwoMembers<T>(s: seq<T>, x: T, y: T)
    requires x in s && y in s && x != y
    ensures |s| > 1
  {
  }

  // ----- the part to keep

  /** The first of the largest lists is kept, and the others are left as they were. */
  ghost predicate Elected(clusters: seq<seq<Addr>>, m: nat, main: seq<Addr>, others: seq<seq<Addr>>) {
    && m < |clusters| && main == clusters[m] && others == clusters[..m] + clusters[m + 1..]
    && (forall i :: 0 <= i < |clusters| ==> |clusters[i]| <= |main|)
    && (forall i :: 0 <= i < m ==> |clusters[i]| < |main|)
  }

  /** splitMainCluster; when there are only empty lists, all but the first are dropped. */
  method SplitMainCluster(clusters: seq<seq<Addr>>) returns (main: seq<Addr>, others: seq<seq<Addr>>)
    ensures (exists c :: c in clusters && c != []) ==> exists m :: Elected(clusters, m, main, others)
    ensures (forall c :: c in clusters ==> c == []) ==> main == [] && others == []
  {
    if |clusters| == 0 {
      return [], [];
    }
    var maincluster, maxSize := -1, 0;
    for i := 0 to |clusters|
      invariant maincluster == -1 ==> maxSize == 0 && forall k :: 0 <= k < i ==> clusters[k] == []
      invariant maincluster != -1 ==> 0 <= maincluster < i && |clusters[maincluster]| == maxSize > 0
      invariant forall k :: 0 <= k < i ==> |clusters[k]| <= maxSize
      invariant forall k :: 0 <= k < maincluster ==> |clusters[k]| < maxSize
    {
      if |clusters[i]| > maxSize {
        maxSize := |clusters[i]|;
        maincluster := i;
      }
    }
    if maincluster != -1 {
      main, others := clusters[maincluster], clusters[..maincluster] + clusters[maincluster + 1..];
      assert Elected(clusters, maincluster, main, others);
      assert clusters[maincluster] in clusters;
      return;
    }
    return clusters[0], [];
  }

  /** The kept list and the others are the lists there were. */
  lemma ElectedKeepsAll(clusters: seq<seq<Addr>>, m: nat, main: seq<Addr>, others: seq<seq<Addr>>)
    requires Elected(clusters, m, main, others)
    ensures multiset([main] + others) == multiset(clusters)
  {
    assert clusters == clusters[..m] + [main] + clusters[m + 1..];
  }
}
