/** The redis.conf of a cluster and the test whether it has changed: generateRedisConfContent in
    pkg/resources/configmaps/configmap.go and isRedisConfChanged in pkg/controller/manager/ensurer.go. */
module RedisConf {
  import opened Slots
  import opened Strings

  /** Byte order, as sort.Strings uses it. */
  predicate LessEq(a: string, b: string) {
    a == "" || (b != "" && (a[0] < b[0] || (a[0] == b[0] && LessEq(a[1..], b[1..]))))
  }

  lemma {:induction false} LessEqTotal(a: string, b: string)
    ensures LessEq(a, b) || LessEq(b, a)
    ensures LessEq(a, b) && LessEq(b, a) ==> a == b
  {
    if a != "" && b != "" {
      LessEqTotal(a[1..], b[1..]);
      if a[0] == b[0] {
        assert a == [a[0]] + a[1..] && b == [b[0]] + b[1..];
      }
    }
  }

  lemma {:induction false} LessEqTransitive(a: string, b: string, c: string)
    requires LessEq(a, b) && LessEq(b, c)
    ensures LessEq(a, c)
  {
    if a != "" && b != "" && c != "" && a[0] == b[0] == c[0] {
      LessEqTransitive(a[1..], b[1..], c[1..]);
    }
  }

  /** The one is the beginning of the other, or has the smaller character where they differ first. */
  ghost predicate Precedes(a: string, b: string) {
    exists i :: 0 <= i <= |a| && DiffersFrom(a, b, i)
  }

  predicate DiffersFrom(a: string, b: string, i: nat)
    requires i <= |a|
  {
    i <= |b| && a[..i] == b[..i] && (i == |a| || (i < |b| && a[i] < b[i]))
  }

  lemma {:induction false} ByteOrder(a: string, b: string)
    ensures LessEq(a, b) <==> Precedes(a, b)
  {
    if a == "" {
      assert DiffersFrom(a, b, 0);
    } else if b == "" || a[0] > b[0] {
      assert forall i :: 0 < i <= |a| && i <= |b| ==> a[..i][0] == a[0] && b[..i][0] == b[0];
    } else if a[0] < b[0] {
      assert DiffersFrom(a, b, 0);
    } else {
      ByteOrder(a[1..], b[1..]);
      OneLonger(a, b);
    }
  }

  lemma OneLonger(a: string, b: string)
    requires a != "" && b != "" && a[0] == b[0]
    ensures Precedes(a, b) <==> Precedes(a[1..], b[1..])
  {
    if i :| 0 <= i <= |a| && DiffersFrom(a, b, i) {
      assert a[1..][..i - 1] == a[..i][1..] && b[1..][..i - 1] == b[..i][1..];
      assert DiffersFrom(a[1..], b[1..], i - 1);
    }
    if i :| 0 <= i <= |a[1..]| && DiffersFrom(a[1..], b[1..], i) {
      assert a[..i + 1] == [a[0]] + a[1..][..i] && b[..i + 1] == [b[0]] + b[1..][..i];
      assert DiffersFrom(a, b, i + 1);
    }
  }

  ghost predicate Ascending(keys: seq<string>) {
    forall i, j :: 0 <= i < j < |keys| ==> Precedes(keys[i], keys[j])
  }

  lemma SortedAscending(keys: seq<string>)
    requires Sorted(keys)
    ensures Ascending(keys)
  {
    hide LessEq, Precedes;
    forall i, j | 0 <= i < j < |keys| ensures Precedes(keys[i], keys[j]) {
      ByteOrder(keys[i], keys[j]);
    }
  }

  ghost predicate Sorted(s: seq<string>) {
    forall i, j :: 0 <= i < j < |s| ==> LessEq(s[i], s[j])
  }

  /** The keys of a map, each once, in byte order. */
  ghost predicate KeyList(m: map<string, string>, keys: seq<string>) {
    Sorted(keys) && NoDup(keys) && forall k :: k in keys <==> k in m
  }

  lemma HasMember(s: seq<string>)
    ensures s != [] ==> exists k :: k in s
  {
    if s != [] {
      assert s[0] in s;
    }
  }

  /** There is only one such list, so the content does not depend on the order a map is walked in. */
  lemma {:induction false} KeyListUnique(a: seq<string>, b: seq<string>)
    requires Sorted(a) && NoDup(a) && Sorted(b) && NoDup(b) && forall k :: k in a <==> k in b
    ensures a == b
    decreases |a|
  {
    HasMember(a);
    HasMember(b);
    if a != [] && b != [] {
      assert a[0] in b && b[0] in a;
      LessEqTotal(a[0], b[0]);
      assert a[0] == b[0];
      forall k ensures k in a[1..] <==> k in b[1..] {
        assert k in a <==> k == a[0] || k in a[1..];
        assert k in b <==> k == b[0] || k in b[1..];
      }
      KeyListUnique(a[1..], b[1..]);
    }
  }

  function Line(m: map<string, string>, k: string): string
    requires k in m
  {
    k + " " + m[k]
  }

  /** The lines of the keys that have a value. */
  function Content(m: map<string, string>, keys: seq<string>): string
    requires forall k :: k in keys ==> k in m
  {
    if keys == [] then ""
    else
      var k := keys[|keys| - 1];
      Content(m, keys[..|keys| - 1]) + (if m[k] == "" then "" else Line(m, k) + "\n")
  }

  method SortStrings(s: seq<string>) returns (r: seq<string>)
    requires NoDup(s)
    ensures Sorted(r) && NoDup(r) && forall k :: k in r <==> k in s
  {
    r := [];
    for m := 0 to |s|
      invariant Sorted(r) && NoDup(r) && forall k :: k in r <==> k in s[..m]
    {
      assert s[..m + 1] == s[..m] + [s[m]];
      r := InsertString(r, s[m]);
    }
    assert s[..|s|] == s;
  }

  method InsertString(s: seq<string>, x: string) returns (r: seq<string>)
    requires Sorted(s) && NoDup(s) && x !in s
    ensures Sorted(r) && NoDup(r) && forall k :: k in r <==> k in s || k == x
  {
    hide LessEq;
    var i := 0;
    while i < |s| && LessEq(s[i], x)
      invariant 0 <= i <= |s|
      invariant forall j :: 0 <= j < i ==> LessEq(s[j], x)
    {
      i := i + 1;
    }
    if i < |s| {
      LessEqTotal(s[i], x);
      forall j | i <= j < |s| ensures LessEq(x, s[j]) {
        if i < j {
          LessEqTransitive(x, s[i], s[j]);
        }
      }
    }
    r := s[..i] + [x] + s[i..];
    assert s == s[..i] + s[i..];
  }

  /** generateRedisConfContent, for any order of the map's keys.  A nil map is the empty one. */
  method GenerateRedisConfContent(configMap: map<string, string>) returns (content: string)
    ensures exists keys :: KeyList(configMap, keys) && Ascending(keys) && content == Content(configMap, keys)
  {
    var ks := [];
    var rest := configMap.Keys;
    while rest != {}
      invariant rest <= configMap.Keys && NoDup(ks)
      invariant forall k :: k in ks <==> k in configMap && k !in rest
      decreases rest
    {
      var k :| k in rest;
      ks := ks + [k];
      rest := rest - {k};
    }
    var sorted := SortStrings(ks);
    content := "";
    for i := 0 to |sorted|
      invariant content == Content(configMap, sorted[..i])
    {
      var k := sorted[i];
      assert sorted[..i + 1][..i] == sorted[..i];
      var v := configMap[k];
      if |v| == 0 {
        continue;
      }
      content := content + (k + " " + v);
      content := content + "\n";
      assert content == Content(configMap, sorted[..i]) + (Line(configMap, k) + "\n");
    }
    assert sorted[..|sorted|] == sorted;
    SortedAscending(sorted);
    assert KeyList(configMap, sorted);
  }

  /** Whether a line of the stored configuration is in order: it is no setting, or one with the current value. */
  predicate LineOk(line: string, currentConf: map<string, string>) {
    var confLine := SplitInTwo(TrimSuffix(line, ' '), ' ');
    |confLine| == 2 ==> confLine[0] in currentConf && currentConf[confLine[0]] == confLine[1]
  }

  function ConfLines(confInCm: string): seq<string> {
    Split(TrimSuffix(confInCm, '\n'), '\n')
  }

  /** As many lines as settings, and every line in order. */
  predicate Unchanged(confInCm: string, currentConf: map<string, string>) {
    |ConfLines(confInCm)| == |currentConf| && forall l :: l in ConfLines(confInCm) ==> LineOk(l, currentConf)
  }

  method IsRedisConfChanged(confInCm: string, currentConf: map<string, string>) returns (changed: bool)
    ensures changed <==> !Unchanged(confInCm, currentConf)
  {
    var lines := Split(TrimSuffix(confInCm, '\n'), '\n');
    if |lines| != |currentConf| {
      return true;
    }
    for i := 0 to |lines|
      invariant forall l :: l in lines[..i] ==> LineOk(l, currentConf)
    {
      assert lines[..i + 1] == lines[..i] + [lines[i]];
      var line := TrimSuffix(lines[i], ' ');
      var confLine := SplitInTwo(line, ' ');
      assert lines[i] in lines;
      if |confLine| == 2 {
        if confLine[0] !in currentConf {
          return true;
        } else if currentConf[confLine[0]] != confLine[1] {
          return true;
        }
      }
    }
    assert lines[..|lines|] == lines;
    return false;
  }

  // ----- exact detection

  /** Settings that survive being written as lines: no key has a space or a newline, no value a newline or a final
      space. */
  predicate Writable(m: map<string, string>) {
    forall k :: k in m ==> ' ' !in k && '\n' !in k && '\n' !in m[k] && (m[k] == "" || m[k][|m[k]| - 1] != ' ')
  }

  /** The settings that have a value; only these are written. */
  function Effective(m: map<string, string>): map<string, string> {
    map k | k in m && m[k] != "" :: m[k]
  }

  /** The lines that are written. */
  function Lines(m: map<string, string>, keys: seq<string>): (r: seq<string>)
    requires forall k :: k in keys ==> k in m
  {
    if keys == [] then []
    else
      var k := keys[|keys| - 1];
      Lines(m, keys[..|keys| - 1]) + (if m[k] == "" then [] else [Line(m, k)])
  }

  function Join(lines: seq<string>): string {
    if lines == [] then "" else Join(lines[..|lines| - 1]) + (lines[|lines| - 1] + "\n")
  }

  lemma JoinNext(lines: seq<string>, l: string)
    ensures Join(lines + [l]) == Join(lines) + (l + "\n")
  {
    assert (lines + [l])[..|lines|] == lines;
  }

  lemma {:induction false} ContentIsJoin(m: map<string, string>, keys: seq<string>)
    requires forall k :: k in keys ==> k in m
    ensures Content(m, keys) == Join(Lines(m, keys))
  {
    hide Line, Join;
    if keys == [] {
      JoinNone();
    } else {
      var init, k := keys[..|keys| - 1], keys[|keys| - 1];
      ContentIsJoin(m, init);
      if m[k] == "" {
        assert Lines(m, keys) == Lines(m, init) && Content(m, keys) == Content(m, init);
      } else {
        JoinNext(Lines(m, init), Line(m, k));
      }
    }
  }

  lemma JoinNone()
    ensures Join([]) == ""
  {
  }

  /** Splitting joined lines gives them back. */
  lemma {:induction false} SplitJoin(lines: seq<string>, rest: string)
    requires forall l :: l in lines ==> '\n' !in l
    ensures Split(Join(lines) + rest, '\n') == lines + Split(rest, '\n')
  {
    if lines == [] {
      assert Join(lines) + rest == rest;
    } else {
      var init, last := lines[..|lines| - 1], lines[|lines| - 1];
      assert lines == init + [last];
      var more := last + ['\n'] + rest;
      assert Join(lines) + rest == Join(init) + more;
      SplitJoin(init, more);
      SplitFirst(last, '\n', rest);
    }
  }

  /** The lines read are the lines written; with nothing written there is one empty line. */
  lemma LinesReadBack(lines: seq<string>)
    requires forall l :: l in lines ==> '\n' !in l
    ensures ConfLines(Join(lines)) == if lines == [] then [""] else lines
  {
    if lines != [] {
      var init, last := lines[..|lines| - 1], lines[|lines| - 1];
      assert lines == init + [last];
      var content := Join(lines);
      assert content == Join(init) + last + "\n";
      assert TrimSuffix(content, '\n') == Join(init) + last;
      SplitJoin(init, last);
      SplitNone(last, '\n');
    }
  }

  lemma {:induction false} LinesOf(m: map<string, string>, keys: seq<string>, l: string)
    requires forall k :: k in keys ==> k in m
    ensures l in Lines(m, keys) <==> exists k :: k in keys && m[k] != "" && l == Line(m, k)
  {
    if keys != [] {
      var init, last := keys[..|keys| - 1], keys[|keys| - 1];
      assert keys == init + [last];
      LinesOf(m, init, l);
    }
  }

  function Valued(m: map<string, string>, keys: seq<string>): set<string> {
    set k | k in keys && k in m && m[k] != ""
  }

  lemma {:induction false} LinesCount(m: map<string, string>, keys: seq<string>)
    requires NoDup(keys) && forall k :: k in keys ==> k in m
    ensures |Lines(m, keys)| == |Valued(m, keys)|
  {
    if keys == [] {
      assert Valued(m, keys) == {};
    } else {
      var init, last := keys[..|keys| - 1], keys[|keys| - 1];
      assert keys == init + [last];
      LinesCount(m, init);
      assert last !in init;
      assert Valued(m, keys) == Valued(m, init) + (if m[last] != "" then {last} else {});
    }
  }

  /** A written line is in order exactly when the current configuration has that setting. */
  lemma WrittenLine(m: map<string, string>, k: string, currentConf: map<string, string>)
    requires Writable(m) && k in m && m[k] != ""
    ensures LineOk(Line(m, k), currentConf) <==> k in currentConf && currentConf[k] == m[k]
  {
    var line := Line(m, k);
    assert line == k + [' '] + m[k];
    assert line[|line| - 1] == m[k][|m[k]| - 1];
    SplitInTwoAt(k, ' ', m[k]);
  }

  /** A map that has all settings of another, and no more settings than that, is that other. */
  lemma SameSettings(e: map<string, string>, m: map<string, string>)
    requires |e| == |m| && forall k :: k in e ==> k in m && m[k] == e[k]
    ensures e == m
  {
    assert m.Keys == e.Keys + (m.Keys - e.Keys);
    assert e.Keys == m.Keys;
  }

  /** What was generated from one map is reported as unchanged against another exactly when that has the settings that
      were written; and when there was nothing to write, exactly when the other has a single setting, whatever it is. */
  lemma ChangeDetection(m1: map<string, string>, keys: seq<string>, m2: map<string, string>)
    requires Writable(m1) && KeyList(m1, keys)
    ensures Unchanged(Content(m1, keys), m2) <==> if Effective(m1) == map[] then |m2| == 1 else m2 == Effective(m1)
  {
    hide LessEq, Sorted, LineOk, ConfLines, Line;
    ContentIsJoin(m1, keys);
    var lines := Lines(m1, keys);
    forall l | l in lines ensures '\n' !in l {
      LinesOf(m1, keys, l);
      OneLine(m1, l);
    }
    LinesReadBack(lines);
    LinesCount(m1, keys);
    assert Effective(m1).Keys == Valued(m1, keys);
    if lines == [] {
      EmptyLine(m2);
      assert |Effective(m1)| == 0;
    } else {
      LinesInOrder(m1, keys, m2);
      if |lines| == |m2| && forall l :: l in lines ==> LineOk(l, m2) {
        SameSettings(Effective(m1), m2);
      }
    }
  }

  lemma OneLine(m: map<string, string>, l: string)
    requires Writable(m) && exists k :: k in m && m[k] != "" && l == Line(m, k)
    ensures '\n' !in l
  {
  }

  lemma EmptyLine(m: map<string, string>)
    ensures LineOk("", m)
  {
  }

  lemma LinesInOrder(m1: map<string, string>, keys: seq<string>, m2: map<string, string>)
    requires Writable(m1) && KeyList(m1, keys)
    ensures (forall l :: l in Lines(m1, keys) ==> LineOk(l, m2)) <==>
            forall k :: k in Effective(m1) ==> k in m2 && m2[k] == Effective(m1)[k]
  {
    hide LessEq, Sorted, LineOk, Line;
    if forall l :: l in Lines(m1, keys) ==> LineOk(l, m2) {
      forall k | k in Effective(m1) ensures k in m2 && m2[k] == Effective(m1)[k] {
        LinesOf(m1, keys, Line(m1, k));
        WrittenLine(m1, k, m2);
      }
    }
    if forall k :: k in Effective(m1) ==> k in m2 && m2[k] == Effective(m1)[k] {
      forall l | l in Lines(m1, keys) ensures LineOk(l, m2) {
        LinesOf(m1, keys, l);
        var k :| k in keys && m1[k] != "" && l == Line(m1, k);
        WrittenLine(m1, k, m2);
      }
    }
  }

  /** For settings that all have values, and that there are any of, detection is exact. */
  lemma ExactDetection(m1: map<string, string>, keys: seq<string>, m2: map<string, string>)
    requires Writable(m1) && KeyList(m1, keys) && m1 != map[] && forall k :: k in m1 ==> m1[k] != ""
    ensures Unchanged(Content(m1, keys), m2) <==> m1 == m2
  {
    hide Writable, KeyList, Unchanged, Content;
    ChangeDetection(m1, keys, m2);
    assert Effective(m1) == m1;
  }

  /** A configuration is found unchanged against itself exactly when it has settings and all have values, or when it is
      a single setting without a value.  Any other one is reported as changed in every round. */
  lemma SelfDetection(m: map<string, string>, keys: seq<string>)
    requires Writable(m) && KeyList(m, keys)
    ensures Unchanged(Content(m, keys), m) <==>
            || (m != map[] && forall k :: k in m ==> m[k] != "")
            || (|m| == 1 && forall k :: k in m ==> m[k] == "")
  {
    hide Writable, KeyList, Unchanged, Content;
    ChangeDetection(m, keys, m);
    if m == Effective(m) {
      assert forall k :: k in m ==> k in Effective(m);
    }
    if forall k :: k in m ==> m[k] != "" {
      assert Effective(m) == m;
    }
    if Effective(m) == map[] {
      assert forall k :: k in m ==> k !in Effective(m);
    }
    if forall k :: k in m ==> m[k] == "" {
      assert Effective(m) == map[];
    }
  }
}
