/** Sums over lists of integers and counts of owners: the arithmetic behind the planners. */
module Sums {
  import opened Slots

  function Sum(s: seq<int>): int {
    if s == [] then 0 else Sum(s[..|s| - 1]) + s[|s| - 1]
  }

  lemma {:induction false} SumConcat(a: seq<int>, b: seq<int>)
    ensures Sum(a + b) == Sum(a) + Sum(b)
  {
    if b == [] {
      assert a + b == a;
    } else {
      assert (a + b)[..|a + b| - 1] == a + b[..|b| - 1];
      SumConcat(a, b[..|b| - 1]);
    }
  }

  lemma {:induction false} SumUpdate(s: seq<int>, i: nat, v: int)
    requires i < |s|
    ensures Sum(s[i := v]) == Sum(s) - s[i] + v
  {
    var n := |s| - 1;
    if i == n {
      assert s[i := v][..n] == s[..n];
    } else {
      assert s[i := v][..n] == s[..n][i := v];
      SumUpdate(s[..n], i, v);
    }
  }

  /** A list without negative members sums to at least each of its members. */
  lemma {:induction false} SumAtLeast(s: seq<int>, i: nat)
    requires i < |s|
    requires forall j :: 0 <= j < |s| ==> s[j] >= 0
    ensures Sum(s) >= s[i] >= 0
  {
    var n := |s| - 1;
    if i == n {
      if n > 0 {
        SumAtLeast(s[..n], 0);
      }
    } else {
      SumAtLeast(s[..n], i);
    }
  }

  lemma {:induction false} SumAtMost(s: seq<int>, i: nat)
    requires i < |s|
    requires forall j :: 0 <= j < |s| ==> s[j] <= 0
    ensures Sum(s) <= s[i] <= 0
  {
    var n := |s| - 1;
    if i == n {
      if n > 0 {
        SumAtMost(s[..n], 0);
      }
    } else {
      SumAtMost(s[..n], i);
    }
  }

  /** Shifting every member by the same amount. */
  lemma {:induction false} SumShift(s: seq<int>, t: seq<int>, d: int)
    requires |s| == |t| && forall i :: 0 <= i < |s| ==> t[i] == s[i] + d
    ensures Sum(t) == Sum(s) + |s| * d
  {
    if s != [] {
      SumShift(s[..|s| - 1], t[..|t| - 1], d);
    }
  }

  /** The sum of the values that `m` gives to the members of a list. */
  function SumOf<T>(m: map<T, int>, s: seq<T>): int {
    if s == [] then 0
    else SumOf(m, s[..|s| - 1]) + (if s[|s| - 1] in m then m[s[|s| - 1]] else 0)
  }

  lemma {:induction false} SumOfConcat<T>(m: map<T, int>, a: seq<T>, b: seq<T>)
    ensures SumOf(m, a + b) == SumOf(m, a) + SumOf(m, b)
  {
    if b == [] {
      assert a + b == a;
    } else {
      assert (a + b)[..|a + b| - 1] == a + b[..|b| - 1];
      SumOfConcat(m, a, b[..|b| - 1]);
    }
  }

  lemma MultisetWithout<T>(t: seq<T>, k: nat)
    requires k < |t|
    ensures multiset(t[..k] + t[k + 1..]) == multiset(t) - multiset{t[k]}
  {
    assert t == t[..k] + [t[k]] + t[k + 1..];
  }

  /** Reordering a list does not change what its members add up to. */
  lemma {:induction false} SumPermutation<T>(m: map<T, int>, s: seq<T>, t: seq<T>)
    requires multiset(s) == multiset(t)
    ensures SumOf(m, s) == SumOf(m, t)
  {
    if s == [] {
      assert |t| == |multiset(t)| == 0;
    } else {
      var n := |s| - 1;
      assert s[n] in multiset(t);
      var k :| 0 <= k < |t| && t[k] == s[n];
      MultisetWithout(s, n);
      MultisetWithout(t, k);
      assert s[..n] + s[n + 1..] == s[..n];
      SumPermutation(m, s[..n], t[..k] + t[k + 1..]);
      SumOfWithout(m, t, k);
    }
  }

  lemma SumOfWithout<T>(m: map<T, int>, t: seq<T>, k: nat)
    requires k < |t|
    ensures SumOf(m, t) == SumOf(m, t[..k] + t[k + 1..]) + (if t[k] in m then m[t[k]] else 0)
  {
    SumOfConcat(m, t[..k], t[k + 1..]);
    SumOfConcat(m, t[..k + 1], t[k + 1..]);
    assert t[..k + 1][..k] == t[..k];
    assert t == t[..k + 1] + t[k + 1..];
  }

  // ----- who owns how many

  /** How often each of `xs` occurs in `owner`. */
  function Counts<T(==)>(owner: seq<T>, xs: seq<T>): (r: seq<int>)
    ensures |r| == |xs|
    ensures forall i :: 0 <= i < |xs| ==> r[i] == multiset(owner)[xs[i]]
  {
    if xs == [] then []
    else Counts(owner, xs[..|xs| - 1]) + [multiset(owner)[xs[|xs| - 1]]]
  }

  /** A duplicate-free list of the positions of `a` is as long as `a` occurs often. */
  lemma {:induction false} CountPositions<T>(owner: seq<T>, a: T, slots: seq<Slot>)
    requires NoDup(slots)
    requires forall s :: s in slots <==> 0 <= s < |owner| && owner[s] == a
    ensures |slots| == multiset(owner)[a]
  {
    NoDupCard(slots);
    var positions := set s | 0 <= s < |owner| && owner[s] == a;
    assert ToSet(slots) == positions;
    CountPositionSet(owner, a);
  }

  lemma {:induction false} CountPositionSet<T>(owner: seq<T>, a: T)
    ensures |set s | 0 <= s < |owner| && owner[s] == a| == multiset(owner)[a]
  {
    var positions := set s | 0 <= s < |owner| && owner[s] == a;
    if owner == [] {
      assert positions == {};
    } else {
      var n := |owner| - 1;
      var init := owner[..n];
      CountPositionSet(init, a);
      CountLast(owner, a);
      var fewer := set s | 0 <= s < |init| && init[s] == a;
      assert positions == fewer + (if owner[n] == a then {n} else {});
    }
  }

  /** When nobody else owns anything, the counts of the distinct owners add up to everything. */
  lemma {:induction false} CountsSum<T>(owner: seq<T>, xs: seq<T>)
    requires NoDup(xs) && forall o :: o in owner ==> o in xs
    ensures Sum(Counts(owner, xs)) == |owner|
  {
    if owner == [] {
      SumZero(Counts(owner, xs));
    } else {
      var init, last := owner[..|owner| - 1], owner[|owner| - 1];
      assert last in owner;
      CountsSum(init, xs);
      forall i | 0 <= i < |xs|
        ensures Counts(owner, xs)[i] == Counts(init, xs)[i] + (if xs[i] == last then 1 else 0)
      {
        CountLast(owner, xs[i]);
      }
      SumBumped(Counts(init, xs), Counts(owner, xs), xs, last);
    }
  }

  lemma {:induction false} SumBumped<T>(a: seq<int>, b: seq<int>, xs: seq<T>, x: T)
    requires |a| == |b| == |xs| && NoDup(xs)
    requires forall i :: 0 <= i < |xs| ==> b[i] == a[i] + (if xs[i] == x then 1 else 0)
    ensures Sum(b) == Sum(a) + (if x in xs then 1 else 0)
  {
    if xs != [] {
      var n := |xs| - 1;
      assert xs == xs[..n] + [xs[n]];
      SumBumped(a[..n], b[..n], xs[..n], x);
    }
  }

  lemma CountLast<T>(s: seq<T>, y: T)
    requires s != []
    ensures multiset(s)[y] == multiset(s[..|s| - 1])[y] + (if s[|s| - 1] == y then 1 else 0)
  {
    assert s == s[..|s| - 1] + [s[|s| - 1]];
  }

  lemma {:induction false} SumZero(s: seq<int>)
    requires forall i :: 0 <= i < |s| ==> s[i] == 0
    ensures Sum(s) == 0
  {
    if s != [] {
      SumZero(s[..|s| - 1]);
    }
  }

  function Max(a: int, b: int): int {
    if a >= b then a else b
  }

  function Min(a: int, b: int): int {
    if a <= b then a else b
  }

  /** The positive parts. */
  function Positive(b: seq<int>): (r: seq<int>)
    ensures |r| == |b|
    ensures forall i :: 0 <= i < |b| ==> r[i] == Max(0, b[i])
  {
    if b == [] then [] else Positive(b[..|b| - 1]) + [Max(0, b[|b| - 1])]
  }

  function Abs(x: int): nat {
    if x < 0 then -x else x
  }

  function Absolute(b: seq<int>): (r: seq<int>)
    ensures |r| == |b|
    ensures forall i :: 0 <= i < |b| ==> r[i] == Abs(b[i])
  {
    if b == [] then [] else Absolute(b[..|b| - 1]) + [Abs(b[|b| - 1])]
  }

  /** In a list that adds up to zero, the surpluses are half of all differences from zero. */
  lemma {:induction false} HalfOfDifferences(b: seq<int>)
    ensures 2 * Sum(Positive(b)) == Sum(Absolute(b)) + Sum(b)
  {
    if b != [] {
      HalfOfDifferences(b[..|b| - 1]);
    }
  }

  /** Member by member difference. */
  function Minus(a: seq<int>, b: seq<int>): (r: seq<int>)
    requires |a| == |b|
    ensures |r| == |a|
    ensures forall i :: 0 <= i < |a| ==> r[i] == a[i] - b[i]
  {
    if a == [] then [] else Minus(a[..|a| - 1], b[..|b| - 1]) + [a[|a| - 1] - b[|b| - 1]]
  }

  /** The positions at which two owner lists differ. */
  function Changed<T(==)>(from: seq<T>, to: seq<T>): nat
    requires |from| == |to|
  {
    if from == [] then 0
    else Changed(from[..|from| - 1], to[..|to| - 1]) + (if from[|from| - 1] == to[|to| - 1] then 0 else 1)
  }

  /** Giving one more position a new owner. */
  lemma {:induction false} ChangedUpdate<T>(from: seq<T>, to: seq<T>, i: nat, v: T)
    requires |from| == |to| && i < |from| && to[i] == from[i] && v != from[i]
    ensures Changed(from, to[i := v]) == Changed(from, to) + 1
  {
    var n := |from| - 1;
    if i == n {
      assert to[i := v][..n] == to[..n];
    } else {
      assert to[i := v][..n] == to[..n][i := v];
      ChangedUpdate(from[..n], to[..n], i, v);
    }
  }

  lemma {:induction false} ChangedNothing<T>(s: seq<T>)
    ensures Changed(s, s) == 0
  {
    if s != [] {
      ChangedNothing(s[..|s| - 1]);
    }
  }

  /** Nobody can lose d slots in fewer than d moves: turning one owner list into another takes at least as
      many moves as the surpluses add up to. */
  lemma {:induction false} MovesLowerBound<T>(from: seq<T>, to: seq<T>, xs: seq<T>)
    requires |from| == |to| && NoDup(xs)
    ensures Changed(from, to) >= Sum(Positive(Minus(Counts(from, xs), Counts(to, xs))))
  {
    if from == [] {
      SumZero(Positive(Minus(Counts(from, xs), Counts(to, xs))));
    } else {
      var f, t := from[..|from| - 1], to[..|to| - 1];
      MovesLowerBound(f, t, xs);
      SurplusStep(from, to, xs);
    }
  }

  lemma SurplusAt<T>(from: seq<T>, to: seq<T>, xs: seq<T>, i: nat)
    requires i < |xs|
    ensures |Positive(Minus(Counts(from, xs), Counts(to, xs)))| == |xs|
    ensures Positive(Minus(Counts(from, xs), Counts(to, xs)))[i] ==
      if multiset(from)[xs[i]] > multiset(to)[xs[i]] then multiset(from)[xs[i]] - multiset(to)[xs[i]] else 0
  {
    hide Positive, Minus, Counts;
    assert Minus(Counts(from, xs), Counts(to, xs))[i] == Counts(from, xs)[i] - Counts(to, xs)[i];
  }

  /** One more position adds at most one to the surplus of its old owner, and nothing elsewhere. */
  lemma SurplusStep<T>(from: seq<T>, to: seq<T>, xs: seq<T>)
    requires |from| == |to| > 0 && NoDup(xs)
    ensures
      var f, t := from[..|from| - 1], to[..|to| - 1];
      Sum(Positive(Minus(Counts(from, xs), Counts(to, xs)))) <=
      Sum(Positive(Minus(Counts(f, xs), Counts(t, xs)))) + (if from[|from| - 1] == to[|to| - 1] then 0 else 1)
  {
    hide Positive, Minus, Counts, Sum, NoDup;
    var f, t := from[..|from| - 1], to[..|to| - 1];
    var x, y := from[|from| - 1], to[|to| - 1];
    var longer := Positive(Minus(Counts(from, xs), Counts(to, xs)));
    var shorter := Positive(Minus(Counts(f, xs), Counts(t, xs)));
    forall i | 0 <= i < |xs|
      ensures longer[i] <= shorter[i] + (if xs[i] == x && x != y then 1 else 0)
    {
      SurplusAt(from, to, xs, i);
      SurplusAt(f, t, xs, i);
      CountLast(from, xs[i]);
      CountLast(to, xs[i]);
    }
    if x == y {
      SumNotAbove(shorter, longer);
    } else {
      SumDominated(shorter, longer, xs, x);
    }
  }

  lemma {:induction false} SumNotAbove(a: seq<int>, b: seq<int>)
    requires |a| == |b| && forall i :: 0 <= i < |a| ==> b[i] <= a[i]
    ensures Sum(b) <= Sum(a)
  {
    if a != [] {
      SumNotAbove(a[..|a| - 1], b[..|b| - 1]);
    }
  }

  lemma {:induction false} SumDominated<T>(a: seq<int>, b: seq<int>, xs: seq<T>, x: T)
    requires |a| == |b| == |xs| && NoDup(xs)
    requires forall i :: 0 <= i < |xs| ==> b[i] <= a[i] + (if xs[i] == x then 1 else 0)
    ensures Sum(b) <= Sum(a) + (if x in xs then 1 else 0)
  {
    if xs != [] {
      var n := |xs| - 1;
      assert xs == xs[..n] + [xs[n]];
      SumDominated(a[..n], b[..n], xs[..n], x);
    }
  }
}
