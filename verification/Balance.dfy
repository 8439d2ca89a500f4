/** The balance arithmetic of a scale-up: how many slots each master is above or below its share, and how the
    remainder of the division is handed out. */
module Balance {
  import opened Slots
  import opened Sums

  /** How many members are negative. */
  function Negatives(b: seq<int>): nat {
    if b == [] then 0
    else Negatives(b[..|b| - 1]) + (if b[|b| - 1] < 0 then 1 else 0)
  }

  /** One pass of the remainder loop: every negative balance is lowered by one while some of the total is left. */
  function Pass(b: seq<int>, total: int): (r: (seq<int>, int))
    ensures |r.0| == |b|
  {
    if b == [] then ([], total)
    else
      var n := |b| - 1;
      var (c, t) := Pass(b[..n], total);
      if b[n] < 0 && t > 0 then (c + [b[n] - 1], t - 1) else (c + [b[n]], t)
  }

  function Passes(b: seq<int>, total: int, n: nat): (r: (seq<int>, int))
    ensures |r.0| == |b|
  {
    if n == 0 then (b, total)
    else var (c, t) := Passes(b, total, n - 1); Pass(c, t)
  }

  /** What the remainder loop takes from node j in the end. */
  function Extra(b: seq<int>, total: nat, j: nat): nat
    requires j < |b|
  {
    var k := Negatives(b);
    if b[j] >= 0 || k == 0 then 0
    else total / k + (if Negatives(b[..j]) < total % k then 1 else 0)
  }

  lemma PassNothing(total: int)
    ensures Pass([], total) == ([], total)
  {
  }

  lemma PassNext(b: seq<int>, i: nat, total: int)
    requires i < |b|
    ensures var (c, t) := Pass(b[..i], total);
      Pass(b[..i + 1], total) == if b[i] < 0 && t > 0 then (c + [b[i] - 1], t - 1) else (c + [b[i]], t)
  {
    assert b[..i + 1][..i] == b[..i];
  }

  lemma {:induction false} PassTotal(b: seq<int>, total: int)
    requires total >= 0
    ensures Pass(b, total).1 == Max(0, total - Negatives(b))
  {
    if b != [] {
      PassTotal(b[..|b| - 1], total);
    }
  }

  lemma {:induction false} PassAt(b: seq<int>, total: int, j: nat)
    requires total >= 0 && j < |b|
    ensures Pass(b, total).0[j] == b[j] - (if b[j] < 0 && Negatives(b[..j]) < total then 1 else 0)
  {
    var n := |b| - 1;
    if j < n {
      PassAt(b[..n], total, j);
      assert b[..n][..j] == b[..j];
    } else {
      PassTotal(b[..n], total);
    }
  }

  lemma PassClosed(b: seq<int>, total: int)
    requires total >= 0
    ensures Pass(b, total).1 == Max(0, total - Negatives(b))
    ensures forall j :: 0 <= j < |b| ==>
      Pass(b, total).0[j] == b[j] - (if b[j] < 0 && Negatives(b[..j]) < total then 1 else 0)
  {
    hide Pass, Negatives;
    PassTotal(b, total);
    forall j | 0 <= j < |b|
      ensures Pass(b, total).0[j] == b[j] - (if b[j] < 0 && Negatives(b[..j]) < total then 1 else 0)
    {
      PassAt(b, total, j);
    }
  }

  lemma {:induction false} NegativesSame(b: seq<int>, c: seq<int>)
    requires |b| == |c| && forall j :: 0 <= j < |b| ==> (b[j] < 0 <==> c[j] < 0)
    ensures Negatives(b) == Negatives(c)
  {
    if b != [] {
      NegativesSame(b[..|b| - 1], c[..|c| - 1]);
    }
  }

  lemma {:induction false} NegativesMonotone(b: seq<int>, j: nat)
    requires j < |b| && b[j] < 0
    ensures Negatives(b[..j]) < Negatives(b)
  {
    var n := |b| - 1;
    if j < n {
      assert b[..n][..j] == b[..j];
      NegativesMonotone(b[..n], j);
    }
  }

  /** A pass never changes a sign, and moves the sum by as much as the total. */
  lemma PassKeeps(b: seq<int>, total: int)
    requires total >= 0
    ensures forall j :: 0 <= j < |b| ==> (Pass(b, total).0[j] < 0 <==> b[j] < 0)
    ensures Negatives(Pass(b, total).0) == Negatives(b)
    ensures Sum(Pass(b, total).0) - Pass(b, total).1 == Sum(b) - total
  {
    PassClosed(b, total);
    NegativesSame(b, Pass(b, total).0);
    PassSum(b, total);
  }

  lemma {:induction false} PassSum(b: seq<int>, total: int)
    ensures Sum(Pass(b, total).0) - Pass(b, total).1 == Sum(b) - total
  {
    if b != [] {
      var n := |b| - 1;
      PassSum(b[..n], total);
      var (c, t) := Pass(b[..n], total);
      var d := Pass(b, total).0;
      assert d[..n] == c;
    }
  }

  /** The remainder loop ends if and only if there is nothing to hand out or somebody to hand it to.  Without a
      node below its share a positive total stays as it is in every pass. */
  lemma {:induction false} RemainderLoopEnds(b: seq<int>, total: int)
    ensures (exists n: nat :: Passes(b, total, n).1 <= 0) <==> total <= 0 || Negatives(b) > 0
  {
    if total <= 0 {
      assert Passes(b, total, 0).1 <= 0;
    } else if Negatives(b) > 0 {
      PassesCount(b, total, total);
      assert Passes(b, total, total).1 <= 0;
    } else {
      forall n: nat ensures Passes(b, total, n).1 > 0 {
        PassesStuck(b, total, n);
      }
    }
  }

  /** Two masters with 6 and 5 of 11 slots: one slot is left over and nobody is below 5, so no number of passes ends the
      loop. */
  lemma StuckAtSixAndFive()
    ensures InitialBalances([6, 5], 11) == [1, 0] && Sum([1, 0]) == 1
    ensures forall n: nat :: Passes([1, 0], 1, n).1 > 0
  {
    assert [1, 0][..1] == [1] && [1][..0] == [];
    assert Negatives([1, 0]) == 0;
    RemainderLoopEnds([1, 0], 1);
  }

  lemma {:induction false} PassesStuck(b: seq<int>, total: int, n: nat)
    requires total > 0 && Negatives(b) == 0
    ensures Passes(b, total, n) == (b, total)
  {
    if n > 0 {
      PassesStuck(b, total, n - 1);
      PassClosed(b, total);
      forall j | 0 <= j < |b| ensures Pass(b, total).0[j] == b[j] {
        if b[j] < 0 {
          NegativesMonotone(b, j);
        }
      }
      assert Pass(b, total).0 == b;
    }
  }

  lemma {:induction false} PassesCount(b: seq<int>, total: nat, n: nat)
    requires Negatives(b) > 0
    ensures Negatives(Passes(b, total, n).0) == Negatives(b)
    ensures 0 <= Passes(b, total, n).1 <= Max(0, total - n)
  {
    hide Pass, Negatives;
    if n > 0 {
      PassesCount(b, total, n - 1);
      var (c, t) := Passes(b, total, n - 1);
      PassClosed(c, t);
      PassKeeps(c, t);
    }
  }

  /** After p full passes and possibly one partial pass: the closed form. */
  lemma ExtraAfter(b: seq<int>, total: nat, p: nat, rest: nat, j: nat)
    requires j < |b| && b[j] < 0 && rest < Negatives(b) && total == p * Negatives(b) + rest
    ensures Extra(b, total, j) == p + (if Negatives(b[..j]) < rest then 1 else 0)
  {
    var k := Negatives(b);
    DivMod(total, k, p, rest);
  }

  /** The balances after p full passes and a partial one that reached the first `rest` negative members. */
  ghost predicate Spent(b: seq<int>, c: seq<int>, p: nat, rest: nat) {
    && |c| == |b|
    && (forall j :: 0 <= j < |b| && b[j] >= 0 ==> c[j] == b[j])
    && (forall j :: 0 <= j < |b| && b[j] < 0 ==> c[j] == b[j] - p - (if Negatives(b[..j]) < rest then 1 else 0))
  }

  lemma SpentNothing(b: seq<int>)
    ensures Spent(b, b, 0, 0)
  {
  }

  lemma SpentPass(b: seq<int>, c: seq<int>, p: nat, total: nat)
    requires Spent(b, c, p, 0) && total > 0
    ensures Sum(Pass(c, total).0) - Pass(c, total).1 == Sum(c) - total
    ensures Negatives(b) <= total ==> Spent(b, Pass(c, total).0, p + 1, 0) && Pass(c, total).1 == total - Negatives(b)
    ensures Negatives(b) > total ==> Spent(b, Pass(c, total).0, p, total) && Pass(c, total).1 == 0
  {
    hide Negatives, Sum, Pass;
    PassSum(c, total);
    PassClosed(c, total);
    NegativesSame(b, c);
    forall j | 0 <= j < |b|
      ensures b[j] < 0 ==> Negatives(b[..j]) < Negatives(b)
      ensures Negatives(b[..j]) == Negatives(c[..j])
    {
      NegativesSame(b[..j], c[..j]);
      if b[j] < 0 {
        NegativesMonotone(b, j);
      }
    }
  }

  lemma SpentExtra(b: seq<int>, c: seq<int>, p: nat, rest: nat, total: nat)
    requires Spent(b, c, p, rest) && total == p * Negatives(b) + rest
    requires rest == 0 || rest < Negatives(b)
    ensures forall j :: 0 <= j < |b| ==> c[j] == b[j] - Extra(b, total, j)
  {
    forall j | 0 <= j < |b| ensures c[j] == b[j] - Extra(b, total, j) {
      SpentExtraAt(b, c, p, rest, total, j);
    }
  }

  lemma SpentExtraAt(b: seq<int>, c: seq<int>, p: nat, rest: nat, total: nat, j: nat)
    requires Spent(b, c, p, rest) && total == p * Negatives(b) + rest && j < |b|
    requires rest == 0 || rest < Negatives(b)
    ensures c[j] == b[j] - Extra(b, total, j)
  {
    hide Negatives;
    if b[j] < 0 {
      NegativesMonotone(b, j);
      ExtraAfter(b, total, p, rest, j);
    }
  }

  lemma FloorDiv(a: nat, b: nat)
    requires b > 0
    ensures (a as real / b as real).Floor == a / b
  {
    var q, r := a / b, a % b;
    assert a == q * b + r;
    assert a as real == q as real * b as real + r as real;
    assert a as real / b as real == q as real + r as real / b as real;
  }

  function Ceil(x: real): int {
    -((-x).Floor)
  }

  lemma CeilDiv(a: nat, b: nat)
    requires b > 0
    ensures Ceil(a as real / b as real) == a / b + (if a % b == 0 then 0 else 1)
    ensures a <= Ceil(a as real / b as real) * b < a + b
  {
    var q, r := a / b, a % b;
    assert a == q * b + r;
    Fraction(a, b, q, r);
    assert (q + 1) * b == q * b + b;
  }

  lemma Fraction(a: nat, b: nat, q: nat, r: nat)
    requires r < b && a == q * b + r
    ensures Ceil(a as real / b as real) == q + (if r == 0 then 0 else 1)
  {
    var part := r as real / b as real;
    Proper(r, b);
    assert a as real == q as real * b as real + r as real;
    assert a as real / b as real == q as real + part;
  }

  lemma Proper(r: nat, b: nat)
    requires r < b
    ensures 0.0 <= r as real / b as real < 1.0 && (r > 0 ==> r as real / b as real > 0.0)
  {
  }

  lemma DivMod(a: nat, k: nat, p: nat, rest: nat)
    requires rest < k && a == p * k + rest
    ensures a / k == p && a % k == rest
  {
    var q := a / k;
    if q < p {
      MulMonotone(q + 1, p, k);
    } else if q > p {
      MulMonotone(p + 1, q, k);
    }
  }

  lemma MulMonotone(x: int, y: int, k: nat)
    requires x <= y
    ensures x * k <= y * k
  {
  }

  /** How far every master is above its share of the slots. */
  function InitialBalances(lens: seq<nat>, slotCount: nat): (b: seq<int>)
    requires |lens| > 0
    ensures |b| == |lens|
    ensures forall j :: 0 <= j < |lens| ==> b[j] == lens[j] - slotCount / |lens|
  {
    seq(|lens|, j requires 0 <= j < |lens| => lens[j] - slotCount / |lens|)
  }

  /** The size a scale-up gives to the j-th master: the share, and for the masters that started below it
      their part of the remainder. */
  function Quota(lens: seq<nat>, slotCount: nat, j: nat): nat
    requires j < |lens|
  {
    slotCount / |lens| + Extra(InitialBalances(lens, slotCount), slotCount % |lens|, j)
  }

  /** By how much every node is above its quota. */
  function Gaps(lens: seq<nat>, slotCount: nat): (r: seq<int>)
    ensures |r| == |lens|
    ensures forall j :: 0 <= j < |lens| ==> r[j] == lens[j] - Quota(lens, slotCount, j)
  {
    seq(|lens|, j requires 0 <= j < |lens| => lens[j] - Quota(lens, slotCount, j))
  }

  /** The first n nodes with less than the share. */
  ghost function Below(lens: seq<nat>, share: nat, n: nat): set<int>
    requires n <= |lens|
  {
    set i | 0 <= i < n && lens[i] < share
  }

  lemma {:induction false} NegativesBelow(lens: seq<nat>, b: seq<int>, share: nat, n: nat)
    requires n <= |lens| == |b| && forall j :: 0 <= j < |lens| ==> b[j] == lens[j] - share
    ensures Negatives(b[..n]) == |Below(lens, share, n)|
  {
    if n > 0 {
      NegativesBelow(lens, b, share, n - 1);
      assert b[..n][..n - 1] == b[..n - 1];
      assert Below(lens, share, n) == Below(lens, share, n - 1) + (if lens[n - 1] < share then {n - 1} else {});
    }
  }

  /** Masters at or above their share end with exactly floor(S/n) slots; the k masters below it end with
      floor(S/n) + floor(r/k), where r = S mod n, and the first r mod k of them with one more. */
  lemma QuotaValues(lens: seq<nat>, slotCount: nat, j: nat)
    requires j < |lens|
    ensures var share, r := slotCount / |lens|, slotCount % |lens|;
      var k := |Below(lens, share, |lens|)|;
      && (lens[j] >= share ==> Quota(lens, slotCount, j) == share)
      && (lens[j] < share ==>
            k > 0 && Quota(lens, slotCount, j) == share + r / k + if |Below(lens, share, j)| < r % k then 1 else 0)
  {
    var b := InitialBalances(lens, slotCount);
    assert b[..|lens|] == b;
    NegativesBelow(lens, b, slotCount / |lens|, |lens|);
    NegativesBelow(lens, b, slotCount / |lens|, j);
    if lens[j] < slotCount / |lens| {
      NegativesMonotone(b, j);
    }
  }

  // ----- the two pointers

  /** Every balance has kept its sign and come no further from zero. */
  ghost predicate Toward(orig: seq<int>, cur: seq<int>) {
    |orig| == |cur| && forall j :: 0 <= j < |orig| ==> orig[j] <= cur[j] <= 0 || 0 <= cur[j] <= orig[j]
  }

  /** Between the pointers nothing has happened yet, outside them everything is settled. */
  ghost predicate Window(orig: seq<int>, cur: seq<int>, lo: int, hi: int) {
    && Toward(orig, cur) && Ordered(orig) && Sum(cur) == 0
    && 0 <= lo <= |orig| && -1 <= hi < |orig| && lo <= hi + 1
    && (forall j :: 0 <= j < |orig| && (j < lo || j > hi) ==> cur[j] == 0)
    && (forall j :: lo < j < hi ==> cur[j] == orig[j])
  }

  /** The lower pointer is at a node that takes slots and the upper one at a node that gives them. */
  lemma WindowEnds(orig: seq<int>, cur: seq<int>, lo: int, hi: int)
    requires Window(orig, cur, lo, hi) && lo < hi
    ensures cur[lo] <= 0 <= cur[hi]
  {
    if cur[lo] > 0 {
      assert forall j :: 0 <= j < |cur| ==> cur[j] >= 0;
      SumAtLeast(cur, lo);
    }
    if cur[hi] < 0 {
      assert forall j :: 0 <= j < |cur| ==> cur[j] <= 0;
      SumAtMost(cur, hi);
    }
  }

  /** Moving the smaller of the two amounts settles one end at least. */
  lemma WindowStep(orig: seq<int>, cur: seq<int>, lo: int, hi: int, k: nat)
    requires Window(orig, cur, lo, hi) && lo < hi && k == Min(-cur[lo], cur[hi])
    ensures
      var next := cur[lo := cur[lo] + k][hi := cur[hi] - k];
      var lo', hi' := if next[lo] == 0 then lo + 1 else lo, if next[hi] == 0 then hi - 1 else hi;
      Window(orig, next, lo', hi') && hi' - lo' < hi - lo
  {
    WindowEnds(orig, cur, lo, hi);
    SumUpdate(cur, lo, cur[lo] + k);
    SumUpdate(cur[lo := cur[lo] + k], hi, cur[hi] - k);
  }

  /** When the pointers have met, everything is settled. */
  lemma WindowClosed(orig: seq<int>, cur: seq<int>, lo: int, hi: int)
    requires Window(orig, cur, lo, hi) && lo >= hi
    ensures forall j :: 0 <= j < |cur| ==> cur[j] == 0
  {
    if lo == hi {
      var rest := cur[lo := 0];
      SumUpdate(cur, lo, 0);
      SumZero(rest);
    }
  }

  /** The same when the balances may add up to less than nothing: what lies between the pointers is untouched, and
      nobody takes more than it is short of. */
  ghost predicate Loose(orig: seq<int>, cur: seq<int>, lo: int, hi: int) {
    && |orig| == |cur| && Ordered(orig) && Sum(cur) == Sum(orig) <= 0
    && 0 <= lo <= |orig| && -1 <= hi < |orig|
    && (forall j :: 0 <= j < |orig| && (j < lo || j > hi) ==> cur[j] == 0)
    && (forall j :: lo < j < hi ==> cur[j] == orig[j])
    && (lo < hi ==> (cur[lo] == orig[lo] || cur[lo] <= 0) && (orig[hi] > 0 ==> cur[hi] >= 0))
  }

  lemma LooseStart(b: seq<int>)
    requires Ordered(b) && Sum(b) <= 0
    ensures Loose(b, b, 0, |b| - 1)
  {
  }

  lemma LooseEnd(orig: seq<int>, cur: seq<int>, lo: int, hi: int)
    requires Loose(orig, cur, lo, hi) && lo < hi
    ensures cur[lo] <= 0
  {
    if cur[lo] > 0 {
      assert forall j :: 0 <= j < |cur| ==> cur[j] >= 0;
      SumAtLeast(cur, lo);
    }
  }

  /** Either a pointer moves on, or the taker is less short than before. */
  lemma LooseStep(orig: seq<int>, cur: seq<int>, lo: int, hi: int, k: nat)
    requires Loose(orig, cur, lo, hi) && lo < hi && k == Min(Abs(cur[lo]), Abs(cur[hi]))
    ensures cur[lo] + k <= 0
    ensures
      var next := cur[lo := cur[lo] + k][hi := cur[hi] - k];
      var lo', hi' := if next[lo] == 0 then lo + 1 else lo, if next[hi] == 0 then hi - 1 else hi;
      Loose(orig, next, lo', hi') && (hi' - lo' < hi - lo || (lo' == lo && hi' == hi && Abs(next[lo]) < Abs(cur[lo])))
  {
    LooseEnd(orig, cur, lo, hi);
    SumUpdate(cur, lo, cur[lo] + k);
    SumUpdate(cur[lo := cur[lo] + k], hi, cur[hi] - k);
  }

  /** Every unit moved is a unit of surplus gone. */
  lemma PositiveStep(cur: seq<int>, lo: nat, hi: nat, k: nat)
    requires lo < hi < |cur| && cur[lo] + k <= 0 && k <= cur[hi]
    ensures Sum(Positive(cur[lo := cur[lo] + k][hi := cur[hi] - k])) == Sum(Positive(cur)) - k
  {
    var next := cur[lo := cur[lo] + k][hi := cur[hi] - k];
    assert Positive(next) == Positive(cur)[hi := cur[hi] - k];
    SumUpdate(Positive(cur), hi, cur[hi] - k);
  }

  lemma WindowStart(b: seq<int>)
    requires Ordered(b) && Sum(b) == 0
    ensures Window(b, b, 0, |b| - 1)
  {
  }
}
