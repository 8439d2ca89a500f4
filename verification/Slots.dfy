/** Slot lists: the list algebra of pkg/redisutil/slot.go that every planner relies on.

    A slot is an unsigned integer; the model uses `nat`, and the operations whose loops
    would wrap at the top of the 64-bit range say so in their precondition. */
module Slots {
  type Slot = nat

  const MAX_UINT64: nat := 0xFFFF_FFFF_FFFF_FFFF

  predicate NoDup<T(==)>(s: seq<T>) {
    forall i, j :: 0 <= i < j < |s| ==> s[i] != s[j]
  }

  predicate Ascending(s: seq<Slot>) {
    forall i, j :: 0 <= i < j < |s| ==> s[i] < s[j]
  }

  function ToSet<T>(s: seq<T>): set<T> {
    set x | x in s
  }

  /** A Go map of lists answers with the empty list for a key it does not have. */
  function Listed<K(==), V>(m: map<K, seq<V>>, k: K): seq<V> {
    if k in m then m[k] else []
  }

  /** The slots lo, lo + 1, ..., hi - 1. */
  function Range(lo: Slot, hi: Slot): (r: seq<Slot>)
    ensures |r| == if lo <= hi then hi - lo else 0
    ensures forall i :: 0 <= i < |r| ==> r[i] == lo + i
    ensures forall x :: x in r <==> lo <= x < hi
    decreases hi
  {
    if hi <= lo then [] else Range(lo, hi - 1) + [hi - 1]
  }

  /** `slots` without the members of `removed`, the rest in its old order. */
  function Without(slots: seq<Slot>, removed: seq<Slot>): (r: seq<Slot>)
    ensures forall x :: x in r <==> x in slots && x !in removed
    ensures NoDup(slots) ==> NoDup(r)
    ensures |r| <= |slots|
  {
    if slots == [] then []
    else
      var init, last := slots[..|slots| - 1], slots[|slots| - 1];
      assert slots == init + [last];
      if last in removed then Without(init, removed) else Without(init, removed) + [last]
  }

  /** `slots` without the first occurrence of `x`. */
  function RemoveFirst(slots: seq<Slot>, x: Slot): seq<Slot> {
    if slots == [] then []
    else if slots[0] == x then slots[1..]
    else [slots[0]] + RemoveFirst(slots[1..], x)
  }

  /** `slots` followed by those members of `added` that are not there yet. */
  function Union(slots: seq<Slot>, added: seq<Slot>): (r: seq<Slot>)
    ensures forall x :: x in r <==> x in slots || x in added
    ensures NoDup(slots) ==> NoDup(r)
    ensures slots <= r
  {
    if added == [] then slots
    else
      var init, last := added[..|added| - 1], added[|added| - 1];
      assert added == init + [last];
      var r := Union(slots, init);
      if last in r then r else r + [last]
  }

  // ----- the operations

  method Contains(s: seq<Slot>, e: Slot) returns (found: bool)
    ensures found <==> e in s
  {
    for i := 0 to |s|
      invariant e !in s[..i]
    {
      if s[i] == e {
        return true;
      }
    }
    return false;
  }

  /** The loop `for s := min; s <= max; s++` would never end at the top of the range. */
  method BuildSlotSlice(min: Slot, max: Slot) returns (slots: seq<Slot>)
    requires max < MAX_UINT64
    ensures slots == Range(min, max + 1)
  {
    slots := [];
    var s := min;
    while s <= max
      invariant min <= s
      invariant s <= max + 1 || slots == []
      invariant slots == Range(min, s)
    {
      slots := slots + [s];
      s := s + 1;
    }
  }

  lemma WithoutEmpty(removed: seq<Slot>)
    ensures Without([], removed) == []
  {
  }

  lemma WithoutNext(slots: seq<Slot>, removed: seq<Slot>, k: nat)
    requires k < |slots|
    ensures Without(slots[..k + 1], removed) ==
      Without(slots[..k], removed) + (if slots[k] in removed then [] else [slots[k]])
  {
    assert slots[..k + 1][..k] == slots[..k];
  }

  method RemoveSlots(slots: seq<Slot>, removedSlots: seq<Slot>) returns (r: seq<Slot>)
    ensures r == Without(slots, removedSlots)
  {
    hide Without;
    r := slots;
    var i := 0;
    WithoutEmpty(removedSlots);
    assert slots[..0] == [];
    ghost var done := 0;  // how many of the original slots have been looked at
    while i < |r|
      invariant 0 <= i <= |r| && 0 <= done <= |slots|
      invariant r[..i] == Without(slots[..done], removedSlots)
      invariant r[i..] == slots[done..]
      decreases |slots| - done
    {
      var s := r[i];
      WithoutNext(slots, removedSlots, done);
      ghost var before := r;
      var hit := Contains(removedSlots, s);
      if hit {
        r := r[..i] + r[i + 1..];
        assert r[..i] == before[..i] && r[i..] == before[i..][1..] == slots[done + 1..];
      } else {
        i := i + 1;
        assert r[..i] == before[..i - 1] + [s];
        assert r[i..] == before[i - 1..][1..] == slots[done + 1..];
      }
      done := done + 1;
    }
    assert slots[..done] == slots && r[..i] == r;
  }

  /** Only the first occurrence goes. */
  method RemoveSlot(slots: seq<Slot>, removedSlot: Slot) returns (r: seq<Slot>)
    ensures r == RemoveFirst(slots, removedSlot)
  {
    r := slots;
    for i := 0 to |r|
      invariant r == slots
      invariant RemoveFirst(slots, removedSlot) == slots[..i] + RemoveFirst(slots[i..], removedSlot)
    {
      if r[i] == removedSlot {
        r := r[..i] + r[i + 1..];
        return;
      }
      assert slots[i..][1..] == slots[i + 1..];
    }
  }

  method AddSlots(slots: seq<Slot>, addedSlots: seq<Slot>) returns (r: seq<Slot>)
    ensures r == Union(slots, addedSlots)
  {
    r := slots;
    for i := 0 to |addedSlots|
      invariant r == Union(slots, addedSlots[..i])
    {
      assert addedSlots[..i + 1][..i] == addedSlots[..i];
      var there := Contains(r, addedSlots[i]);
      if !there {
        r := r + [addedSlots[i]];
      }
    }
    assert addedSlots[..|addedSlots|] == addedSlots;
  }

  predicate Ordered(s: seq<int>) {
    forall i, j :: 0 <= i < j < |s| ==> s[i] <= s[j]
  }

  method Position(keys: seq<int>, v: int) returns (k: nat)
    requires Ordered(keys)
    ensures k <= |keys| && Ordered(keys[..k] + [v] + keys[k..])
  {
    k := 0;
    while k < |keys| && keys[k] <= v
      invariant 0 <= k <= |keys|
      invariant forall i :: 0 <= i < k ==> keys[i] <= v
    {
      k := k + 1;
    }
  }

  lemma Inserted<T>(s: seq<T>, k: nat, x: T)
    requires k <= |s|
    ensures multiset(s[..k] + [x] + s[k..]) == multiset(s) + multiset{x}
  {
    assert s == s[..k] + s[k..];
  }

  /** sort.Sort on a slot list. */
  method SortSlots(slots: seq<Slot>) returns (r: seq<Slot>)
    ensures multiset(r) == multiset(slots) && Ordered(r)
  {
    r := [];
    for m := 0 to |slots|
      invariant multiset(r) == multiset(slots[..m]) && Ordered(r)
    {
      assert slots[..m + 1] == slots[..m] + [slots[m]];
      var k := Position(r, slots[m]);
      Inserted(r, k, slots[m]);
      r := r[..k] + [slots[m]] + r[k..];
    }
    assert slots[..|slots|] == slots;
  }

  lemma AscendingNoDup(s: seq<Slot>)
    requires Ascending(s)
    ensures NoDup(s)
  {
  }

  // ----- what the specification functions mean

  /** Filtering is a homomorphism of concatenation: together with the one-element lists this fixes
      every element and its position. */
  lemma {:induction false} WithoutConcat(a: seq<Slot>, b: seq<Slot>, removed: seq<Slot>)
    ensures Without(a + b, removed) == Without(a, removed) + Without(b, removed)
  {
    if b == [] {
      assert a + b == a;
    } else {
      var init := b[..|b| - 1];
      assert (a + b)[..|a + b| - 1] == a + init;
      WithoutConcat(a, init, removed);
    }
  }

  /** Removing listed slots from a duplicate-free list shortens it by exactly that many. */
  lemma {:induction false} WithoutLength(slots: seq<Slot>, removed: seq<Slot>)
    requires NoDup(slots) && NoDup(removed)
    requires forall x :: x in removed ==> x in slots
    ensures |Without(slots, removed)| == |slots| - |removed|
  {
    NoDupCard(slots);
    NoDupCard(removed);
    NoDupCard(Without(slots, removed));
    assert ToSet(Without(slots, removed)) == ToSet(slots) - ToSet(removed);
    assert ToSet(removed) <= ToSet(slots);
  }

  /** Adding new slots lengthens a duplicate-free list by exactly that many. */
  lemma {:induction false} UnionLength(slots: seq<Slot>, added: seq<Slot>)
    requires NoDup(slots) && NoDup(added)
    requires forall x :: x in added ==> x !in slots
    ensures |Union(slots, added)| == |slots| + |added|
    ensures Union(slots, added) == slots + added
  {
    if added == [] {
    } else {
      var init, last := added[..|added| - 1], added[|added| - 1];
      assert added == init + [last];
      UnionLength(slots, init);
      assert last in added && last !in init && last !in slots + init;
    }
  }

  lemma NoDupNext<T>(all: seq<T>, i: nat)
    requires NoDup(all) && i < |all|
    ensures all[i] !in all[..i]
  {
  }

  lemma {:induction false} NoDupCard<T>(s: seq<T>)
    requires NoDup(s)
    ensures |ToSet(s)| == |s|
  {
    if s == [] {
    } else {
      var init, last := s[..|s| - 1], s[|s| - 1];
      assert s == init + [last];
      NoDupCard(init);
      assert last !in init;
      assert ToSet(s) == ToSet(init) + {last};
    }
  }

  lemma WithoutOne(s: Slot, removed: seq<Slot>)
    ensures Without([s], removed) == if s in removed then [] else [s]
  {
    assert [s][..0] == [];
  }

  /** In a duplicate-free list the first occurrence is the only one. */
  lemma {:induction false} RemoveFirstIsWithout(slots: seq<Slot>, x: Slot)
    requires NoDup(slots)
    ensures RemoveFirst(slots, x) == Without(slots, [x])
  {
    hide Without;
    if slots == [] {
      WithoutNone([], [x]);
    } else {
      assert slots == [slots[0]] + slots[1..];
      WithoutConcat([slots[0]], slots[1..], [x]);
      WithoutOne(slots[0], [x]);
      if slots[0] == x {
        assert x !in slots[1..];
        WithoutNone(slots[1..], [x]);
      } else {
        RemoveFirstIsWithout(slots[1..], x);
      }
    }
  }

  lemma {:induction false} WithoutNone(slots: seq<Slot>, removed: seq<Slot>)
    requires forall x :: x in removed ==> x !in slots
    ensures Without(slots, removed) == slots
  {
    if slots != [] {
      assert slots == slots[..|slots| - 1] + [slots[|slots| - 1]];
      WithoutNone(slots[..|slots| - 1], removed);
    }
  }
}
