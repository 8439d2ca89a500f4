/** Slot ranges and the entries of a CLUSTER NODES line: printing and decoding in pkg/redisutil/slot.go. */
module SlotRanges {
  import opened Slots
  import opened Options
  import opened Strings
  import Decimal

  datatype SlotRange = SlotRange(Min: Slot, Max: Slot)
  datatype ImportingSlot = ImportingSlot(SlotID: Slot, FromNodeID: string)
  datatype MigratingSlot = MigratingSlot(SlotID: Slot, ToNodeID: string)

  /** What an entry says; an error is modelled by Option's None. */
  datatype Entry = Entry(slots: seq<Slot>, importing: Option<ImportingSlot>, migrating: Option<MigratingSlot>)

  function SlotString(s: Slot): string {
    Decimal.Format(s)
  }

  function RangeString(r: SlotRange): string {
    SlotString(r.Min) + "-" + SlotString(r.Max)
  }

  function ImportingString(s: ImportingSlot): string {
    SlotString(s.SlotID) + "-<-" + s.FromNodeID
  }

  function MigratingString(s: MigratingSlot): string {
    SlotString(s.SlotID) + "->-" + s.ToNodeID
  }

  /** strconv.ParseUint for 64 bits */
  function DecodeSlot(s: string): (r: Option<Slot>)
    ensures r.Some? ==> r.value <= MAX_UINT64
  {
    match Decimal.Parse(s)
    case Some(v) => if v <= MAX_UINT64 then Some(v) else None
    case None => None
  }

  function DecodeSlotRange(str: string): Option<Entry> {
    var val := Split(str, '-');
    if |val| == 3 then
      match DecodeSlot(TrimPrefix(val[0], '['))
      case None => None
      case Some(slot) =>
        if val[1] == "<" then Some(Entry([], Some(ImportingSlot(slot, TrimSuffix(val[2], ']'))), None))
        else if val[1] == ">" then Some(Entry([], None, Some(MigratingSlot(slot, TrimSuffix(val[2], ']')))))
        else None
    else
      match DecodeSlot(val[0])
      case None => None
      case Some(min) =>
        if |val| > 1 then
          match DecodeSlot(val[1])
          case None => None
          case Some(max) => Some(Entry(Range(min, max + 1), None, None))
        else Some(Entry(Range(min, min + 1), None, None))
  }

  lemma SlotRoundTrip(s: Slot)
    requires s <= MAX_UINT64
    ensures DecodeSlot(SlotString(s)) == Some(s) && '-' !in SlotString(s)
    ensures TrimPrefix(SlotString(s), '[') == SlotString(s)
  {
    Decimal.ParseFormat(s);
  }

  /** A printed range decodes to its slots. */
  lemma RangeRoundTrip(r: SlotRange)
    requires r.Min <= MAX_UINT64 && r.Max <= MAX_UINT64
    ensures DecodeSlotRange(RangeString(r)) == Some(Entry(Range(r.Min, r.Max + 1), None, None))
  {
    SlotRoundTrip(r.Min);
    SlotRoundTrip(r.Max);
    SplitFirst(SlotString(r.Min), '-', SlotString(r.Max));
    SplitNone(SlotString(r.Max), '-');
  }

  /** A single slot may be written without its range. */
  lemma SingleRoundTrip(s: Slot)
    requires s <= MAX_UINT64
    ensures DecodeSlotRange(SlotString(s)) == Some(Entry([s], None, None))
  {
    SlotRoundTrip(s);
    SplitNone(SlotString(s), '-');
    assert Range(s, s + 1) == [s];
  }

  /** The id a transition mark can carry through printing and decoding. */
  predicate Plain(id: string) {
    '-' !in id && (id == "" || id[|id| - 1] != ']')
  }

  lemma MarkParts(slot: Slot, mark: char, id: string)
    requires slot <= MAX_UINT64 && mark != '-'
    ensures Split(SlotString(slot) + ['-', mark, '-'] + id, '-') == [SlotString(slot), [mark]] + Split(id, '-')
  {
    SlotRoundTrip(slot);
    var tail := [mark] + ['-'] + id;
    assert SlotString(slot) + ['-', mark, '-'] + id == SlotString(slot) + ['-'] + tail;
    SplitFirst(SlotString(slot), '-', tail);
    SplitFirst([mark], '-', id);
  }

  /** An importing mark decodes to itself exactly when its id is plain. */
  lemma ImportingRoundTrip(s: ImportingSlot)
    requires s.SlotID <= MAX_UINT64
    ensures DecodeSlotRange(ImportingString(s)) == Some(Entry([], Some(s), None)) <==> Plain(s.FromNodeID)
  {
    MarkParts(s.SlotID, '<', s.FromNodeID);
    SlotRoundTrip(s.SlotID);
    assert ImportingString(s) == SlotString(s.SlotID) + ['-', '<', '-'] + s.FromNodeID;
    if '-' in s.FromNodeID {
      SplitSome(s.FromNodeID, '-');
    } else {
      SplitNone(s.FromNodeID, '-');
    }
  }

  lemma MigratingRoundTrip(s: MigratingSlot)
    requires s.SlotID <= MAX_UINT64
    ensures DecodeSlotRange(MigratingString(s)) == Some(Entry([], None, Some(s))) <==> Plain(s.ToNodeID)
  {
    MarkParts(s.SlotID, '>', s.ToNodeID);
    SlotRoundTrip(s.SlotID);
    assert MigratingString(s) == SlotString(s.SlotID) + ['-', '>', '-'] + s.ToNodeID;
    if '-' in s.ToNodeID {
      SplitSome(s.ToNodeID, '-');
    } else {
      SplitNone(s.ToNodeID, '-');
    }
  }

  /** The four forms of an entry, as the source documents them. */
  lemma WrittenForms()
    ensures SlotString(42) == "42" && RangeString(SlotRange(42, 52)) == "42-52"
    ensures MigratingString(MigratingSlot(42, "67ed")) == "42->-67ed"
    ensures ImportingString(ImportingSlot(42, "67ed")) == "42-<-67ed"
  {
    assert Decimal.Format(4) == "4" && Decimal.Format(5) == "5";
  }

  /** Only numbers of 64 bits are slots. */
  lemma DecodedSlot(s: string)
    ensures DecodeSlot(s).Some? <==>
      && s != "" && (forall i :: 0 <= i < |s| ==> '0' <= s[i] <= '9')
      && (Decimal.Parse(s).Some? ==> Decimal.Parse(s).value <= MAX_UINT64)
  {
    Decimal.ParseDigits(s);
  }

  /** Any other mark is an error. */
  lemma UnknownMark(slot: Slot, mark: char, id: string)
    requires slot <= MAX_UINT64 && mark != '<' && mark != '>' && mark != '-' && '-' !in id
    ensures DecodeSlotRange(SlotString(slot) + ['-', mark, '-'] + id) == None
  {
    MarkParts(slot, mark, id);
    SplitNone(id, '-');
    SlotRoundTrip(slot);
  }

  lemma BracketedParts(slot: Slot, mark: char, id: string)
    requires slot <= MAX_UINT64 && mark != '-' && '-' !in id
    ensures Split("[" + (SlotString(slot) + ['-', mark, '-'] + id) + "]", '-') ==
      ["[" + SlotString(slot), [mark], id + "]"]
    ensures TrimPrefix("[" + SlotString(slot), '[') == SlotString(slot) && TrimSuffix(id + "]", ']') == id
  {
    SlotRoundTrip(slot);
    var head, tail := "[" + SlotString(slot), [mark] + ['-'] + (id + "]");
    assert "[" + (SlotString(slot) + ['-', mark, '-'] + id) + "]" == head + ['-'] + tail;
    SplitFirst(head, '-', tail);
    SplitFirst([mark], '-', id + "]");
    SplitNone(id + "]", '-');
  }

  /** Redis writes the marks in brackets; there the id may even end in a bracket. */
  lemma BracketedImporting(s: ImportingSlot)
    requires s.SlotID <= MAX_UINT64 && '-' !in s.FromNodeID
    ensures DecodeSlotRange("[" + ImportingString(s) + "]") == Some(Entry([], Some(s), None))
  {
    SlotRoundTrip(s.SlotID);
    BracketedParts(s.SlotID, '<', s.FromNodeID);
    assert ImportingString(s) == SlotString(s.SlotID) + ['-', '<', '-'] + s.FromNodeID;
  }

  lemma BracketedMigrating(s: MigratingSlot)
    requires s.SlotID <= MAX_UINT64 && '-' !in s.ToNodeID
    ensures DecodeSlotRange("[" + MigratingString(s) + "]") == Some(Entry([], None, Some(s)))
  {
    SlotRoundTrip(s.SlotID);
    BracketedParts(s.SlotID, '>', s.ToNodeID);
    assert MigratingString(s) == SlotString(s.SlotID) + ['-', '>', '-'] + s.ToNodeID;
  }

  // ----- from slots to ranges and back

  /** The slots of a list of ranges, one range after the other. */
  function Expand(ranges: seq<SlotRange>): seq<Slot> {
    if ranges == [] then []
    else
      var last := ranges[|ranges| - 1];
      Expand(ranges[..|ranges| - 1]) + Range(last.Min, last.Max + 1)
  }

  /** Non-empty ranges, in order, with a gap before each next one. */
  predicate Separate(ranges: seq<SlotRange>) {
    && (forall i :: 0 <= i < |ranges| ==> ranges[i].Min <= ranges[i].Max)
    && (forall i :: 0 < i < |ranges| ==> ranges[i - 1].Max + 1 < ranges[i].Min)
  }

  /** Extending the last range by its next slot. */
  lemma ExpandNext(init: seq<SlotRange>, min: Slot, max: Slot)
    requires min <= max
    ensures Expand(init + [SlotRange(min, max + 1)]) == Expand(init + [SlotRange(min, max)]) + [max + 1]
    ensures Expand(init + [SlotRange(min, min)]) == Expand(init) + [min]
  {
    assert (init + [SlotRange(min, max + 1)])[..|init|] == init;
    assert (init + [SlotRange(min, max)])[..|init|] == init;
    assert (init + [SlotRange(min, min)])[..|init|] == init;
    assert Range(min, max + 2) == Range(min, max + 1) + [max + 1];
  }

  /** What the loop has made of a non-empty sorted prefix. */
  ghost predicate Grouping(ranges: seq<SlotRange>, min: Slot, max: Slot, seen: seq<Slot>) {
    && seen != [] && max == seen[|seen| - 1] && min <= max
    && Separate(ranges + [SlotRange(min, max)])
    && Ascending(Expand(ranges + [SlotRange(min, max)]))
    && (forall x :: x in Expand(ranges + [SlotRange(min, max)]) <==> x in seen)
    && (forall x :: x in seen ==> x <= max)
  }

  /** One more slot of a sorted list. */
  lemma GroupingStep(ranges: seq<SlotRange>, min: Slot, max: Slot, seen: seq<Slot>, slot: Slot)
    requires Grouping(ranges, min, max, seen) && max <= slot
    ensures if slot > max + 1 then Grouping(ranges + [SlotRange(min, max)], slot, slot, seen + [slot])
            else Grouping(ranges, min, slot, seen + [slot])
  {
    hide Range, Expand;
    var all := Expand(ranges + [SlotRange(min, max)]);
    assert forall x :: x in all ==> x <= max;
    assert forall x :: x in seen + [slot] <==> x in seen || x == slot;
    if slot > max + 1 {
      ExpandNext(ranges + [SlotRange(min, max)], slot, slot);
      AscendingNext(all, slot);
    } else if slot == max + 1 {
      ExpandNext(ranges, min, max);
      AscendingNext(all, slot);
      LastRange(ranges, min, max);
    }
  }

  lemma AscendingNext(s: seq<Slot>, x: Slot)
    requires Ascending(s) && forall y :: y in s ==> y < x
    ensures Ascending(s + [x]) && forall y :: y in s + [x] <==> y in s || y == x
  {
    forall i, j | 0 <= i < j < |s + [x]| ensures (s + [x])[i] < (s + [x])[j] {
      assert s[i] in s;
    }
  }

  lemma LastRange(ranges: seq<SlotRange>, min: Slot, max: Slot)
    requires Separate(ranges + [SlotRange(min, max)])
    ensures Separate(ranges + [SlotRange(min, max + 1)])
  {
    var a, b := ranges + [SlotRange(min, max)], ranges + [SlotRange(min, max + 1)];
    forall i | 0 <= i < |b| ensures b[i].Min <= b[i].Max {
      assert a[i].Min <= a[i].Max;
    }
    forall i | 0 < i < |b| ensures b[i - 1].Max + 1 < b[i].Min {
      assert a[i - 1].Max + 1 < a[i].Min;
    }
  }

  lemma NoRanges()
    ensures Separate([]) && Expand([]) == [] && Ascending([])
  {
  }

  lemma GroupingStart(slot: Slot)
    ensures SoFar([], slot, slot, [slot])
  {
    ExpandNext([], slot, slot);
  }

  /** 64-bit addition */
  function Plus1(x: Slot): Slot {
    (x + 1) % (MAX_UINT64 + 1)
  }

  /** The loop has seen the top slot twice: max + 1 has wrapped to zero, and the top slot has been given a range of its
      own. */
  ghost predicate Wrapped(ranges: seq<SlotRange>, min: Slot, max: Slot) {
    min == max == MAX_UINT64 && ranges != [] && ranges[|ranges| - 1].Max == MAX_UINT64
  }

  /** SlotRangesFromSlots: the printed form holds each slot once, in order, in as few ranges as possible.  The one
      exception is a list with the top slot 2^64 - 1 in it twice, where max + 1 wraps. */
  method SlotRangesFromSlots(slots: seq<Slot>) returns (ranges: seq<SlotRange>)
    requires forall x :: x in slots ==> x <= MAX_UINT64
    ensures Shown(ranges, slots) <==> multiset(slots)[MAX_UINT64] <= 1
  {
    hide Expand, Separate, Ascending, Grouping, Wrapped, SoFar;
    NoRanges();
    ranges := [];
    var min: Slot, max: Slot, first := 0, 0, true;
    var sorted := SortSlots(slots);
    SameMembers(sorted, slots);
    for i := 0 to |sorted|
      invariant first <==> i == 0
      invariant first ==> ranges == []
      invariant !first ==> SoFar(ranges, min, max, sorted[..i])
    {
      var slot := sorted[i];
      assert sorted[..i + 1] == sorted[..i] + [slot];
      assert slot in sorted;
      if first {
        min, max, first := slot, slot, false;
        GroupingStart(slot);
        assert sorted[..i + 1] == [slot];
        continue;
      }
      SoFarStep(ranges, min, max, sorted, i);
      if slot > Plus1(max) {
        ranges := ranges + [SlotRange(min, max)];
        min := slot;
      }
      max := slot;
    }
    assert sorted[..|sorted|] == sorted;
    if !first {
      SoFarEnd(ranges, min, max, sorted, slots);
      ranges := ranges + [SlotRange(min, max)];
    }
  }

  /** What the loop has made of a non-empty sorted prefix. */
  ghost predicate SoFar(ranges: seq<SlotRange>, min: Slot, max: Slot, seen: seq<Slot>) {
    if multiset(seen)[MAX_UINT64] <= 1 then Grouping(ranges, min, max, seen) else Wrapped(ranges, min, max)
  }

  lemma SoFarStep(ranges: seq<SlotRange>, min: Slot, max: Slot, sorted: seq<Slot>, i: nat)
    requires Ordered(sorted) && 0 < i < |sorted| && sorted[i] <= MAX_UINT64
    requires SoFar(ranges, min, max, sorted[..i])
    ensures var slot := sorted[i];
      if slot > Plus1(max) then SoFar(ranges + [SlotRange(min, max)], slot, slot, sorted[..i + 1])
      else SoFar(ranges, min, slot, sorted[..i + 1])
  {
    hide Expand, Separate, Ascending;
    assert sorted[..i + 1] == sorted[..i] + [sorted[i]];
    assert sorted[..i][i - 1] == sorted[i - 1];
    TopSeen(sorted, i);
    if multiset(sorted[..i])[MAX_UINT64] <= 1 {
      GroupingStep(ranges, min, max, sorted[..i], sorted[i]);
    }
  }

  lemma SoFarEnd(ranges: seq<SlotRange>, min: Slot, max: Slot, sorted: seq<Slot>, slots: seq<Slot>)
    requires SoFar(ranges, min, max, sorted) && multiset(sorted) == multiset(slots)
    requires forall x :: x in sorted <==> x in slots
    ensures Shown(ranges + [SlotRange(min, max)], slots) <==> multiset(slots)[MAX_UINT64] <= 1
  {
    hide Expand, Separate, Ascending;
    if multiset(sorted)[MAX_UINT64] <= 1 {
      GroupingShown(ranges, min, max, sorted, slots);
    } else {
      WrappedNotShown(ranges + [SlotRange(min, max)]);
    }
  }

  /** The ranges are apart, and together they are exactly these slots, in order. */
  ghost predicate Shown(ranges: seq<SlotRange>, slots: seq<Slot>) {
    Separate(ranges) && Ascending(Expand(ranges)) && forall x :: x in Expand(ranges) <==> x in slots
  }

  lemma SameMembers(sorted: seq<Slot>, slots: seq<Slot>)
    requires multiset(sorted) == multiset(slots)
    ensures forall x :: x in sorted <==> x in slots
  {
    forall x: Slot ensures x in sorted <==> x in slots {
      assert x in multiset(sorted) <==> x in multiset(slots);
    }
  }

  /** In a sorted list the top slot is followed by itself only. */
  lemma TopSeen(sorted: seq<Slot>, i: nat)
    requires Ordered(sorted) && 0 < i < |sorted| && sorted[i] <= MAX_UINT64
    ensures multiset(sorted[..i + 1])[MAX_UINT64] ==
            multiset(sorted[..i])[MAX_UINT64] + (if sorted[i] == MAX_UINT64 then 1 else 0)
    ensures multiset(sorted[..i])[MAX_UINT64] > 0 <==> sorted[i - 1] == MAX_UINT64
    ensures sorted[i - 1] == MAX_UINT64 ==> sorted[i] == MAX_UINT64
  {
    assert sorted[..i + 1] == sorted[..i] + [sorted[i]];
    assert sorted[..i][i - 1] == sorted[i - 1];
    assert sorted[i - 1] in multiset(sorted[..i]);
    if multiset(sorted[..i])[MAX_UINT64] > 0 {
      assert MAX_UINT64 in sorted[..i];
      var j :| 0 <= j < i && sorted[j] == MAX_UINT64;
      assert sorted[j] <= sorted[i - 1] <= sorted[i];
    }
  }

  lemma GroupingShown(ranges: seq<SlotRange>, min: Slot, max: Slot, sorted: seq<Slot>, slots: seq<Slot>)
    requires Grouping(ranges, min, max, sorted) && forall x :: x in sorted <==> x in slots
    ensures Shown(ranges + [SlotRange(min, max)], slots)
  {
    hide Expand, Separate, Ascending;
  }

  lemma WrappedNotShown(ranges: seq<SlotRange>)
    requires |ranges| > 1 && ranges[|ranges| - 1].Min == MAX_UINT64 && ranges[|ranges| - 2].Max == MAX_UINT64
    ensures !Separate(ranges)
  {
  }

  predicate Within(r: SlotRange, x: Slot) {
    r.Min <= x <= r.Max
  }

  predicate InSome(ranges: seq<SlotRange>, x: Slot) {
    exists i :: 0 <= i < |ranges| && Within(ranges[i], x)
  }

  lemma ExpandLast(init: seq<SlotRange>, last: SlotRange, x: Slot)
    ensures x in Expand(init + [last]) <==> x in Expand(init) || Within(last, x)
    ensures InSome(init + [last], x) <==> InSome(init, x) || Within(last, x)
  {
    var all := init + [last];
    assert all[..|init|] == init;
    assert Within(last, x) ==> Within(all[|init|], x);
    if i :| 0 <= i < |init| && Within(init[i], x) {
      assert Within(all[i], x);
    }
  }

  /** The slots of the expansion are those in some range. */
  lemma {:induction false} RangeOf(ranges: seq<SlotRange>, x: Slot)
    ensures x in Expand(ranges) <==> InSome(ranges, x)
  {
    hide Within;
    if ranges != [] {
      var init, last := ranges[..|ranges| - 1], ranges[|ranges| - 1];
      assert ranges == init + [last];
      RangeOf(init, x);
      ExpandLast(init, last, x);
    }
  }

  lemma {:induction false} SeparateFar(ranges: seq<SlotRange>, i: nat, j: nat)
    requires Separate(ranges) && i < j < |ranges|
    ensures ranges[i].Min <= ranges[i].Max && ranges[i].Max + 1 < ranges[j].Min <= ranges[j].Max
    decreases j
  {
    if i < j - 1 {
      SeparateFar(ranges, i, j - 1);
    }
  }

  /** A slot just past a range is in no range: the ranges are maximal. */
  lemma Maximal(ranges: seq<SlotRange>, i: nat)
    requires Separate(ranges) && i < |ranges|
    ensures ranges[i].Max + 1 !in Expand(ranges)
    ensures ranges[i].Min > 0 ==> ranges[i].Min - 1 !in Expand(ranges)
  {
    hide Expand;
    RangeOf(ranges, ranges[i].Max + 1);
    forall j | 0 <= j < |ranges|
      ensures !(ranges[j].Min <= ranges[i].Max + 1 <= ranges[j].Max)
      ensures !(ranges[j].Min <= ranges[i].Min - 1 <= ranges[j].Max)
    {
      if j < i { SeparateFar(ranges, j, i); }
      if i < j { SeparateFar(ranges, i, j); }
      assert ranges[i].Min <= ranges[i].Max;
    }
    if ranges[i].Min > 0 {
      RangeOf(ranges, ranges[i].Min - 1);
    }
  }

  /** Before the last range lies what is below it. */
  lemma WithoutLast(init: seq<SlotRange>, last: SlotRange, x: Slot)
    requires Separate(init + [last])
    ensures x in Expand(init) <==> x in Expand(init + [last]) && x < last.Min
  {
    hide Expand;
    ExpandLast(init, last, x);
    RangeOf(init, x);
    forall i | 0 <= i < |init| ensures init[i].Max < last.Min {
      SeparateFar(init + [last], i, |init|);
    }
  }

  lemma SeparateInit(init: seq<SlotRange>, last: SlotRange)
    requires Separate(init + [last])
    ensures Separate(init) && last.Min <= last.Max
  {
    var all := init + [last];
    forall i | 0 <= i < |init| ensures init[i].Min <= init[i].Max {
      assert all[i].Min <= all[i].Max;
    }
    forall i | 0 < i < |init| ensures init[i - 1].Max + 1 < init[i].Min {
      assert all[i - 1].Max + 1 < all[i].Min;
    }
    assert all[|init|] == last;
  }

  lemma SomeSlot(a: seq<SlotRange>)
    requires Separate(a) && a != []
    ensures exists x :: x in Expand(a)
  {
    EndsListed(a, 0);
  }

  /** There is only one way to write a set of slots as separate ranges. */
  lemma {:induction false} RangesUnique(a: seq<SlotRange>, b: seq<SlotRange>)
    requires Separate(a) && Separate(b)
    requires forall x :: x in Expand(a) <==> x in Expand(b)
    ensures a == b
    decreases |a|
  {
    hide Expand, Separate;
    NoRanges();
    if a != [] {
      SomeSlot(a);
    }
    if b != [] {
      SomeSlot(b);
    }
    if a != [] && b != [] {
      var a0, b0, last := a[..|a| - 1], b[..|b| - 1], a[|a| - 1];
      LastSame(a, b);
      assert a == a0 + [last] && b == b0 + [last];
      SeparateInit(a0, last);
      SeparateInit(b0, last);
      forall x ensures x in Expand(a0) <==> x in Expand(b0) {
        WithoutLast(a0, last, x);
        WithoutLast(b0, last, x);
      }
      RangesUnique(a0, b0);
    }
  }

  /** Equal expansions have equal last ranges. */
  lemma LastSame(a: seq<SlotRange>, b: seq<SlotRange>)
    requires Separate(a) && Separate(b) && a != [] && b != []
    requires forall x :: x in Expand(a) <==> x in Expand(b)
    ensures a[|a| - 1] == b[|b| - 1]
  {
    hide Expand, Separate;
    LastMax(a, b);
    LastMax(b, a);
    LastMin(a, b);
    LastMin(b, a);
  }

  lemma LastMax(a: seq<SlotRange>, b: seq<SlotRange>)
    requires Separate(a) && Separate(b) && a != [] && b != []
    requires forall x :: x in Expand(a) <==> x in Expand(b)
    ensures a[|a| - 1].Max <= b[|b| - 1].Max
  {
    hide Expand;
    var x := a[|a| - 1].Max;
    EndsListed(a, |a| - 1);
    RangeOf(b, x);
    var j :| 0 <= j < |b| && Within(b[j], x);
    if j < |b| - 1 {
      SeparateFar(b, j, |b| - 1);
    }
  }

  lemma LastMin(a: seq<SlotRange>, b: seq<SlotRange>)
    requires Separate(a) && Separate(b) && a != [] && b != [] && a[|a| - 1].Max == b[|b| - 1].Max
    requires forall x :: x in Expand(a) <==> x in Expand(b)
    ensures a[|a| - 1].Min <= b[|b| - 1].Min
  {
    hide Expand;
    if a[|a| - 1].Min > 0 {
      var x := a[|a| - 1].Min - 1;
      Maximal(a, |a| - 1);
      RangeOf(b, x);
      assert !Within(b[|b| - 1], x);
      assert a[|a| - 1].Min <= a[|a| - 1].Max;
    }
  }

  // ----- a list of entries

  /** Decoding a list of entries and putting the slots together, as a node's slots are read. */
  function DecodeAll(entries: seq<string>): Option<seq<Slot>> {
    if entries == [] then Some([])
    else
      match (DecodeAll(entries[..|entries| - 1]), DecodeSlotRange(entries[|entries| - 1]))
      case (Some(slots), Some(e)) => Some(slots + e.slots)
      case _ => None
  }

  function Print(ranges: seq<SlotRange>): seq<string> {
    if ranges == [] then [] else Print(ranges[..|ranges| - 1]) + [RangeString(ranges[|ranges| - 1])]
  }

  lemma {:induction false} PrintRoundTrip(ranges: seq<SlotRange>)
    requires forall i :: 0 <= i < |ranges| ==> ranges[i].Min <= MAX_UINT64 && ranges[i].Max <= MAX_UINT64
    ensures DecodeAll(Print(ranges)) == Some(Expand(ranges))
  {
    if ranges != [] {
      var init, last := ranges[..|ranges| - 1], ranges[|ranges| - 1];
      PrintRoundTrip(init);
      RangeRoundTrip(last);
      assert Print(ranges)[..|Print(ranges)| - 1] == Print(init);
    }
  }

  /** Printing the ranges SlotRangesFromSlots makes and decoding what was printed gives each slot once, in order. */
  lemma SlotsRoundTrip(slots: seq<Slot>, ranges: seq<SlotRange>)
    requires Shown(ranges, slots) && forall x :: x in slots ==> x <= MAX_UINT64
    ensures var back := DecodeAll(Print(ranges));
      back.Some? && Ascending(back.value) && forall x :: x in back.value <==> x in slots
  {
    hide Expand, Separate;
    forall i | 0 <= i < |ranges| ensures ranges[i].Min <= MAX_UINT64 && ranges[i].Max <= MAX_UINT64 {
      EndsListed(ranges, i);
    }
    PrintRoundTrip(ranges);
  }

  lemma EndsListed(ranges: seq<SlotRange>, i: nat)
    requires Separate(ranges) && i < |ranges|
    ensures ranges[i].Min in Expand(ranges) && ranges[i].Max in Expand(ranges)
  {
    hide Expand;
    RangeOf(ranges, ranges[i].Min);
    RangeOf(ranges, ranges[i].Max);
    assert Within(ranges[i], ranges[i].Min) && Within(ranges[i], ranges[i].Max);
  }
}
