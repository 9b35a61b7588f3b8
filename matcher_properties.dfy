/** What the greedy matcher of `mapRosterEntriesToSlots` guarantees: every
    slot gets one cell per segment, no roster entry is bound twice, a segment
    with a start prefers an entry with the same `HH:MM` start, and a cell is
    empty only once every entry is taken. */
module MatcherProperties {
  import opened Wrappers
  import opened JsValues
  import opened SlotShape
  import opened RosterMatcher

  function Min(a: int, b: int): int {
    if a <= b then a else b
  }

  /** How many pool entries are used. */
  function CountUsed(used: seq<bool>): nat
    decreases |used|
  {
    if used == [] then 0 else (if used[0] then 1 else 0) + CountUsed(used[1..])
  }

  /** How many cells hold an entry. */
  function CountBound(cells: seq<Option<nat>>): nat
    decreases |cells|
  {
    if cells == [] then 0 else (if cells[0].Some? then 1 else 0) + CountBound(cells[1..])
  }

  function Flatten<T>(rows: seq<seq<T>>): seq<T>
    decreases |rows|
  {
    if rows == [] then [] else rows[0] + Flatten(rows[1..])
  }

  lemma {:induction false} CountUsedFull(used: seq<bool>)
    ensures CountUsed(used) <= |used|
    ensures CountUsed(used) == |used| <==> forall k :: 0 <= k < |used| ==> used[k]
    decreases |used|
  {
    if used != [] {
      CountUsedFull(used[1..]);
      if forall k :: 0 <= k < |used| ==> used[k] {
        assert forall k :: 0 <= k < |used| - 1 ==> used[1..][k];
      }
      if forall k :: 0 <= k < |used[1..]| ==> used[1..][k] {
        assert forall k :: 1 <= k < |used| ==> used[k] by {
          forall k | 1 <= k < |used| ensures used[k] { assert used[1..][k - 1] == used[k]; }
        }
      }
    }
  }

  lemma {:induction false} CountUsedMark(used: seq<bool>, k: nat)
    requires k < |used| && !used[k]
    ensures CountUsed(used[k := true]) == CountUsed(used) + 1
    decreases |used|
  {
    if k > 0 {
      assert used[k := true][1..] == used[1..][k - 1 := true];
      CountUsedMark(used[1..], k - 1);
    } else {
      assert used[k := true][1..] == used[1..];
    }
  }

  lemma {:induction false} CountUsedAllFree(n: nat)
    ensures CountUsed(AllFree(n)) == 0
    decreases n
  {
    if n > 0 {
      assert AllFree(n)[1..] == AllFree(n - 1);
      CountUsedAllFree(n - 1);
    }
  }

  lemma {:induction false} CountBoundAppend(a: seq<Option<nat>>, b: seq<Option<nat>>)
    ensures CountBound(a + b) == CountBound(a) + CountBound(b)
    decreases |a|
  {
    if a != [] {
      assert (a + b)[1..] == a[1..] + b;
      CountBoundAppend(a[1..], b);
    } else {
      assert a + b == b;
    }
  }

  /** Matching a segment list binds `min(segments, free entries)` cells and
      uses exactly the entries it binds. */
  lemma {:induction false} MatchSegmentsCount(keys: seq<string>, used: seq<bool>, segKeys: seq<Option<string>>)
    requires |keys| == |used|
    ensures var r := MatchSegments(keys, used, segKeys);
      && CountUsed(used) <= |used|
      && CountBound(r.cells) == Min(|segKeys|, |used| - CountUsed(used))
      && CountUsed(r.used) == CountUsed(used) + CountBound(r.cells)
    decreases |segKeys|
  {
    CountUsedFull(used);
    if segKeys != [] {
      var c := Pick(keys, used, segKeys[0]);
      var u1 := Mark(used, c);
      var r := MatchSegments(keys, used, segKeys);
      var rest := MatchSegments(keys, u1, segKeys[1..]);
      MatchSegmentsCount(keys, u1, segKeys[1..]);
      assert r.cells == [c] + rest.cells;
      assert r.cells[1..] == rest.cells;
      if c.Some? {
        CountUsedMark(used, c.value);
      }
    }
  }

  /** Every entry a segment list binds was free before, is used after, and is
      bound at most once; entries already used stay used. */
  lemma {:induction false} MatchSegmentsSound(keys: seq<string>, used: seq<bool>, segKeys: seq<Option<string>>)
    requires |keys| == |used|
    ensures var r := MatchSegments(keys, used, segKeys);
      && (forall k :: 0 <= k < |used| && used[k] ==> r.used[k])
      && (forall a :: 0 <= a < |r.cells| && r.cells[a].Some? ==>
            r.cells[a].value < |used| && !used[r.cells[a].value] && r.used[r.cells[a].value])
      && (forall a, b :: 0 <= a < b < |r.cells| && r.cells[a].Some? && r.cells[b].Some? ==>
            r.cells[a].value != r.cells[b].value)
    decreases |segKeys|
  {
    if segKeys != [] {
      var c := Pick(keys, used, segKeys[0]);
      var u1 := Mark(used, c);
      var r := MatchSegments(keys, used, segKeys);
      var rest := MatchSegments(keys, u1, segKeys[1..]);
      MatchSegmentsSound(keys, u1, segKeys[1..]);
      assert r.cells == [c] + rest.cells;
      forall a | 1 <= a < |r.cells| ensures r.cells[a] == rest.cells[a - 1] { }
    }
  }

  lemma {:induction false} MatchSegmentsAppend(keys: seq<string>, used: seq<bool>,
                                                xs: seq<Option<string>>, ys: seq<Option<string>>)
    requires |keys| == |used|
    ensures var rx := MatchSegments(keys, used, xs);
      var ry := MatchSegments(keys, rx.used, ys);
      MatchSegments(keys, used, xs + ys) == Run(rx.cells + ry.cells, ry.used)
    decreases |xs|
  {
    if xs == [] {
      assert xs + ys == ys;
      var ry := MatchSegments(keys, used, ys);
      assert [] + ry.cells == ry.cells;
    } else {
      var c := Pick(keys, used, xs[0]);
      assert (xs + ys)[0] == xs[0];
      assert (xs + ys)[1..] == xs[1..] + ys;
      MatchSegmentsAppend(keys, Mark(used, c), xs[1..], ys);
      var tail := MatchSegments(keys, Mark(used, c), xs[1..]);
      var ry := MatchSegments(keys, tail.used, ys);
      assert [c] + (tail.cells + ry.cells) == ([c] + tail.cells) + ry.cells;
    }
  }

  /** Matching slot by slot is matching the concatenated segment list. */
  lemma {:induction false} MatchSlotsIsFlat(keys: seq<string>, used: seq<bool>, slotKeys: seq<seq<Option<string>>>)
    requires |keys| == |used|
    ensures var r := MatchSlots(keys, used, slotKeys);
      var flat := MatchSegments(keys, used, Flatten(slotKeys));
      Flatten(r.cells) == flat.cells && r.used == flat.used
    decreases |slotKeys|
  {
    if slotKeys != [] {
      var row := MatchSegments(keys, used, slotKeys[0]);
      var r := MatchSlots(keys, used, slotKeys);
      MatchSlotsIsFlat(keys, row.used, slotKeys[1..]);
      MatchSegmentsAppend(keys, used, slotKeys[0], Flatten(slotKeys[1..]));
      assert r.cells[0] == row.cells;
      assert r.cells[1..] == MatchSlots(keys, row.used, slotKeys[1..]).cells;
    }
  }

  /** The cell of position `a` is what `Pick` chooses given the entries used
      by the positions before it. */
  lemma MatchSegmentsAt(keys: seq<string>, used: seq<bool>, segKeys: seq<Option<string>>, a: nat)
    requires |keys| == |used| && a < |segKeys|
    ensures MatchSegments(keys, used, segKeys).cells[a]
      == Pick(keys, MatchSegments(keys, used, segKeys[..a]).used, segKeys[a])
  {
    assert segKeys == segKeys[..a] + segKeys[a..];
    MatchSegmentsAppend(keys, used, segKeys[..a], segKeys[a..]);
    var before := MatchSegments(keys, used, segKeys[..a]);
    assert segKeys[a..][0] == segKeys[a];
  }

  // The properties of `mapRosterEntriesToSlots` itself, over the flattened
  // (slot, then segment) order in which it visits segments.

  function Keys(rosterEntries: JsList<RosterEntry>): seq<string> {
    PoolKeys(Pool(rosterEntries))
  }

  /** The segment keys in visiting order. */
  function Visits(slots: JsList<RawSlot>): seq<Option<string>>
    requires AllMappable(slots)
  {
    Flatten(SlotKeys(slots))
  }

  /** The entries used after visiting the first `a` segments. */
  function UsedBefore(slots: JsList<RawSlot>, rosterEntries: JsList<RosterEntry>, a: nat): (used: seq<bool>)
    requires AllMappable(slots) && a <= |Visits(slots)|
    ensures |used| == |Pool(rosterEntries)|
  {
    var pool := Pool(rosterEntries);
    MatchSegments(Keys(rosterEntries), AllFree(|pool|), Visits(slots)[..a]).used
  }

  /** The bound pool indices in visiting order. */
  function Bindings(slots: JsList<RawSlot>, rosterEntries: JsList<RosterEntry>): (flat: seq<Option<nat>>)
    requires AllMappable(slots)
    ensures |flat| == |Visits(slots)|
  {
    AssignIsFlat(slots, rosterEntries);
    Flatten(Assign(slots, rosterEntries).cells)
  }

  lemma AssignIsFlat(slots: JsList<RawSlot>, rosterEntries: JsList<RosterEntry>)
    requires AllMappable(slots)
    ensures var pool := Pool(rosterEntries);
      Flatten(Assign(slots, rosterEntries).cells)
        == MatchSegments(Keys(rosterEntries), AllFree(|pool|), Visits(slots)).cells
  {
    var pool := Pool(rosterEntries);
    MatchSlotsIsFlat(PoolKeys(pool), AllFree(|pool|), SlotKeys(slots));
  }

  /** Each roster entry is bound at most once, and every bound index names an entry. */
  lemma AssignAtMostOnce(slots: JsList<RawSlot>, rosterEntries: JsList<RosterEntry>)
    requires AllMappable(slots)
    ensures var flat := Bindings(slots, rosterEntries);
      && (forall a :: 0 <= a < |flat| && flat[a].Some? ==> flat[a].value < |Pool(rosterEntries)|)
      && (forall a, b :: 0 <= a < b < |flat| && flat[a].Some? && flat[b].Some? ==> flat[a].value != flat[b].value)
  {
    var pool := Pool(rosterEntries);
    AssignIsFlat(slots, rosterEntries);
    MatchSegmentsSound(Keys(rosterEntries), AllFree(|pool|), Visits(slots));
  }

  /** The number of bound cells is min(total segments, entries). */
  lemma AssignCount(slots: JsList<RawSlot>, rosterEntries: JsList<RosterEntry>)
    requires AllMappable(slots)
    ensures CountBound(Bindings(slots, rosterEntries))
      == Min(|Visits(slots)|, |Pool(rosterEntries)|)
  {
    var pool := Pool(rosterEntries);
    AssignIsFlat(slots, rosterEntries);
    CountUsedAllFree(|pool|);
    MatchSegmentsCount(Keys(rosterEntries), AllFree(|pool|), Visits(slots));
  }

  /** Visited segment `a` binds what `Pick` chooses among the entries still free. */
  lemma AssignAt(slots: JsList<RawSlot>, rosterEntries: JsList<RosterEntry>, a: nat)
    requires AllMappable(slots) && a < |Visits(slots)|
    ensures Bindings(slots, rosterEntries)[a]
      == Pick(Keys(rosterEntries), UsedBefore(slots, rosterEntries, a), Visits(slots)[a])
  {
    var pool := Pool(rosterEntries);
    AssignIsFlat(slots, rosterEntries);
    MatchSegmentsAt(Keys(rosterEntries), AllFree(|pool|), Visits(slots), a);
  }

  /** A segment with a start binds the first free entry with the same
      five-character start whenever one is free. */
  lemma AssignPrefersExactStart(slots: JsList<RawSlot>, rosterEntries: JsList<RosterEntry>, a: nat, k: nat)
    requires AllMappable(slots) && a < |Visits(slots)| && Visits(slots)[a].Some?
    requires k < |Pool(rosterEntries)| && !UsedBefore(slots, rosterEntries, a)[k]
    requires Keys(rosterEntries)[k] == Visits(slots)[a].value
    ensures var cell := Bindings(slots, rosterEntries)[a];
      && cell.Some? && cell.value <= k
      && Keys(rosterEntries)[cell.value] == Visits(slots)[a].value
      && !UsedBefore(slots, rosterEntries, a)[cell.value]
  {
    AssignAt(slots, rosterEntries, a);
    var used := UsedBefore(slots, rosterEntries, a);
    var keys := Keys(rosterEntries);
    var exact := FindFree(keys, used, Visits(slots)[a], 0);
    assert Eligible(keys, used, Visits(slots)[a], k);
  }

  /** With no free entry of the same start (or no start at all), a segment
      binds the first free entry, whatever its start. */
  lemma AssignFallsBack(slots: JsList<RawSlot>, rosterEntries: JsList<RosterEntry>, a: nat)
    requires AllMappable(slots) && a < |Visits(slots)|
    requires Visits(slots)[a].Some? ==>
      forall k :: 0 <= k < |Pool(rosterEntries)| && !UsedBefore(slots, rosterEntries, a)[k]
        ==> Keys(rosterEntries)[k] != Visits(slots)[a].value
    ensures var cell := Bindings(slots, rosterEntries)[a];
      var used := UsedBefore(slots, rosterEntries, a);
      && (cell.Some? ==> cell.value < |used| && !used[cell.value] && forall k :: 0 <= k < cell.value ==> used[k])
      && (cell.None? <==> forall k :: 0 <= k < |used| ==> used[k])
  {
    AssignAt(slots, rosterEntries, a);
    var used := UsedBefore(slots, rosterEntries, a);
    var keys := Keys(rosterEntries);
    var want := Visits(slots)[a];
    if want.Some? {
      assert FindFree(keys, used, want, 0).None?;
    }
    var cell := Pick(keys, used, want);
    if cell.Some? {
      forall k | 0 <= k < cell.value ensures used[k] {
        assert !Eligible(keys, used, None, k);
      }
    }
  }

  /** A cell is empty only when every entry is already taken. */
  lemma AssignEmptyOnlyWhenExhausted(slots: JsList<RawSlot>, rosterEntries: JsList<RosterEntry>, a: nat)
    requires AllMappable(slots) && a < |Visits(slots)|
    ensures Bindings(slots, rosterEntries)[a].None?
      <==> forall k :: 0 <= k < |Pool(rosterEntries)| ==> UsedBefore(slots, rosterEntries, a)[k]
  {
    AssignAt(slots, rosterEntries, a);
  }

  /** A roster list that is not an array binds nothing. */
  lemma AssignWithoutEntries(slots: JsList<RawSlot>)
    requires AllMappable(slots)
    ensures var flat := Bindings(slots, NotArray);
      forall a :: 0 <= a < |flat| ==> flat[a].None?
  {
    var flat := Bindings(slots, NotArray);
    forall a | 0 <= a < |flat| ensures flat[a].None? {
      AssignIsFlat(slots, NotArray);
      AssignEmptyOnlyWhenExhausted(slots, NotArray, a);
    }
  }

  /** With exactly one entry, the first visited segment takes it, whatever its
      start, and every later segment is empty. */
  lemma AssignSingleEntry(slots: JsList<RawSlot>, entry: RosterEntry)
    requires AllMappable(slots) && |Visits(slots)| > 0
    ensures var flat := Bindings(slots, Arr([entry]));
      && flat[0] == Some(0)
      && forall a :: 1 <= a < |flat| ==> flat[a].None?
  {
    var entries := Arr([entry]);
    var flat := Bindings(slots, entries);
    AssignIsFlat(slots, entries);
    AssignAt(slots, entries, 0);
    assert Visits(slots)[..0] == [];
    AssignAtMostOnce(slots, entries);
    forall a | 1 <= a < |flat| ensures flat[a].None? {
    }
  }

  /** Two one-segment slots starting at 09:00 and 13:00, and two entries
      listed as 13:00 then 09:00: each slot binds the entry with its own
      start, not the one at its position. */
  lemma ExactStartExample(first: RosterEntry, second: RosterEntry)
    requires first.shiftStart == Some("13:00:00") && second.shiftStart == Some("09:00")
    ensures var slots := Arr([RawSlot(SegmentList([RawSegment(Some("09:00"), Some("13:00"), Undefined)]),
                                      None, None, Undefined, map[]),
                              RawSlot(SegmentList([RawSegment(Some("13:00"), Some("17:00"), Undefined)]),
                                      None, None, Undefined, map[])]);
      Assign(slots, Arr([first, second])).cells == [[Some(1)], [Some(0)]]
  {
    var slots := Arr([RawSlot(SegmentList([RawSegment(Some("09:00"), Some("13:00"), Undefined)]),
                              None, None, Undefined, map[]),
                      RawSlot(SegmentList([RawSegment(Some("13:00"), Some("17:00"), Undefined)]),
                              None, None, Undefined, map[])]);
    var keys := PoolKeys([first, second]);
    assert Prefix5("13:00:00") == "13:00";
    assert PoolKey(first) == "13:00" && PoolKey(second) == "09:00";
    assert keys == ["13:00", "09:00"];
    var slotKeys := SlotKeys(slots);
    assert SegmentKey(RawSegment(Some("09:00"), Some("13:00"), Undefined)) == Some("09:00");
    assert SegmentKey(RawSegment(Some("13:00"), Some("17:00"), Undefined)) == Some("13:00");
    assert slotKeys[0] == [Some("09:00")] && slotKeys[1] == [Some("13:00")];
    assert slotKeys == [[Some("09:00")], [Some("13:00")]];
    var free := AllFree(2);
    assert free == [false, false];
    // The first slot skips entry 0 (13:00) and takes entry 1 (09:00).
    assert FindFree(keys, free, Some("09:00"), 0) == Some(1);
    var row0 := MatchSegments(keys, free, [Some("09:00")]);
    assert [Some("09:00")][1..] == [];
    assert MatchSegments(keys, [false, true], []) == Run([], [false, true]);
    assert row0.cells == [Some(1)] && row0.used == [false, true];
    // The second slot takes entry 0, the only one left with its start.
    assert FindFree(keys, [false, true], Some("13:00"), 0) == Some(0);
    var row1 := MatchSegments(keys, [false, true], [Some("13:00")]);
    assert [Some("13:00")][1..] == [];
    assert MatchSegments(keys, [true, true], []) == Run([], [true, true]);
    assert row1.cells == [Some(0)] && row1.used == [true, true];
    var rest := MatchSlots(keys, [false, true], [[Some("13:00")]]);
    assert rest.cells == [row1.cells] + MatchSlots(keys, [true, true], []).cells;
    assert slotKeys[1..] == [[Some("13:00")]];
    assert Assign(slots, Arr([first, second])).cells == [row0.cells] + rest.cells;
  }

  /** The matcher reads a slot without a `segments` array (a legacy flat slot,
      or a `null` slot, whose `slot?.segments` is also missing) as having no
      segments, so it gets an empty row and binds nothing. */
  lemma LegacySlotGetsEmptyRow(slot: RawSlot, rosterEntries: JsList<RosterEntry>)
    requires slot.segments.NoSegments?
    ensures Assign(Arr([slot]), rosterEntries).cells == [[]]
  {
    var keys := Keys(rosterEntries);
    var free := AllFree(|Pool(rosterEntries)|);
    var slotKeys := SlotKeys(Arr([slot]));
    assert SlotSegments(slot) == [];
    assert slotKeys[0] == SegmentKeys([]) == [];
    assert slotKeys == [[]];
    assert MatchSegments(keys, free, []) == Run([], free);
    assert slotKeys[1..] == [];
  }
}
