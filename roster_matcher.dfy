/** `mapRosterEntriesToSlots`: binds a day's roster rows back to the slot and
    segment positions they were created from, by a greedy left-to-right pass
    that prefers an entry with the same `HH:MM` start and otherwise takes the
    first entry not yet used. */
module RosterMatcher {
  import opened Wrappers
  import opened JsValues
  import opened SlotShape

  /** A roster row: one employee's shift on one day. */
  datatype RosterEntry = RosterEntry(id: int, employeeId: int, shiftDate: string,
                                     shiftStart: Option<string>, shiftEnd: Option<string>, role: string)

  /** The outcome of matching: per position, the pool index bound there (or
      nothing), and which pool entries are used afterwards. */
  datatype Run<C> = Run(cells: C, used: seq<bool>)

  /** `String(entry.shift_start || "").slice(0, 5)`: the first five
      characters of the shift start, or `""` when there is none. */
  function PoolKey(entry: RosterEntry): (r: string)
    ensures |r| <= 5
    ensures Present(entry.shiftStart) ==> r != "" && r <= entry.shiftStart.value
    ensures Present(entry.shiftStart) ==>
      |r| == if |entry.shiftStart.value| < 5 then |entry.shiftStart.value| else 5
    ensures !Present(entry.shiftStart) ==> r == ""
  {
    Prefix5(if Present(entry.shiftStart) then entry.shiftStart.value else "")
  }

  /** The pool: the entries of an array, none otherwise. */
  function Pool(rosterEntries: JsList<RosterEntry>): (r: seq<RosterEntry>)
    ensures rosterEntries.Arr? ==> r == rosterEntries.items
    ensures rosterEntries.NotArray? ==> r == []
  {
    if rosterEntries.Arr? then rosterEntries.items else []
  }

  function PoolKeys(pool: seq<RosterEntry>): seq<string> {
    seq(|pool|, k requires 0 <= k < |pool| => PoolKey(pool[k]))
  }

  /** A pool in which nothing is used yet. */
  function AllFree(n: nat): seq<bool> {
    seq(n, _ => false)
  }

  /** The key a segment looks for: the first five characters of its start,
      never empty, or no key when it has no start (so `if (startKey)` holds
      exactly when there is a key). */
  function SegmentKey(seg: RawSegment): (r: Option<string>)
    ensures r.Some? <==> Present(seg.start)
    ensures r.Some? ==> r.value != "" && |r.value| <= 5 && r.value <= seg.start.value
    ensures r.Some? ==> |r.value| == if |seg.start.value| < 5 then |seg.start.value| else 5
  {
    if Present(seg.start) then Some(Prefix5(seg.start.value)) else None
  }

  /** `slot?.segments || []` can be mapped over: it is an array or falsy.
      A truthy `segments` that is not an array makes the source throw. */
  predicate Mappable(slot: RawSlot) {
    slot.segments != NotAList(true)
  }

  /** The segments the matcher visits in a slot. The slot is not normalised:
      a slot without a `segments` array has none. */
  function SlotSegments(slot: RawSlot): (r: seq<RawSegment>)
    requires Mappable(slot)
    ensures slot.segments.SegmentList? ==> r == slot.segments.items
    ensures !slot.segments.SegmentList? ==> r == []
  {
    if slot.segments.SegmentList? then slot.segments.items else []
  }

  predicate AllMappable(slots: JsList<RawSlot>) {
    slots.Arr? ==> forall k :: 0 <= k < |slots.items| ==> Mappable(slots.items[k])
  }

  function SegmentKeys(segments: seq<RawSegment>): seq<Option<string>> {
    seq(|segments|, j requires 0 <= j < |segments| => SegmentKey(segments[j]))
  }

  /** `(Array.isArray(slots) ? slots : []).map(slot => slot?.segments || [])`:
      the segments the matcher visits, slot by slot. */
  function SlotRows(slots: JsList<RawSlot>): (r: seq<seq<RawSegment>>)
    requires AllMappable(slots)
    ensures |r| == if slots.Arr? then |slots.items| else 0
  {
    if slots.Arr? then
      seq(|slots.items|, i requires 0 <= i < |slots.items| => SlotSegments(slots.items[i]))
    else []
  }

  /** The start keys of each row of segments. */
  function RowKeys(rows: seq<seq<RawSegment>>): (r: seq<seq<Option<string>>>)
    ensures |r| == |rows|
  {
    seq(|rows|, i requires 0 <= i < |rows| => SegmentKeys(rows[i]))
  }

  /** The keys of every slot's segments, slot by slot. */
  function SlotKeys(slots: JsList<RawSlot>): (r: seq<seq<Option<string>>>)
    requires AllMappable(slots)
    ensures |r| == if slots.Arr? then |slots.items| else 0
    ensures forall i :: 0 <= i < |r| ==> r[i] == SegmentKeys(SlotSegments(slots.items[i]))
  {
    RowKeys(SlotRows(slots))
  }

  /** Pool entry `k` can be taken for `want`: unused, and with key `want` if one is given. */
  predicate Eligible(keys: seq<string>, used: seq<bool>, want: Option<string>, k: nat)
    requires |keys| == |used| && k < |used|
  {
    !used[k] && (want.None? || keys[k] == want.value)
  }

  /** `pool.findIndex(...)` from position `from` on: the first eligible entry. */
  function FindFree(keys: seq<string>, used: seq<bool>, want: Option<string>, from: nat): (r: Option<nat>)
    requires |keys| == |used| && from <= |used|
    ensures r.Some? ==> from <= r.value < |used| && Eligible(keys, used, want, r.value)
    ensures r.Some? ==> forall k :: from <= k < r.value ==> !Eligible(keys, used, want, k)
    ensures r.None? ==> forall k :: from <= k < |used| ==> !Eligible(keys, used, want, k)
    decreases |used| - from
  {
    if from == |used| then None
    else if Eligible(keys, used, want, from) then Some(from)
    else FindFree(keys, used, want, from + 1)
  }

  /** The entry one segment binds: the first unused entry with the segment's
      start key if it has one and such an entry exists, else the first unused
      entry, else nothing. */
  function Pick(keys: seq<string>, used: seq<bool>, startKey: Option<string>): (r: Option<nat>)
    requires |keys| == |used|
    ensures r.Some? ==> r.value < |used| && !used[r.value]
    ensures r.None? <==> forall k :: 0 <= k < |used| ==> used[k]
  {
    var exact := if startKey.Some? then FindFree(keys, used, startKey, 0) else None;
    if exact.Some? then exact
    else
      var fallback := FindFree(keys, used, None, 0);
      assert fallback.None? ==> forall k :: 0 <= k < |used| ==> used[k] by {
        if fallback.None? {
          forall k | 0 <= k < |used| ensures used[k] {
            assert !Eligible(keys, used, None, k);
          }
        }
      }
      fallback
  }

  /** `pool[matchIndex].used = true`. */
  function Mark(used: seq<bool>, c: Option<nat>): (r: seq<bool>)
    requires c.Some? ==> c.value < |used|
    ensures |r| == |used|
    ensures c.Some? ==> r[c.value]
    ensures forall k :: 0 <= k < |used| && (c.None? || k != c.value) ==> r[k] == used[k]
  {
    if c.Some? then used[c.value := true] else used
  }

  /** The inner `segments.map(...)`: one cell per segment key, threading the pool. */
  function MatchSegments(keys: seq<string>, used: seq<bool>, segKeys: seq<Option<string>>)
    : (r: Run<seq<Option<nat>>>)
    requires |keys| == |used|
    ensures |r.cells| == |segKeys| && |r.used| == |used|
    decreases |segKeys|
  {
    if segKeys == [] then Run([], used)
    else
      var c := Pick(keys, used, segKeys[0]);
      var rest := MatchSegments(keys, Mark(used, c), segKeys[1..]);
      Run([c] + rest.cells, rest.used)
  }

  /** The outer `slots.map(...)`: one row of cells per slot, threading the pool. */
  function MatchSlots(keys: seq<string>, used: seq<bool>, slotKeys: seq<seq<Option<string>>>)
    : (r: Run<seq<seq<Option<nat>>>>)
    requires |keys| == |used|
    ensures |r.cells| == |slotKeys| && |r.used| == |used|
    ensures forall i :: 0 <= i < |r.cells| ==> |r.cells[i]| == |slotKeys[i]|
    decreases |slotKeys|
  {
    if slotKeys == [] then Run([], used)
    else
      var row := MatchSegments(keys, used, slotKeys[0]);
      var rest := MatchSlots(keys, row.used, slotKeys[1..]);
      Run([row.cells] + rest.cells, rest.used)
  }

  /** The pool indices `mapRosterEntriesToSlots(slots, rosterEntries)` binds. */
  function Assign(slots: JsList<RawSlot>, rosterEntries: JsList<RosterEntry>): (r: Run<seq<seq<Option<nat>>>>)
    requires AllMappable(slots)
    ensures |r.cells| == (if slots.Arr? then |slots.items| else 0)
    ensures forall i :: 0 <= i < |r.cells| ==> |r.cells[i]| == |SlotSegments(slots.items[i])|
  {
    var pool := Pool(rosterEntries);
    MatchSlots(PoolKeys(pool), AllFree(|pool|), SlotKeys(slots))
  }

  /** A bound pool index seen as the roster entry itself. */
  function Resolve(pool: seq<RosterEntry>, c: Option<nat>): Option<RosterEntry> {
    if c.Some? && c.value < |pool| then Some(pool[c.value]) else None
  }

  function ResolveRow(pool: seq<RosterEntry>, row: seq<Option<nat>>): seq<Option<RosterEntry>> {
    seq(|row|, j requires 0 <= j < |row| => Resolve(pool, row[j]))
  }

  function ResolveRows(pool: seq<RosterEntry>, rows: seq<seq<Option<nat>>>): seq<seq<Option<RosterEntry>>> {
    seq(|rows|, i requires 0 <= i < |rows| => ResolveRow(pool, rows[i]))
  }

  /** Resolving one more cell extends the resolved row by that cell. */
  lemma ResolveRowSnoc(pool: seq<RosterEntry>, row: seq<Option<nat>>, j: nat)
    requires j < |row|
    ensures ResolveRow(pool, row[..j + 1]) == ResolveRow(pool, row[..j]) + [Resolve(pool, row[j])]
  {
    assert row[..j + 1][j] == row[j];
  }

  /** Resolving one more row extends the resolved rows by that row. */
  lemma ResolveRowsSnoc(pool: seq<RosterEntry>, rows: seq<seq<Option<nat>>>, i: nat)
    requires i < |rows|
    ensures ResolveRows(pool, rows[..i + 1]) == ResolveRows(pool, rows[..i]) + [ResolveRow(pool, rows[i])]
  {
    assert rows[..i + 1][i] == rows[i];
  }

  /** One step of `MatchSegments` on a suffix. */
  lemma MatchSegmentsStep(keys: seq<string>, used: seq<bool>, segKeys: seq<Option<string>>, j: nat)
    requires |keys| == |used| && j < |segKeys|
    ensures var c := Pick(keys, used, segKeys[j]);
      var rest := MatchSegments(keys, Mark(used, c), segKeys[j + 1..]);
      MatchSegments(keys, used, segKeys[j..]) == Run([c] + rest.cells, rest.used)
  {
    assert segKeys[j..][0] == segKeys[j];
    assert segKeys[j..][1..] == segKeys[j + 1..];
  }

  /** One step of `MatchSegments` on a suffix, read off a run of the whole list. */
  lemma MatchSegmentsSuffix(keys: seq<string>, used: seq<bool>, segKeys: seq<Option<string>>,
                            whole: Run<seq<Option<nat>>>, j: nat)
    requires |keys| == |used| && j < |segKeys| == |whole.cells|
    requires MatchSegments(keys, used, segKeys[j..]) == Run(whole.cells[j..], whole.used)
    ensures var c := Pick(keys, used, segKeys[j]);
      && whole.cells[j] == c
      && MatchSegments(keys, Mark(used, c), segKeys[j + 1..]) == Run(whole.cells[j + 1..], whole.used)
  {
    var c := Pick(keys, used, segKeys[j]);
    var rest := MatchSegments(keys, Mark(used, c), segKeys[j + 1..]);
    MatchSegmentsStep(keys, used, segKeys, j);
    assert whole.cells[j..] == [c] + rest.cells;
    assert whole.cells[j..][0] == whole.cells[j];
    assert whole.cells[j..][1..] == whole.cells[j + 1..];
  }

  /** One step of `MatchSlots` on a suffix, read off a run of the whole list. */
  lemma MatchSlotsSuffix(keys: seq<string>, used: seq<bool>, slotKeys: seq<seq<Option<string>>>,
                         whole: Run<seq<seq<Option<nat>>>>, i: nat)
    requires |keys| == |used| && i < |slotKeys| == |whole.cells|
    requires MatchSlots(keys, used, slotKeys[i..]) == Run(whole.cells[i..], whole.used)
    ensures var row := MatchSegments(keys, used, slotKeys[i]);
      && whole.cells[i] == row.cells
      && MatchSlots(keys, row.used, slotKeys[i + 1..]) == Run(whole.cells[i + 1..], whole.used)
  {
    assert slotKeys[i..][0] == slotKeys[i];
    assert slotKeys[i..][1..] == slotKeys[i + 1..];
    var row := MatchSegments(keys, used, slotKeys[i]);
    var rest := MatchSlots(keys, row.used, slotKeys[i + 1..]);
    assert whole.cells[i..] == [row.cells] + rest.cells;
    assert whole.cells[i..][0] == whole.cells[i];
    assert whole.cells[i..][1..] == whole.cells[i + 1..];
  }

  /** `pool.findIndex(...)` as a loop over the `used` flags: the first
      eligible index, or -1. */
  method FindIndex(keys: seq<string>, used: array<bool>, want: Option<string>) returns (index: int)
    requires used.Length == |keys|
    ensures index == match FindFree(keys, used[..], want, 0) case None => -1 case Some(k) => k
  {
    index := 0;
    while index < used.Length
      invariant 0 <= index <= used.Length
      invariant FindFree(keys, used[..], want, 0) == FindFree(keys, used[..], want, index)
    {
      if !used[index] && (want.None? || keys[index] == want.value) {
        return;
      }
      index := index + 1;
    }
    index := -1;
  }

  /** The two `findIndex` calls of one segment: the same-start entry first,
      then any unused entry; -1 when every entry is used. */
  method PickIndex(keys: seq<string>, used: array<bool>, startKey: Option<string>) returns (matchIndex: int)
    requires used.Length == |keys|
    ensures matchIndex == match Pick(keys, used[..], startKey) case None => -1 case Some(k) => k
  {
    matchIndex := -1;
    if startKey.Some? {
      matchIndex := FindIndex(keys, used, startKey);
    }
    if matchIndex == -1 {
      matchIndex := FindIndex(keys, used, None);
    }
  }

  /** One slot's `segments.map(...)`: binds each segment in order and marks
      the entries it takes as used. */
  method MatchSlotSegments(pool: seq<RosterEntry>, keys: seq<string>, used: array<bool>,
                           segments: seq<RawSegment>)
    returns (out: seq<Option<RosterEntry>>)
    requires used.Length == |keys| == |pool|
    modifies used
    ensures var run := MatchSegments(keys, old(used[..]), SegmentKeys(segments));
      && out == ResolveRow(pool, run.cells)
      && used[..] == run.used
  {
    ghost var segKeys := SegmentKeys(segments);
    ghost var row := MatchSegments(keys, used[..], segKeys);
    out := [];
    var j := 0;
    while j < |segments|
      invariant 0 <= j <= |segments|
      invariant MatchSegments(keys, used[..], segKeys[j..]) == Run(row.cells[j..], row.used)
      invariant out == ResolveRow(pool, row.cells[..j])
    {
      var startKey := SegmentKey(segments[j]);
      ghost var before := used[..];
      ghost var c := Pick(keys, before, startKey);
      assert segKeys[j] == startKey;
      MatchSegmentsSuffix(keys, before, segKeys, row, j);
      ResolveRowSnoc(pool, row.cells, j);
      var matchIndex := PickIndex(keys, used, startKey);
      if matchIndex == -1 {
        assert c.None?;
        out := out + [None];
      } else {
        assert c == Some(matchIndex);
        used[matchIndex] := true;
        assert used[..] == Mark(before, c);
        out := out + [Some(pool[matchIndex])];
      }
      j := j + 1;
    }
    assert row.cells[..j] == row.cells;
    assert segKeys[j..] == [];
  }

  /** The outer `map` over the slots: one row of entries per row of
      segments, threading the `used` flags from slot to slot. */
  method MatchRows(pool: seq<RosterEntry>, keys: seq<string>, used: array<bool>, rows: seq<seq<RawSegment>>)
    returns (result: seq<seq<Option<RosterEntry>>>)
    requires used.Length == |keys| == |pool|
    modifies used
    ensures var run := MatchSlots(keys, old(used[..]), RowKeys(rows));
      && result == ResolveRows(pool, run.cells)
      && used[..] == run.used
  {
    ghost var rowKeys := RowKeys(rows);
    ghost var whole := MatchSlots(keys, used[..], rowKeys);
    result := [];
    var i := 0;
    while i < |rows|
      invariant 0 <= i <= |rows|
      invariant MatchSlots(keys, used[..], rowKeys[i..]) == Run(whole.cells[i..], whole.used)
      invariant result == ResolveRows(pool, whole.cells[..i])
    {
      ghost var row := MatchSegments(keys, used[..], rowKeys[i]);
      MatchSlotsSuffix(keys, used[..], rowKeys, whole, i);
      ResolveRowsSnoc(pool, whole.cells, i);
      var out := MatchSlotSegments(pool, keys, used, rows[i]);
      assert used[..] == row.used && out == ResolveRow(pool, row.cells);
      result := result + [out];
      i := i + 1;
    }
    assert whole.cells[..i] == whole.cells;
    assert rowKeys[i..] == [];
  }

  /** `mapRosterEntriesToSlots(slots, rosterEntries)`: one row per slot and one
      cell per segment, each the entry `Assign` binds there or nothing. */
  method MapRosterEntriesToSlots(slots: JsList<RawSlot>, rosterEntries: JsList<RosterEntry>)
    returns (result: seq<seq<Option<RosterEntry>>>)
    requires AllMappable(slots)
    ensures result == ResolveRows(Pool(rosterEntries), Assign(slots, rosterEntries).cells)
  {
    var pool := Pool(rosterEntries);
    var keys := PoolKeys(pool);
    var used := new bool[|pool|](_ => false);
    assert used[..] == AllFree(|pool|);
    result := MatchRows(pool, keys, used, SlotRows(slots));
  }
}
