/** Copy-on-write editing of a day's slot list: `updateSlotSegments`,
    `addSegment` and `removeSegment`. Each returns a new list; the caller's
    list is a value and is never changed. */
module SlotEditing {
  import opened Wrappers
  import opened JsValues
  import opened SlotShape

  function Max(a: int, b: int): int {
    if a >= b then a else b
  }

  /** Slot `k` of a list padded with default slots. */
  function PaddedSlot(slots: seq<Slot>, k: nat): Slot {
    if k < |slots| then slots[k] else DefaultSlot
  }

  /** Segment `m` of a segment list padded with default segments. */
  function PaddedSegment(segments: seq<Segment>, m: nat): Segment {
    if m < |segments| then segments[m] else DefaultSegment
  }

  /** Two normalised slots with the same segments and other fields are equal. */
  lemma NormalizedSlotsEqual(a: Slot, b: Slot)
    requires Normalized(a) && Normalized(b)
    requires a.segments == b.segments && a.extra == b.extra
    ensures a == b
  {
  }

  /** `withSegments({ ...slot, segments })` for a list of edited segments: the
      slot is normalised again, each segment is normalised in its place (an
      empty list gives the default segment), and the other fields are kept. */
  function Rebuild(slot: Slot, segments: seq<RawSegment>): (r: Slot)
    ensures Normalized(r) && r.extra == slot.extra
    ensures segments == [] ==> r.segments == [DefaultSegment]
    ensures segments != [] ==>
      && |r.segments| == |segments|
      && forall m :: 0 <= m < |segments| ==> r.segments[m] == NormalizeSegment(segments[m])
  {
    WithSegments(RawSlot(SegmentList(segments), slot.start, slot.end, Bool(slot.endIsClosing), slot.extra))
  }

  /** The `while (nextSlots.length <= slotIndex) push(default)` loop shared by
      `updateSlotSegments` and `addSegment`. */
  method PadSlots(slots: seq<Slot>, slotIndex: nat) returns (next: seq<Slot>)
    requires forall k :: 0 <= k < |slots| ==> Normalized(slots[k])
    ensures |next| == Max(|slots|, slotIndex + 1)
    ensures forall k :: 0 <= k < |next| ==> next[k] == PaddedSlot(slots, k) && Normalized(next[k])
  {
    next := slots;
    DefaultSlotIsNormalized();
    while |next| <= slotIndex
      invariant |slots| <= |next| <= Max(|slots|, slotIndex + 1)
      invariant forall k :: 0 <= k < |next| ==> next[k] == PaddedSlot(slots, k)
    {
      next := next + [WithSegments(DefaultRawSlot)];
    }
  }

  /** `updateSlotSegments(slots, slotIndex, segmentIndex, updater)`: pads the
      list to `slotIndex + 1` slots and that slot to `segmentIndex + 1`
      segments, then replaces segment `segmentIndex` by the normalised result
      of `updater`; every other slot and segment is the normalised original. */
  method UpdateSlotSegments(slots: JsList<RawSlot>, slotIndex: nat, segmentIndex: nat,
                            updater: Segment -> RawSegment)
    returns (next: seq<Slot>)
    ensures var before := EnsureSlotsArray(slots);
      && |next| == Max(|before|, slotIndex + 1)
      && (forall k :: 0 <= k < |next| ==> Normalized(next[k]))
      && (forall k :: 0 <= k < |next| && k != slotIndex ==> next[k] == PaddedSlot(before, k))
    ensures var prior := PaddedSlot(EnsureSlotsArray(slots), slotIndex);
      && slotIndex < |next|
      && next[slotIndex].extra == prior.extra
      && |next[slotIndex].segments| == Max(|prior.segments|, segmentIndex + 1)
      && next[slotIndex].segments[segmentIndex]
           == NormalizeSegment(updater(PaddedSegment(prior.segments, segmentIndex)))
      && forall m :: 0 <= m < |next[slotIndex].segments| && m != segmentIndex ==>
           next[slotIndex].segments[m] == PaddedSegment(prior.segments, m)
  {
    var nextSlots := EnsureSlotsArray(slots);
    nextSlots := PadSlots(nextSlots, slotIndex);
    var slot := WithSegments(SlotToRaw(nextSlots[slotIndex]));
    NormalizedIsFixpoint(nextSlots[slotIndex]);
    var segments := slot.segments;
    while |segments| <= segmentIndex
      invariant |slot.segments| <= |segments| <= Max(|slot.segments|, segmentIndex + 1)
      invariant forall m :: 0 <= m < |segments| ==> segments[m] == PaddedSegment(slot.segments, m)
    {
      segments := segments + [DefaultSegment];
    }
    var edited := SegmentsToRaw(segments)[segmentIndex := updater(segments[segmentIndex])];
    var updated := Rebuild(slot, edited);
    assert |updated.segments| == |segments|;
    forall m | 0 <= m < |segments| && m != segmentIndex ensures updated.segments[m] == segments[m] {
      assert Truthy(Bool(segments[m].endIsClosing)) == segments[m].endIsClosing;
    }
    next := nextSlots[slotIndex := updated];
  }

  /** `addSegment(slots, slotIndex)`: pads the list to `slotIndex + 1` slots
      and appends one default segment to that slot; nothing else changes. */
  method AddSegment(slots: JsList<RawSlot>, slotIndex: nat) returns (next: seq<Slot>)
    ensures var before := EnsureSlotsArray(slots);
      && |next| == Max(|before|, slotIndex + 1)
      && (forall k :: 0 <= k < |next| ==> Normalized(next[k]))
      && (forall k :: 0 <= k < |next| && k != slotIndex ==> next[k] == PaddedSlot(before, k))
    ensures var prior := PaddedSlot(EnsureSlotsArray(slots), slotIndex);
      && slotIndex < |next|
      && next[slotIndex].segments == prior.segments + [DefaultSegment]
      && next[slotIndex].extra == prior.extra
  {
    var nextSlots := EnsureSlotsArray(slots);
    nextSlots := PadSlots(nextSlots, slotIndex);
    var slot := WithSegments(SlotToRaw(nextSlots[slotIndex]));
    NormalizedIsFixpoint(nextSlots[slotIndex]);
    var segments := slot.segments + [DefaultSegment];
    var updated := Rebuild(slot, SegmentsToRaw(segments));
    assert |updated.segments| == |segments|;
    forall m | 0 <= m < |segments| ensures updated.segments[m] == segments[m] {
      assert Truthy(Bool(segments[m].endIsClosing)) == segments[m].endIsClosing;
    }
    next := nextSlots[slotIndex := updated];
  }

  /** The condition under which `removeSegment` deletes a segment: the slot
      exists, has at least two segments, and `segmentIndex` names one of them
      (`splice` past the end deletes nothing). */
  predicate Removes(before: seq<Slot>, slotIndex: nat, segmentIndex: nat)
    ensures Removes(before, slotIndex, segmentIndex) ==>
      slotIndex < |before| && segmentIndex < |before[slotIndex].segments|
    ensures slotIndex < |before| && segmentIndex < |before[slotIndex].segments| ==>
      var segments := before[slotIndex].segments;
      (Removes(before, slotIndex, segmentIndex) <==> |segments[..segmentIndex] + segments[segmentIndex + 1..]| >= 1)
  {
    slotIndex < |before| && |before[slotIndex].segments| >= 2 && segmentIndex < |before[slotIndex].segments|
  }

  /** `removeSegment(slots, slotIndex, segmentIndex)`: deletes one segment of
      one slot, but never a slot's last segment; otherwise the normalised
      list comes back unchanged. No slot is ever left without segments. */
  method RemoveSegment(slots: JsList<RawSlot>, slotIndex: nat, segmentIndex: nat) returns (next: seq<Slot>)
    ensures var before := EnsureSlotsArray(slots);
      && |next| == |before|
      && (forall k :: 0 <= k < |next| ==> Normalized(next[k]))
      && (forall k :: 0 <= k < |next| && k != slotIndex ==> next[k] == before[k])
      && (!Removes(before, slotIndex, segmentIndex) ==> next == before)
    ensures var before := EnsureSlotsArray(slots);
      Removes(before, slotIndex, segmentIndex) ==>
        && next[slotIndex].segments
             == before[slotIndex].segments[..segmentIndex] + before[slotIndex].segments[segmentIndex + 1..]
        && next[slotIndex].extra == before[slotIndex].extra
  {
    var nextSlots := EnsureSlotsArray(slots);
    if slotIndex >= |nextSlots| {
      return nextSlots;
    }
    var slot := WithSegments(SlotToRaw(nextSlots[slotIndex]));
    NormalizedIsFixpoint(nextSlots[slotIndex]);
    var segments := slot.segments;
    if |segments| <= 1 {
      return nextSlots;
    }
    if segmentIndex < |segments| {
      segments := segments[..segmentIndex] + segments[segmentIndex + 1..];
    }
    var updated := Rebuild(slot, SegmentsToRaw(segments));
    assert |updated.segments| == |segments|;
    forall m | 0 <= m < |segments| ensures updated.segments[m] == segments[m] {
      assert Truthy(Bool(segments[m].endIsClosing)) == segments[m].endIsClosing;
    }
    if segmentIndex >= |slot.segments| {
      NormalizedSlotsEqual(updated, slot);
    }
    next := nextSlots[slotIndex := updated];
  }

  /** Adding a segment to an existing slot and then removing that slot's last
      segment gives back the normalised list. */
  method AddThenRemoveLast(slots: JsList<RawSlot>, slotIndex: nat) returns (next: seq<Slot>)
    requires slots.Arr? && slotIndex < |slots.items|
    ensures next == EnsureSlotsArray(slots)
  {
    var before := EnsureSlotsArray(slots);
    var added := AddSegment(slots, slotIndex);
    EnsureSlotsArrayIdempotent(added);
    var last := |added[slotIndex].segments| - 1;
    next := RemoveSegment(Arr(SlotsToRaw(added)), slotIndex, last);
    assert added[slotIndex].segments[..last] == before[slotIndex].segments;
    NormalizedSlotsEqual(next[slotIndex], before[slotIndex]);
  }
}
