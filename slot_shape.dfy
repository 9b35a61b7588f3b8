/** Slots and segments as the library stores them, and the normalisation
    (`normalizeSegments`, `withSegments`, `ensureSlotsArray`,
    `createSlotArray`) that every other operation goes through. */
module SlotShape {
  import opened Wrappers
  import opened JsValues

  /** A segment as the library hands it out: a missing time is `None`
      (the source's `null`) and the closing flag is a real boolean. */
  datatype Segment = Segment(start: Option<string>, end: Option<string>, endIsClosing: bool)

  /** A segment-like record as a caller may supply it. A missing or null
      time is `None`; the closing flag is whatever value was stored. An
      `undefined` list element behaves exactly as `{}`, which is
      `RawSegment(None, None, Undefined)`. */
  datatype RawSegment = RawSegment(start: Option<string>, end: Option<string>, endIsClosing: Value)

  /** The `segments` field of a slot-like record. */
  datatype SegmentsField =
    | NoSegments                          // null or missing: the legacy flat shape
    | SegmentList(items: seq<RawSegment>) // an array
    | NotAList(truthy: bool)              // any other value; only its truthiness matters

  /** A slot-like record as a caller may supply it: its `segments`, the
      legacy flat `start`/`end`/`end_is_closing`, and every other field.
      A JavaScript object holds each key once, so `extra` is understood never
      to hold the keys `segments`, `start`, `end` or `end_is_closing`. */
  datatype RawSlot = RawSlot(segments: SegmentsField, start: Option<string>, end: Option<string>,
                             endIsClosing: Value, extra: map<string, Value>)

  /** A slot as `withSegments` returns it; `extra` again excludes the named keys. */
  datatype Slot = Slot(segments: seq<Segment>, start: Option<string>, end: Option<string>,
                       endIsClosing: bool, extra: map<string, Value>)

  /** `DAY_SEGMENT_DEFAULT`. */
  const DefaultSegment := Segment(None, None, false)

  /** `{ segments: [DAY_SEGMENT_DEFAULT] }`, the record missing slots are built from. */
  const DefaultRawSlot := RawSlot(SegmentList([RawSegment(None, None, Bool(false))]), None, None, Undefined, map[])

  /** What `withSegments` makes of `DefaultRawSlot`. */
  const DefaultSlot := Slot([DefaultSegment], None, None, false, map[])

  /** A normalised slot: at least one segment, and the flat fields mirror the first one. */
  predicate Normalized(s: Slot) {
    && |s.segments| >= 1
    && s.start == s.segments[0].start
    && s.end == s.segments[0].end
    && s.endIsClosing == s.segments[0].endIsClosing
  }

  /** A normalised segment seen as a record again (`{ ...seg }`). */
  function SegmentToRaw(seg: Segment): RawSegment {
    RawSegment(seg.start, seg.end, Bool(seg.endIsClosing))
  }

  function SegmentsToRaw(segs: seq<Segment>): seq<RawSegment> {
    seq(|segs|, k requires 0 <= k < |segs| => SegmentToRaw(segs[k]))
  }

  /** A normalised slot passed back into the library as a record. */
  function SlotToRaw(s: Slot): RawSlot {
    RawSlot(SegmentList(SegmentsToRaw(s.segments)), s.start, s.end, Bool(s.endIsClosing), s.extra)
  }

  function SlotsToRaw(slots: seq<Slot>): seq<RawSlot> {
    seq(|slots|, k requires 0 <= k < |slots| => SlotToRaw(slots[k]))
  }

  /** The per-element defaulting of `normalizeSegments`: the times are kept
      and the flag is true exactly when the stored value is not falsy. */
  function NormalizeSegment(seg: RawSegment): (r: Segment)
    ensures r.start == seg.start && r.end == seg.end
    ensures r.endIsClosing <==> seg.endIsClosing !in {Undefined, Null, Bool(false), Num(0), Str("")}
  {
    Segment(seg.start, seg.end, Truthy(seg.endIsClosing))
  }

  /** `Boolean(seg.end_is_closing)` on values other than booleans: a number,
      a string or an object stored as the flag. */
  lemma FlagCoercion(start: Option<string>, end: Option<string>, id: nat)
    ensures NormalizeSegment(RawSegment(start, end, Null)).endIsClosing == false
    ensures NormalizeSegment(RawSegment(start, end, Num(0))).endIsClosing == false
    ensures NormalizeSegment(RawSegment(start, end, Num(1))).endIsClosing == true
    ensures NormalizeSegment(RawSegment(start, end, Str("false"))).endIsClosing == true
    ensures NormalizeSegment(RawSegment(start, end, Obj(id))).endIsClosing == true
  {
  }

  /** `normalizeSegments`: never empty; a non-array or an empty array gives one
      default segment, any other array keeps its length and its times (an
      `end` is kept even when the segment ends at closing) and coerces the flag. */
  function NormalizeSegments(raw: JsList<RawSegment>): (r: seq<Segment>)
    ensures |r| >= 1
    ensures raw.NotArray? || raw.items == [] ==> r == [DefaultSegment]
    ensures raw.Arr? && raw.items != [] ==>
      && |r| == |raw.items|
      && forall k :: 0 <= k < |r| ==>
           && r[k].start == raw.items[k].start
           && r[k].end == raw.items[k].end
           && r[k].endIsClosing == Truthy(raw.items[k].endIsClosing)
  {
    if raw.NotArray? || |raw.items| == 0 then [DefaultSegment]
    else seq(|raw.items|, k requires 0 <= k < |raw.items| => NormalizeSegment(raw.items[k]))
  }

  /** `slot?.segments ?? [slot]`: a legacy flat slot is read as its own only segment. */
  function SegmentsArgument(slot: RawSlot): (r: JsList<RawSegment>)
    ensures r.NotArray? <==> slot.segments.NotAList?
    ensures slot.segments.NoSegments? ==>
      && |r.items| == 1
      && r.items[0].start == slot.start && r.items[0].end == slot.end
      && r.items[0].endIsClosing == slot.endIsClosing
  {
    match slot.segments
    case NoSegments => Arr([RawSegment(slot.start, slot.end, slot.endIsClosing)])
    case SegmentList(items) => Arr(items)
    case NotAList(_) => NotArray
  }

  /** `withSegments`: a normalised slot whose flat fields are its first
      segment's; the fields other than those four are kept. */
  function WithSegments(slot: RawSlot): (r: Slot)
    ensures Normalized(r)
    ensures r.extra == slot.extra
    ensures slot.segments.NoSegments? ==>
      r.segments == [Segment(slot.start, slot.end, Truthy(slot.endIsClosing))]
    ensures slot.segments.NotAList? ==> r.segments == [DefaultSegment]
    ensures slot.segments.SegmentList? ==> r.segments == NormalizeSegments(Arr(slot.segments.items))
  {
    var segments := NormalizeSegments(SegmentsArgument(slot));
    var first := segments[0];
    Slot(segments, first.start, first.end, first.endIsClosing, slot.extra)
  }

  /** The normalised slots are exactly the slots `withSegments` leaves as they are. */
  lemma NormalizedIsFixpoint(s: Slot)
    ensures WithSegments(SlotToRaw(s)) == s <==> Normalized(s)
  {
    if Normalized(s) {
      var segments := NormalizeSegments(SegmentsArgument(SlotToRaw(s)));
      assert |segments| == |s.segments|;
      forall k | 0 <= k < |segments| ensures segments[k] == s.segments[k] {
        assert Truthy(Bool(s.segments[k].endIsClosing)) == s.segments[k].endIsClosing;
      }
      assert segments == s.segments;
    }
  }

  /** `withSegments` is idempotent. */
  lemma WithSegmentsIdempotent(slot: RawSlot)
    ensures WithSegments(SlotToRaw(WithSegments(slot))) == WithSegments(slot)
  {
    NormalizedIsFixpoint(WithSegments(slot));
  }

  lemma DefaultSlotIsNormalized()
    ensures WithSegments(DefaultRawSlot) == DefaultSlot
  {
    assert NormalizeSegments(Arr(DefaultRawSlot.segments.items)) == [DefaultSegment];
  }

  /** `ensureSlotsArray`: one normalised slot per element of an array, none otherwise. */
  function EnsureSlotsArray(slots: JsList<RawSlot>): (r: seq<Slot>)
    ensures |r| == if slots.Arr? then |slots.items| else 0
    ensures forall k :: 0 <= k < |r| ==> Normalized(r[k]) && r[k] == WithSegments(slots.items[k])
  {
    if slots.Arr? then seq(|slots.items|, k requires 0 <= k < |slots.items| => WithSegments(slots.items[k]))
    else []
  }

  /** Feeding the output of `ensureSlotsArray` back in changes nothing. */
  lemma EnsureSlotsArrayIdempotent(slots: seq<Slot>)
    requires forall k :: 0 <= k < |slots| ==> Normalized(slots[k])
    ensures EnsureSlotsArray(Arr(SlotsToRaw(slots))) == slots
  {
    var r := EnsureSlotsArray(Arr(SlotsToRaw(slots)));
    forall k | 0 <= k < |slots| ensures r[k] == slots[k] {
      NormalizedIsFixpoint(slots[k]);
    }
  }

  /** `Array.from({ length: n })` clamps a negative length to zero. */
  function ClampLength(n: int): (r: nat)
    ensures n <= r && (r == n || r == 0)
  {
    if n > 0 then n else 0
  }

  /** `createSlotArray(rawSlots, requiredCount)`: the required count is used
      only when there are no raw slots (`ensured.length || requiredCount`). */
  function CreateSlotArray(rawSlots: JsList<RawSlot>, requiredCount: int): (r: seq<Slot>)
    ensures |r| == if rawSlots.Arr? && rawSlots.items != [] then |rawSlots.items| else ClampLength(requiredCount)
    ensures forall k :: 0 <= k < |r| ==> Normalized(r[k])
  {
    var ensured := EnsureSlotsArray(rawSlots);
    var total := if |ensured| > 0 then |ensured| else ClampLength(requiredCount);
    seq(total, idx requires 0 <= idx < total => FilledSlot(ensured, idx))
  }

  /** `withSegments(ensured[idx] || { segments: [DAY_SEGMENT_DEFAULT] })`:
      an existing normalised slot comes back as it is, a missing one is the
      default slot. */
  function FilledSlot(ensured: seq<Slot>, idx: nat): (s: Slot)
    ensures Normalized(s)
    ensures idx < |ensured| && Normalized(ensured[idx]) ==> s == ensured[idx]
    ensures idx >= |ensured| ==> s == DefaultSlot
  {
    if idx < |ensured| then
      NormalizedIsFixpoint(ensured[idx]);
      WithSegments(SlotToRaw(ensured[idx]))
    else
      DefaultSlotIsNormalized();
      WithSegments(DefaultRawSlot)
  }

  /** Raw slots are normalised in place and never padded or truncated; with
      none, the result is `requiredCount` default slots. */
  lemma CreateSlotArrayContents(rawSlots: JsList<RawSlot>, requiredCount: int)
    ensures var r := CreateSlotArray(rawSlots, requiredCount);
      && (rawSlots.Arr? && rawSlots.items != [] ==>
            forall k :: 0 <= k < |r| ==> r[k] == WithSegments(rawSlots.items[k]))
      && (rawSlots.NotArray? || rawSlots.items == [] ==>
            forall k :: 0 <= k < |r| ==> r[k] == DefaultSlot)
  {
    var r := CreateSlotArray(rawSlots, requiredCount);
    var ensured := EnsureSlotsArray(rawSlots);
    DefaultSlotIsNormalized();
    forall k | 0 <= k < |r| && k < |ensured| ensures r[k] == ensured[k] {
      NormalizedIsFixpoint(ensured[k]);
    }
  }

  /** `createSlotArray` is idempotent for a fixed required count. */
  lemma CreateSlotArrayIdempotent(rawSlots: JsList<RawSlot>, requiredCount: int)
    ensures var once := CreateSlotArray(rawSlots, requiredCount);
      CreateSlotArray(Arr(SlotsToRaw(once)), requiredCount) == once
  {
    var once := CreateSlotArray(rawSlots, requiredCount);
    var twice := CreateSlotArray(Arr(SlotsToRaw(once)), requiredCount);
    EnsureSlotsArrayIdempotent(once);
    if |once| > 0 {
      forall k | 0 <= k < |once| ensures twice[k] == once[k] {
        NormalizedIsFixpoint(once[k]);
      }
    }
  }

  /** One legacy flat slot and a larger required count give one slot, not a padded list. */
  lemma CreateSlotArrayIgnoresCount(start: string, end: string, requiredCount: int)
    ensures var legacy := RawSlot(NoSegments, Some(start), Some(end), Undefined, map[]);
      CreateSlotArray(Arr([legacy]), requiredCount)
        == [Slot([Segment(Some(start), Some(end), false)], Some(start), Some(end), false, map[])]
  {
    var legacy := RawSlot(NoSegments, Some(start), Some(end), Undefined, map[]);
    var r := CreateSlotArray(Arr([legacy]), requiredCount);
    CreateSlotArrayContents(Arr([legacy]), requiredCount);
    assert r[0] == WithSegments(legacy);
  }
}
