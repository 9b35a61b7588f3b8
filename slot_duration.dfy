/** `slotSegmentsDurationMinutes`: the minutes a slot covers, with closing
    times resolved and shifts that cross midnight wrapped. The time parser is
    supplied by the caller and is a parameter here. */
module SlotDuration {
  import opened Wrappers
  import opened JsValues
  import opened SlotShape

  /** The caller's `parseTimeToMins`. The library also hands it a null `end`,
      so its argument is optional; `None` as result stands for `null`/`undefined`. */
  type Parser = Option<string> -> Option<int>

  const MinutesPerDay := 24 * 60

  /** The end of a segment in minutes: the parsed closing time when the
      segment ends at closing (nothing when the closing time is unknown),
      else its parsed end. */
  function EndMinutes(seg: Segment, closingTime: Option<string>, parse: Parser): (r: Option<int>)
    ensures seg.endIsClosing && !Present(closingTime) ==> r.None?
    ensures !(seg.endIsClosing && !Present(closingTime)) ==>
      r == parse(if seg.endIsClosing then closingTime else seg.end)
  {
    if seg.endIsClosing then
      if Present(closingTime) then parse(closingTime) else None
    else parse(seg.end)
  }

  /** What one segment adds to the running total of the `reduce`: nothing
      when its start is missing or unparsed or its end is unknown; otherwise
      the difference from start to end, shifted by a day when it is negative,
      so that it agrees with the difference modulo a day. */
  function SegmentMinutes(seg: Segment, closingTime: Option<string>, parse: Parser): (r: int)
    ensures !Present(seg.start) || parse(seg.start).None? || EndMinutes(seg, closingTime, parse).None? ==> r == 0
    ensures Present(seg.start) && parse(seg.start).Some? && EndMinutes(seg, closingTime, parse).Some? ==>
      var diff := EndMinutes(seg, closingTime, parse).value - parse(seg.start).value;
      && r % MinutesPerDay == diff % MinutesPerDay
      && (-MinutesPerDay <= diff < MinutesPerDay ==> 0 <= r < MinutesPerDay)
      && (0 <= diff ==> r == diff)
      && (diff < 0 ==> r == diff + MinutesPerDay)
  {
    if !Present(seg.start) then 0
    else match parse(seg.start)
      case None => 0
      case Some(start) =>
        match EndMinutes(seg, closingTime, parse)
        case None => 0
        case Some(end) =>
          var diff := end - start;
          if diff < 0 then diff + MinutesPerDay else diff
  }

  /** The sum of the segments' contributions, as a reference for the fold. */
  function SumMinutes(segments: seq<Segment>, closingTime: Option<string>, parse: Parser): int
    decreases |segments|
  {
    if segments == [] then 0
    else SegmentMinutes(segments[0], closingTime, parse) + SumMinutes(segments[1..], closingTime, parse)
  }

  /** `segments.reduce((total, seg) => ..., total)`, left to right: the
      running total plus the sum of the contributions. */
  function Reduce(total: int, segments: seq<Segment>, closingTime: Option<string>, parse: Parser): (r: int)
    ensures r == total + SumMinutes(segments, closingTime, parse)
    decreases |segments|
  {
    if segments == [] then total
    else Reduce(total + SegmentMinutes(segments[0], closingTime, parse), segments[1..], closingTime, parse)
  }

  /** `slotSegmentsDurationMinutes(slot, closingTime, parseTimeToMins)`: the
      sum, over the slot's normalised segments, of what each contributes. */
  function SlotSegmentsDurationMinutes(slot: RawSlot, closingTime: Option<string>, parse: Parser): (r: int)
    ensures r == SumMinutes(WithSegments(slot).segments, closingTime, parse)
  {
    var segments := WithSegments(slot).segments;
    if |segments| == 0 then 0 else Reduce(0, segments, closingTime, parse)
  }

  /** A parser that only ever yields a time of day. */
  ghost predicate ParsesTimeOfDay(parse: Parser) {
    forall t :: parse(t).Some? ==> 0 <= parse(t).value < MinutesPerDay
  }

  /** With a time-of-day parser, a segment whose times all parse adds
      exactly `(end - start) mod 1440`, and every segment adds less than a day. */
  lemma SegmentMinutesCases(seg: Segment, closingTime: Option<string>, parse: Parser)
    requires ParsesTimeOfDay(parse)
    ensures var m := SegmentMinutes(seg, closingTime, parse);
      && 0 <= m < MinutesPerDay
      && (Present(seg.start) && parse(seg.start).Some? && EndMinutes(seg, closingTime, parse).Some? ==>
            m == (EndMinutes(seg, closingTime, parse).value - parse(seg.start).value) % MinutesPerDay)
  {
  }

  /** With a time-of-day parser, each segment adds at most 1439 minutes. */
  lemma {:induction false} SumMinutesBounds(segments: seq<Segment>, closingTime: Option<string>, parse: Parser)
    requires ParsesTimeOfDay(parse)
    ensures 0 <= SumMinutes(segments, closingTime, parse) <= (MinutesPerDay - 1) * |segments|
    decreases |segments|
  {
    if segments != [] {
      SegmentMinutesCases(segments[0], closingTime, parse);
      SumMinutesBounds(segments[1..], closingTime, parse);
    }
  }

  lemma SlotDurationBounds(slot: RawSlot, closingTime: Option<string>, parse: Parser)
    requires ParsesTimeOfDay(parse)
    ensures 0 <= SlotSegmentsDurationMinutes(slot, closingTime, parse)
              <= (MinutesPerDay - 1) * |WithSegments(slot).segments|
  {
    SumMinutesBounds(WithSegments(slot).segments, closingTime, parse);
  }

  /** A legacy flat slot `{ start, end, end_is_closing }`. */
  function FlatSlot(start: Option<string>, end: Option<string>, endIsClosing: bool): RawSlot {
    RawSlot(NoSegments, start, end, Bool(endIsClosing), map[])
  }

  /** A shift from 22:00 to 02:00 crosses midnight and lasts 240 minutes. */
  lemma WrapsAroundMidnight(parse: Parser)
    requires parse(Some("22:00")) == Some(1320) && parse(Some("02:00")) == Some(120)
    ensures SlotSegmentsDurationMinutes(FlatSlot(Some("22:00"), Some("02:00"), false), None, parse) == 240
  {
  }

  /** A shift from 09:00 to a 17:00 closing lasts 480 minutes; with the closing
      time unknown it counts for nothing. */
  lemma ResolvesClosingTime(parse: Parser)
    requires parse(Some("09:00")) == Some(540) && parse(Some("17:00")) == Some(1020)
    ensures SlotSegmentsDurationMinutes(FlatSlot(Some("09:00"), None, true), Some("17:00"), parse) == 480
    ensures SlotSegmentsDurationMinutes(FlatSlot(Some("09:00"), None, true), None, parse) == 0
  {
  }

  /** Equal start and end mean an empty shift, not a full day. */
  lemma EqualEndsGiveZero(t: string, parse: Parser)
    requires t != "" && parse(Some(t)).Some?
    ensures SlotSegmentsDurationMinutes(FlatSlot(Some(t), Some(t), false), None, parse) == 0
  {
  }
}
