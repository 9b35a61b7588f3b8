/** `formatSegmentsForDisplay`: one `"<start> - <end>"` piece per segment,
    joined by `" / "`, and the splitting that recovers the pieces. */
module SlotDisplay {
  import opened Wrappers
  import opened JsValues
  import opened SlotShape

  const Separator := " / "

  /** The start side: the first five characters of the start, or `"--"`. */
  function StartLabel(seg: Segment): (r: string)
    ensures !Present(seg.start) ==> r == "--"
    ensures Present(seg.start) ==>
      r != "" && r <= seg.start.value && |r| == if |seg.start.value| < 5 then |seg.start.value| else 5
  {
    if Present(seg.start) then Prefix5(seg.start.value) else "--"
  }

  /** The end side: at closing, the closing time's first five characters or
      `"closing"` when it is unknown; otherwise the end's, or `"--"`. */
  function EndLabel(seg: Segment, closingTime: Option<string>): (r: string)
    ensures r != ""
    ensures seg.endIsClosing && !Present(closingTime) ==> r == "closing"
    ensures seg.endIsClosing && Present(closingTime) ==>
      r <= closingTime.value && |r| == if |closingTime.value| < 5 then |closingTime.value| else 5
    ensures !seg.endIsClosing && !Present(seg.end) ==> r == "--"
    ensures !seg.endIsClosing && Present(seg.end) ==>
      r <= seg.end.value && |r| == if |seg.end.value| < 5 then |seg.end.value| else 5
  {
    if seg.endIsClosing then
      if Present(closingTime) then Prefix5(closingTime.value) else "closing"
    else if Present(seg.end) then Prefix5(seg.end.value)
    else "--"
  }

  /** `${start} - ${endLabel}`: the start label, `" - "`, then the end label. */
  function Piece(seg: Segment, closingTime: Option<string>): (r: string)
    ensures var start, end := StartLabel(seg), EndLabel(seg, closingTime);
      && |r| == |start| + 3 + |end|
      && r[..|start|] == start
      && r[|start|..|start| + 3] == " - "
      && r[|start| + 3..] == end
  {
    StartLabel(seg) + " - " + EndLabel(seg, closingTime)
  }

  function Pieces(segments: seq<Segment>, closingTime: Option<string>): seq<string> {
    seq(|segments|, k requires 0 <= k < |segments| => Piece(segments[k], closingTime))
  }

  /** `Array.prototype.join(" / ")`. */
  function Join(pieces: seq<string>): (r: string)
    ensures |pieces| == 0 ==> r == ""
    ensures |pieces| == 1 ==> r == pieces[0]
    ensures |pieces| > 0 ==> pieces[0] <= r
    ensures |pieces| > 0 ==> var last := pieces[|pieces| - 1];
      |last| <= |r| && r[|r| - |last|..] == last
  {
    if |pieces| == 0 then ""
    else if |pieces| == 1 then pieces[0]
    else pieces[0] + Separator + Join(pieces[1..])
  }

  /** `formatSegmentsForDisplay(slot, closingTime)`: the display starts with
      the first segment's piece, and is just that piece for a one-segment slot. */
  function FormatSegmentsForDisplay(slot: RawSlot, closingTime: Option<string>): (r: string)
    ensures Piece(WithSegments(slot).segments[0], closingTime) <= r
    ensures |WithSegments(slot).segments| == 1 ==> r == Piece(WithSegments(slot).segments[0], closingTime)
  {
    Join(Pieces(WithSegments(slot).segments, closingTime))
  }

  predicate SeparatorAt(s: string, i: nat) {
    i + 3 <= |s| && s[i] == ' ' && s[i + 1] == '/' && s[i + 2] == ' '
  }

  /** The first `" / "` at or after `from`. */
  function FindSeparator(s: string, from: nat): (r: Option<nat>)
    requires from <= |s|
    ensures r.Some? ==> from <= r.value && SeparatorAt(s, r.value)
    ensures r.Some? ==> forall i :: from <= i < r.value ==> !SeparatorAt(s, i)
    ensures r.None? ==> forall i :: from <= i <= |s| ==> !SeparatorAt(s, i)
    decreases |s| - from
  {
    if from + 3 > |s| then None
    else if SeparatorAt(s, from) then Some(from)
    else FindSeparator(s, from + 1)
  }

  /** Splits a display string back into its pieces at every `" / "`. */
  function Split(s: string): seq<string>
    decreases |s|
  {
    match FindSeparator(s, 0)
    case None => [s]
    case Some(i) => [s[..i]] + Split(s[i + 3..])
  }

  /** A piece's labels hold no `/` when the five-character prefixes of the
      times involved hold none. */
  predicate SlashFree(t: Option<string>) {
    t.None? || '/' !in Prefix5(t.value)
  }

  lemma {:induction false} SplitJoin(pieces: seq<string>)
    requires pieces != []
    requires forall k :: 0 <= k < |pieces| ==> '/' !in pieces[k]
    ensures Split(Join(pieces)) == pieces
    decreases |pieces|
  {
    var p := pieces[0];
    if |pieces| == 1 {
      assert Join(pieces) == p;
      forall i | 0 <= i < |p| ensures p[i] != '/' {
        assert p[i] in p;
      }
      assert FindSeparator(p, 0).None?;
    } else {
      var s := Join(pieces);
      var rest := Join(pieces[1..]);
      assert s == p + Separator + rest;
      assert SeparatorAt(s, |p|);
      forall i | 0 <= i < |p| ensures !SeparatorAt(s, i) {
        if i + 1 < |p| {
          assert s[i + 1] == p[i + 1];
          assert p[i + 1] in p;
        } else {
          assert s[i + 1] == ' ';
        }
      }
      assert FindSeparator(s, 0) == Some(|p|);
      assert s[..|p|] == p;
      assert s[|p| + 3..] == rest;
      SplitJoin(pieces[1..]);
      assert pieces == [p] + pieces[1..];
    }
  }

  /** The display string holds one piece per segment: splitting it at
      `" / "` gives back each segment's `"<start> - <end>"`, provided the
      times' five-character prefixes contain no `/`. */
  lemma DisplayRoundTrip(slot: RawSlot, closingTime: Option<string>)
    requires SlashFree(closingTime)
    requires forall k :: 0 <= k < |WithSegments(slot).segments| ==>
      SlashFree(WithSegments(slot).segments[k].start) && SlashFree(WithSegments(slot).segments[k].end)
    ensures var segments := WithSegments(slot).segments;
      && Split(FormatSegmentsForDisplay(slot, closingTime)) == Pieces(segments, closingTime)
      && |Split(FormatSegmentsForDisplay(slot, closingTime))| == |segments|
  {
    var segments := WithSegments(slot).segments;
    var pieces := Pieces(segments, closingTime);
    forall k | 0 <= k < |pieces| ensures '/' !in pieces[k] {
      PieceSlashFree(segments[k], closingTime);
    }
    SplitJoin(pieces);
  }

  lemma PieceSlashFree(seg: Segment, closingTime: Option<string>)
    requires SlashFree(closingTime) && SlashFree(seg.start) && SlashFree(seg.end)
    ensures '/' !in Piece(seg, closingTime)
  {
    var start, end := StartLabel(seg), EndLabel(seg, closingTime);
    assert '/' !in start && '/' !in end && '/' !in " - ";
    assert Piece(seg, closingTime) == start + " - " + end;
  }

  /** The two-segment example: a split shift whose second part ends at closing. */
  lemma DisplayExample()
    ensures var slot := RawSlot(SegmentList([RawSegment(Some("09:00"), Some("13:00"), Undefined),
                                             RawSegment(Some("14:00"), None, Bool(true))]),
                                None, None, Undefined, map[]);
      FormatSegmentsForDisplay(slot, Some("22:00")) == "09:00 - 13:00 / 14:00 - 22:00"
  {
    var slot := RawSlot(SegmentList([RawSegment(Some("09:00"), Some("13:00"), Undefined),
                                     RawSegment(Some("14:00"), None, Bool(true))]),
                        None, None, Undefined, map[]);
    var segments := [Segment(Some("09:00"), Some("13:00"), false), Segment(Some("14:00"), None, true)];
    SplitShiftSegments();
    PieceExamples();
    var pieces := Pieces(segments, Some("22:00"));
    assert pieces[0] == "09:00 - 13:00" && pieces[1] == "14:00 - 22:00";
    assert pieces == ["09:00 - 13:00", "14:00 - 22:00"];
    FormatOf(slot, Some("22:00"), segments);
    JoinTwo("09:00 - 13:00", "14:00 - 22:00");
    ExampleText();
  }

  lemma ExampleText()
    ensures "09:00 - 13:00" + Separator + "14:00 - 22:00" == "09:00 - 13:00 / 14:00 - 22:00"
  {
  }

  lemma FormatOf(slot: RawSlot, closingTime: Option<string>, segments: seq<Segment>)
    requires WithSegments(slot).segments == segments
    ensures FormatSegmentsForDisplay(slot, closingTime) == Join(Pieces(segments, closingTime))
  {
  }

  /** The segments of the split shift of `DisplayExample`, normalised. */
  lemma SplitShiftSegments()
    ensures WithSegments(RawSlot(SegmentList([RawSegment(Some("09:00"), Some("13:00"), Undefined),
                                              RawSegment(Some("14:00"), None, Bool(true))]),
                                 None, None, Undefined, map[])).segments
      == [Segment(Some("09:00"), Some("13:00"), false), Segment(Some("14:00"), None, true)]
  {
  }

  lemma JoinTwo(a: string, b: string)
    ensures Join([a, b]) == a + Separator + b
  {
    assert [a, b][1..] == [b];
  }

  lemma PieceExamples()
    ensures Piece(Segment(Some("09:00"), Some("13:00"), false), Some("22:00")) == "09:00 - 13:00"
    ensures Piece(Segment(Some("14:00"), None, true), Some("22:00")) == "14:00 - 22:00"
  {
    assert Prefix5("09:00") == "09:00" && Prefix5("13:00") == "13:00";
    assert Prefix5("14:00") == "14:00" && Prefix5("22:00") == "22:00";
  }

  /** Without a known closing time, a closing end is labelled `"closing"`, and a
      missing start or end is labelled `"--"`. */
  lemma DisplayPlaceholders(end: string)
    ensures var slot := RawSlot(NoSegments, None, Some(end), Bool(true), map[]);
      FormatSegmentsForDisplay(slot, None) == "-- - closing"
    ensures FormatSegmentsForDisplay(RawSlot(NotAList(false), None, None, Undefined, map[]), Some("23:00"))
      == "-- - --"
  {
    var slot := RawSlot(NoSegments, None, Some(end), Bool(true), map[]);
    var seg := WithSegments(slot).segments[0];
    assert StartLabel(seg) == "--" && EndLabel(seg, None) == "closing";
    assert Piece(seg, None) == "--" + " - " + "closing" == "-- - closing";
    var other := RawSlot(NotAList(false), None, None, Undefined, map[]);
    assert WithSegments(other).segments == [DefaultSegment];
    assert StartLabel(DefaultSegment) == "--" && EndLabel(DefaultSegment, Some("23:00")) == "--";
    assert Piece(DefaultSegment, Some("23:00")) == "--" + " - " + "--" == "-- - --";
  }
}
