# Slot utilities of the roster planner, in Dafny

The roster planner describes each weekday's staffing requirement as a list of
*slots*. A slot is one person's shift and is made of one or more *segments*,
each with a start, an end and an "ends at closing" flag (a split shift has two
segments). Older records store a slot flat, as a single `start`/`end`/
`end_is_closing` without a `segments` list. The library `src/lib/slot-utils.js`
is the one place that understands both shapes. This project models all of it:

- **Normalisation** (`slot_shape.dfy`): `normalizeSegments`, `withSegments`,
  `ensureSlotsArray` and `createSlotArray`, as functions over a model of the
  JavaScript values they accept (`RawSlot`, `RawSegment`, `JsList`) and the
  normalised values they return (`Slot`, `Segment`).
- **Copy-on-write editing** (`slot_editing.dfy`): `updateSlotSegments`,
  `addSegment` and `removeSegment`, as methods with the source's padding loops.
  Each returns a new list and states the whole new list.
- **Display** (`slot_display.dfy`): `formatSegmentsForDisplay`, together with
  the split at `" / "` that recovers one piece per segment.
- **Duration** (`slot_duration.dfy`): `slotSegmentsDurationMinutes`. The
  caller's time parser is a parameter.
- **Roster matching** (`roster_matcher.dfy`, `matcher_properties.dfy`):
  `mapRosterEntriesToSlots`. It is specified by functions that thread the pool's
  `used` flags through the slots and segments. It is implemented as a method
  that updates a `used: array<bool>` inside loops that model `findIndex`. The
  second file proves what the greedy pass guarantees.

`wrappers.dfy` holds `Option`. `js_values.dfy` holds the JavaScript rules the
library relies on: truthiness, `Array.isArray`, and `slice(0, 5)`.

In these places the model follows the code, which works differently from what
a reader might expect:

- `createSlotArray` computes its length as `ensured.length || requiredCount`.
  Raw slots are therefore never padded or truncated to the required count.
  `CreateSlotArrayIgnoresCount` shows this.
- The matcher does not first look for exact-start matches across all segments.
  It walks the segments in order, and any segment takes the first free entry
  when no entry with its start is free. With a single entry, the first segment
  takes it whatever its start (`AssignSingleEntry`).
- The matcher reads `slot.segments` as given and does not normalise the slot.
  A flat legacy slot therefore gets an empty row.
- `normalizeSegments` keeps `end` even when the segment ends at closing.

## Model

| member | source | states |
|---|---|---|
| JsValues.Truthy | src/lib/slot-utils.js:19 | `Boolean(v)` is false exactly for `undefined`, `null`, `false`, `0` and `""`; every object is truthy |
| JsValues.Prefix5 | src/lib/slot-utils.js:94 | `slice(0, 5)` yields a prefix of the string of length min(length, 5) |
| SlotShape.NormalizeSegment | src/lib/slot-utils.js:16-20 | one element's defaulting keeps its start and end and sets the flag exactly when the stored value is not falsy |
| SlotShape.FlagCoercion | src/lib/slot-utils.js:19 | a `null` or `0` flag reads as false; `1`, the string `"false"` and an object read as true |
| SlotShape.NormalizeSegments | src/lib/slot-utils.js:7-21 | never empty; a non-array or empty list gives exactly one default segment; any other list keeps its length, start and end (even at closing) and coerces the flag with `Boolean` |
| SlotShape.SegmentsArgument | src/lib/slot-utils.js:24 | `slot?.segments ?? [slot]` is a non-array exactly when `segments` is a non-array value; a slot without `segments` is read as a one-element list holding its own start, end and flag |
| SlotShape.WithSegments | src/lib/slot-utils.js:23-33 | the result is normalised (at least one segment, flat fields equal to the first segment's); other fields are kept; a legacy flat slot becomes its own single segment; a non-list `segments` gives the default segment |
| SlotShape.NormalizedIsFixpoint | src/lib/slot-utils.js:23-33 | `withSegments` leaves a slot unchanged if and only if the slot is normalised |
| SlotShape.WithSegmentsIdempotent | src/lib/slot-utils.js:23-33 | applying `withSegments` twice equals applying it once |
| SlotShape.DefaultSlotIsNormalized | src/lib/slot-utils.js:55 | `withSegments({ segments: [DAY_SEGMENT_DEFAULT] })` is the one-default-segment slot |
| SlotShape.EnsureSlotsArray | src/lib/slot-utils.js:35-37 | one normalised slot per element of an array, equal to `withSegments` of it; nothing for a non-array |
| SlotShape.EnsureSlotsArrayIdempotent | src/lib/slot-utils.js:35-37 | feeding the normalised list back in returns it unchanged |
| SlotShape.CreateSlotArray | src/lib/slot-utils.js:39-50 | length is the raw count when raw slots are a non-empty array, otherwise the required count (clamped at 0); every element is normalised |
| SlotShape.ClampLength | src/lib/slot-utils.js:41-43 | the length `Array.from` gets is the least natural number not below the count: the count itself, or 0 for a negative count |
| SlotShape.FilledSlot | src/lib/slot-utils.js:43-48 | each position is normalised: an existing normalised slot comes back unchanged, a position past the end is the default slot |
| SlotShape.CreateSlotArrayContents | src/lib/slot-utils.js:39-50 | raw slots are normalised in place; with no raw slots every element is the default slot |
| SlotShape.CreateSlotArrayIdempotent | src/lib/slot-utils.js:39-50 | feeding the output back in with the same required count returns an equal list |
| SlotShape.CreateSlotArrayIgnoresCount | src/lib/slot-utils.js:41 | one legacy slot with any required count gives exactly that one slot, normalised |
| SlotEditing.Rebuild | src/lib/slot-utils.js:63 | `withSegments({ ...slot, segments })` normalises the slot again, normalises each edited segment in its place (an empty list gives the default segment) and keeps the other fields |
| SlotEditing.PadSlots | src/lib/slot-utils.js:54-56 | the padding loop yields max(length, index + 1) normalised slots: the originals followed by default slots |
| SlotEditing.UpdateSlotSegments | src/lib/slot-utils.js:52-65 | pads the list and the chosen slot; exactly segment `j` of slot `i` becomes the normalised updater result applied to the old (or default) segment; every other slot and segment is the normalised original; other slot fields are kept |
| SlotEditing.AddSegment | src/lib/slot-utils.js:67-77 | pads the list; slot `i`'s segments become the old ones plus one default segment at the end; every other slot is the normalised original |
| SlotEditing.Removes | src/lib/slot-utils.js:81-85 | deletion requires an existing slot and a segment index inside it; with both, it happens exactly when the segments left after removing `j` are not empty |
| SlotEditing.RemoveSegment | src/lib/slot-utils.js:79-88 | deletes segment `j` exactly when slot `i` exists, has two or more segments and `j` names one of them; otherwise returns the normalised list; the length is kept and no slot is left without segments |
| SlotEditing.AddThenRemoveLast | src/lib/slot-utils.js:67-88 | adding a segment to an existing slot and then removing its last segment gives back the normalised list |
| SlotDisplay.StartLabel | src/lib/slot-utils.js:94 | a missing start is labelled `--`; a present start is labelled by its first min(length, 5) characters |
| SlotDisplay.EndLabel | src/lib/slot-utils.js:95-100 | never empty; at closing, `closing` when the closing time is unknown and otherwise its first min(length, 5) characters; not at closing, `--` when the end is missing and otherwise the end's first min(length, 5) characters |
| SlotDisplay.Piece | src/lib/slot-utils.js:101 | a piece is the start label, then `" - "`, then the end label, and nothing else |
| SlotDisplay.Join | src/lib/slot-utils.js:103 | `join(" / ")` of no pieces is empty and of one piece is that piece; a joined string starts with the first piece and ends with the last |
| SlotDisplay.FormatSegmentsForDisplay | src/lib/slot-utils.js:90-104 | the display starts with the first segment's `"<start> - <end>"` piece, and is exactly that piece for a one-segment slot |
| SlotDisplay.SplitJoin | src/lib/slot-utils.js:103 | splitting a `" / "`-join of slash-free pieces at every `" / "` gives the pieces back |
| SlotDisplay.DisplayRoundTrip | src/lib/slot-utils.js:90-104 | the display string holds exactly one `"<start> - <end>"` piece per normalised segment, in order, when the times' five-character prefixes hold no `/` |
| SlotDisplay.DisplayExample | src/lib/slot-utils.js:90-104 | a split shift that ends at a 22:00 closing displays as `09:00 - 13:00 / 14:00 - 22:00` |
| SlotDisplay.DisplayPlaceholders | src/lib/slot-utils.js:94-100 | a missing start or end shows `--`; a closing end without a closing time shows `closing` |
| SlotDuration.EndMinutes | src/lib/slot-utils.js:113-119 | the end is unknown when the segment ends at closing and no closing time is given; otherwise it is the parsed closing time or the parsed end |
| SlotDuration.SegmentMinutes | src/lib/slot-utils.js:110-123 | a segment adds 0 when its start is missing or unparsed or its end is unknown; otherwise it adds the end minus the start when that difference is non-negative, and the difference plus 1440 when it is negative (so 00:00 to 24:00 adds 1440, not 0); the result always agrees with the difference modulo a day |
| SlotDuration.Reduce | src/lib/slot-utils.js:109-124 | the left fold from a running total equals that total plus the sum of the per-segment contributions |
| SlotDuration.SlotSegmentsDurationMinutes | src/lib/slot-utils.js:106-125 | a slot's duration is the sum of its normalised segments' contributions |
| SlotDuration.SegmentMinutesCases | src/lib/slot-utils.js:110-123 | with a time-of-day parser every segment adds less than a day, and a segment whose times parse adds exactly (end - start) mod 1440 |
| SlotDuration.SumMinutesBounds | src/lib/slot-utils.js:109-124 | with a time-of-day parser the sum lies between 0 and 1439 per segment |
| SlotDuration.SlotDurationBounds | src/lib/slot-utils.js:106-125 | a slot's duration lies between 0 and 1439 times its segment count |
| SlotDuration.WrapsAroundMidnight | src/lib/slot-utils.js:121-122 | 22:00 to 02:00 lasts 240 minutes |
| SlotDuration.ResolvesClosingTime | src/lib/slot-utils.js:114-116 | 09:00 to a 17:00 closing lasts 480 minutes, and 0 when the closing time is unknown |
| SlotDuration.EqualEndsGiveZero | src/lib/slot-utils.js:121-123 | an equal start and end give 0 minutes, not a full day |
| RosterMatcher.Pool | src/lib/slot-utils.js:128-134 | the pool holds the roster entries of an array, in order, and nothing for a non-array |
| RosterMatcher.PoolKey | src/lib/slot-utils.js:131 | an entry's key is `""` when it has no shift start, otherwise the prefix of its shift start of length min(length, 5) |
| RosterMatcher.SegmentKey | src/lib/slot-utils.js:139 | a segment has a key exactly when it has a start; the key is the prefix of the start of length min(length, 5) |
| RosterMatcher.SlotSegments | src/lib/slot-utils.js:137 | the segments the matcher reads from a slot are its own `segments` array, or no segments when `segments` is missing, `null` or another falsy value |
| RosterMatcher.SlotRows | src/lib/slot-utils.js:136-137 | one list of segments per slot of an array, none for a non-array |
| RosterMatcher.SlotKeys | src/lib/slot-utils.js:136-139 | one list of segment start keys per slot of an array, each the keys of that slot's own `segments`; none for a non-array |
| RosterMatcher.FindFree | src/lib/slot-utils.js:142-147 | `findIndex`: the first unused entry (with the wanted key, if one is given) at or after a position, or none when there is no such entry |
| RosterMatcher.Pick | src/lib/slot-utils.js:139-149 | the chosen entry is unused; nothing is chosen exactly when every entry is used |
| RosterMatcher.Mark | src/lib/slot-utils.js:150 | marking the chosen entry sets its flag and leaves every other flag as it was; no choice leaves all flags unchanged |
| RosterMatcher.MatchSegments | src/lib/slot-utils.js:138-152 | one cell per segment; the pool keeps its size |
| RosterMatcher.MatchSlots | src/lib/slot-utils.js:136-153 | one row per slot, one cell per segment key of that slot |
| RosterMatcher.Assign | src/lib/slot-utils.js:127-154 | one row per slot of an array (none otherwise), with one cell per element of that slot's `segments` |
| RosterMatcher.FindIndex | src/lib/slot-utils.js:142-148 | the loop returns the index `FindFree` specifies, or -1 |
| RosterMatcher.PickIndex | src/lib/slot-utils.js:139-148 | the two `findIndex` calls return the index `Pick` chooses, or -1 when every entry is used |
| RosterMatcher.MatchSlotSegments | src/lib/slot-utils.js:138-152 | one slot's loop returns the entries `MatchSegments` binds and leaves the `used` flags as it specifies |
| RosterMatcher.MatchRows | src/lib/slot-utils.js:136-153 | the loop over the slots returns the entries `MatchSlots` binds and leaves the `used` flags as it specifies |
| RosterMatcher.MapRosterEntriesToSlots | src/lib/slot-utils.js:127-154 | the result is, row by row and cell by cell, the entry `Assign` binds there or null |
| MatcherProperties.MatchSegmentsCount | src/lib/slot-utils.js:138-152 | a segment list binds min(segments, free entries) cells and uses exactly the entries it binds |
| MatcherProperties.MatchSegmentsSound | src/lib/slot-utils.js:138-152 | used entries stay used; every bound entry was free before and is used after; no entry is bound twice |
| MatcherProperties.MatchSegmentsAppend | src/lib/slot-utils.js:136-153 | matching a concatenation of segment lists is matching the first, then the second from the pool it leaves |
| MatcherProperties.MatchSlotsIsFlat | src/lib/slot-utils.js:136-153 | matching slot by slot equals matching the flattened segment list |
| MatcherProperties.MatchSegmentsAt | src/lib/slot-utils.js:138-152 | the cell of each position is the pick among the entries left free by the positions before it |
| MatcherProperties.AssignIsFlat | src/lib/slot-utils.js:136-153 | the flattened rows equal matching the segments in visiting order from an all-free pool |
| MatcherProperties.AssignAtMostOnce | src/lib/slot-utils.js:140-151 | every bound index names a roster entry, and no entry is bound at two positions |
| MatcherProperties.AssignCount | src/lib/slot-utils.js:127-154 | the number of non-null cells is min(total segments, roster entries) |
| MatcherProperties.AssignAt | src/lib/slot-utils.js:139-151 | each visited segment binds what `Pick` chooses given the entries used before it |
| MatcherProperties.AssignPrefersExactStart | src/lib/slot-utils.js:141-145 | when a free entry has the segment's five-character start, the segment binds the first free entry with that start |
| MatcherProperties.AssignFallsBack | src/lib/slot-utils.js:146-149 | with no free same-start entry (or no start), the segment binds the first free entry, and is null exactly when none is free |
| MatcherProperties.AssignEmptyOnlyWhenExhausted | src/lib/slot-utils.js:146-149 | a cell is null if and only if every entry is already used |
| MatcherProperties.AssignWithoutEntries | src/lib/slot-utils.js:128-134 | a roster list that is not an array leaves every cell null |
| MatcherProperties.AssignSingleEntry | src/lib/slot-utils.js:136-153 | with one entry, the first visited segment takes it whatever its start, and all later cells are null |
| MatcherProperties.LegacySlotGetsEmptyRow | src/lib/slot-utils.js:137 | a slot without a `segments` array (flat or `null`) gets an empty row |
| MatcherProperties.ExactStartExample | src/lib/slot-utils.js:127-154 | slots starting 09:00 and 13:00 against entries listed 13:00 then 09:00 bind the second entry and then the first |

## Left out

- In normalisation, editing, display and duration, a `null` slot or segment element makes the source throw a `TypeError` (a default parameter does not replace `null`). The model cannot represent one. An `undefined` element behaves like `{}` and is modelled that way.
- The matcher does not throw on a `null` slot or segment: it treats a `null` slot like a slot without `segments` (an empty row, `LegacySlotGetsEmptyRow`) and a `null` segment like a segment without a start (it takes the first free entry). The model expresses both through those equivalent shapes. A `null` or `undefined` roster entry, however, makes line 131 throw a `TypeError` when it reads `shift_start`; in the model every roster entry is a record.
- Time fields are strings or absent. Numbers or other values stored in `start`, `end` or `shift_start`, and the `String(...)` conversion of them, are not modelled.
- Slot and segment indices are natural numbers. Negative, fractional or `NaN` indices are not modelled.
- The concrete `parseTimeToMins` and its `NaN` cases are not part of this model. The parser is a parameter that returns a whole number of minutes or nothing.
- An object or array stored in a slot field is modelled as `Obj(id)`, an identity without contents. `{ ...slot }` copies such fields shallowly, so sharing between the input and the output is not captured.
- Numbers in fields are integers: fractional numbers and `NaN` (which is falsy) are not modelled.
- `slice(0, 5)` counts UTF-16 code units, while `Prefix5` counts Unicode scalar values. The two differ on text with characters outside the Basic Multilingual Plane, which the model does not capture.
- The editing operations work on value sequences, so "the input array is not mutated" holds by construction and is not a separate statement. In-place `push` and element assignment on the fresh copy are modelled as sequence updates.
- RosterMatcher.MapRosterEntriesToSlots: requires every slot's `segments` to be an array or falsy. A truthy non-array makes the source throw when it calls `.map`.
- The matcher returns the roster entries themselves. Object identity is not modelled; an entry is identified by its position in the pool.
- UI pages, PDF export, the HTTP routes, the database schema and the inline duplicates of the duration helper are not part of this model.
