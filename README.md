# Subtitle engine — a Dafny model

This project models the core of a browser subtitle editor written in
TypeScript. It covers three parts.

- **The subtitle engine**, `src/lib/subtitle-utils.ts`:
  - the time codec: `formatTime`, `formatTimeVTT`, `formatTimeASS` and the lenient `parseTime`;
  - the SubRip parser (`parseSRT`), which splits the file into blocks at blank lines;
  - the WebVTT parser (`parseVTT`), a line-by-line scanner;
  - the three serializers `exportToSRT`, `exportToVTT`, `exportToASS`, and the dispatch `exportSubtitles`;
  - the overlap query `checkOverlap`.
- **The editing handlers** of `src/components/subtitle-editor/SubtitleEditor.tsx`: update, split, merge, delete, select / multi-select, bulk time offset, bulk find/replace and bulk reading speed. They act on the editor's cue list and its selection.
- **The catalogue query** of `src/api/media-api.ts`: `getAll` (filter by type, filter by title, paginate) and `search`, over the `MediaItem` union of `src/types/media.ts`.

Times are whole milliseconds (`int`). The source keeps seconds as floating-point numbers; a model time `t` stands for `t / 1000` seconds. JavaScript's `%` is the truncating `TruncRem`, and `Math.floor` of a division is Dafny's `/`.

`parseTime` returns `Option<int>`, where `None` stands for `NaN`. Regular expressions are modelled as the string functions they amount to:
- `/\n\s*\n/` in `split` becomes `SplitBlocks`;
- the time-range pattern in `match` becomes `MatchTimeRange`, a leftmost search;
- `/\n/g` in `replace` becomes `ReplaceAll`.

Modules, one per file:

- `Options`: `Option` and `Result`.
- `Lists`: `map`, with and without the index, and the relative positions of `slice` and `splice`.
- `JsString`: `trim`, `split`, `join`, `includes`, `padStart`, `toLowerCase`, `replace`, and `length` in UTF-16 code units.
- `JsNumber`: `String(n)`, `parseInt`, `parseFloat`, `%`.
- `TimeCodec`: the three time notations and `parseTime`.
- `TimePattern`: the time-range pattern.
- `Subtitles`: the `Subtitle` record, parser ids and `checkOverlap`.
- `SrtParser`: `parseSRT`, as a method with a loop, proved against `SrtCues`.
- `VttParser`: `parseVTT`, as a method with a loop, proved against `VttCues`.
- `Serializers`: the exporters.
- `SrtRoundTrip`: `parseSRT` of `exportToSRT`.
- `VttRoundTrip`: `parseVTT` of `exportToVTT`.
- `CueEdits`: the list transformations of the handlers.
- `Editor`: a class `SubtitleEditor` holding the state the handlers replace. Its methods are proved against the `CueEdits` functions.
- `Media`: the catalogue and its query.

## Where the code and the design description differ

The model follows the code in each of these cases.

- **SRT cue `index`.** `parseSRT` gives a cue the position of its block among all blocks, dropped blocks included (subtitle-utils.ts:36,52). The description says the position among emitted cues. So indices strictly increase but may skip values (`SrtCuesShape`).
- **VTT cue `index`.** `parseVTT` counts every time line, including cues later dropped for having no text (subtitle-utils.ts:83-90). The description says emission order (`VttCuesOrdered`).
- **VTT blank lines and identifiers.** A blank line does not close a VTT cue. A cue identifier line written before the next time line is appended to the previous cue's text (subtitle-utils.ts:72-74, 91-96). The description says blank lines end a cue and identifiers are ignored (`OtherLineJoinsText`).
- **Touching cues.** `checkOverlap` does not count touching endpoints as an overlap (subtitle-utils.ts:197-199). The description says touching counts (`TouchingDoesNotCollide`).
- **Renumbering.** Split and delete renumber cues by array position; only merge sorts by start time first (SubtitleEditor.tsx:160, 181-183, 194). The description says every mutation ranks cues by start time (`SplitPresent`, `DeleteSpec`, `MergeSpec`).
- **SRT round trip.** The description promises the round trip for non-overlapping cues with plain text. The code needs more: each text must be non-empty, trimmed and free of blank lines, and each time must be non-negative and below 100 hours. Otherwise the block splitter, the `trim` or the two-digit hour field changes the cue (`SrtRoundTrip`).
- **Split of an absent cue.** When the cue being split is not in the list, `findIndex` gives -1, and `splice(-1, 1, …)` replaces the last cue (SubtitleEditor.tsx:157-159; `SplitAbsent`).
- **VTT round trip.** The description does not promise one. The code gives each cue back when its times are non-negative and below 100 hours and every line of its text is non-empty, trimmed, does not start with `WEBVTT` or `NOTE`, and holds no time range. Any other text line is dropped, trimmed or read as a header, a note or a new cue (`VttRoundTrip`).
- **Bulk offset.** A large negative offset clamps the start to 0 but not the end, so a cue can end before it starts. `ShiftCanInvert` is a concrete example of this.

## Model

| member | source | states |
|---|---|---|
| TimeCodec.ClockLayout | src/lib/subtitle-utils.ts:3-19 | for t >= 0 the SRT and WebVTT notations end in three millisecond digits after the separator, two second digits and two minute digits after colons (each pair starting with 0 to 5), and start with at least two hour digits |
| TimeCodec.FormatTimeVttDiffersOnlyInSeparator | src/lib/subtitle-utils.ts:3-19 | `formatTime` and `formatTimeVTT` have the same length and the same characters except `,` versus `.` before the milliseconds |
| TimeCodec.FieldDigits | src/lib/subtitle-utils.ts:9 | `String(n).padStart(w, '0')` is digits denoting n, at least w of them, exactly 2 or 3 when n is below 100 or 1000 |
| TimeCodec.ParseTimeFields | src/lib/subtitle-utils.ts:21-30 | `parseTime` gives 0 unless the string holds exactly two colons; with two colons it reads the three fields split on `:` once the first comma is a period |
| TimeCodec.ParseClock | src/lib/subtitle-utils.ts:3-30 | `parseTime` inverts the shared clock layout with either separator on every non-negative time |
| TimeCodec.ParseFormatTime | src/lib/subtitle-utils.ts:3-30 | `parseTime(formatTime(t)) == t` for every non-negative millisecond time |
| TimeCodec.ParseFormatTimeVtt | src/lib/subtitle-utils.ts:12-30 | `parseTime(formatTimeVTT(t)) == t` for every non-negative millisecond time |
| TimeCodec.ParseFormatTimeAss | src/lib/subtitle-utils.ts:153-160 | `parseTime(formatTimeASS(t))` is t truncated to centiseconds: `Some(v)` for `v == t - t % 10` |
| JsNumber.ShowNatValue | src/lib/subtitle-utils.ts:9 | the decimal digits `String(n)` writes denote n |
| JsNumber.ShowNatInjective | src/lib/subtitle-utils.ts:48 | different numbers are written differently |
| JsNumber.ParseIntDigits | src/lib/subtitle-utils.ts:24-25 | `parseInt` of a non-empty digit string is the number it denotes |
| JsNumber.ParseFloatDecimal | src/lib/subtitle-utils.ts:26 | `parseFloat` of `w.f` is w seconds plus the first three digits of f as milliseconds |
| JsNumber.TruncRem | src/lib/subtitle-utils.ts:4-7 | JavaScript's `%` keeps the sign of the dividend: in [0, b) for a >= 0, in (-b, 0] otherwise |
| JsString.PadStartShape | src/lib/subtitle-utils.ts:9 | `padStart` puts fill characters in front of the string until the width is reached |
| JsString.SplitCount | src/lib/subtitle-utils.ts:22 | `split(c)` gives one more piece than there are separators |
| JsString.ReplaceFirstCount | src/lib/subtitle-utils.ts:22 | replacing the first comma by a period does not change the number of colons |
| JsString.JoinSplit | src/lib/subtitle-utils.ts:37 | joining the pieces of a split with the separator gives the string back |
| JsString.SplitJoin | src/lib/subtitle-utils.ts:37 | splitting a join of separator-free pieces gives the pieces back |
| JsString.TrimStartShape | src/lib/subtitle-utils.ts:34 | `trimStart` drops exactly the leading white space |
| JsString.TrimEndShape | src/lib/subtitle-utils.ts:34 | `trimEnd` drops exactly the trailing white space |
| JsString.Includes | src/components/subtitle-editor/SubtitleEditor.tsx:241 | `includes` holds exactly when the pattern occurs at some position |
| JsString.ReplaceAllLength | src/components/subtitle-editor/SubtitleEditor.tsx:245 | a global literal replace changes the length by the occurrence count times the length difference |
| JsString.ReplaceAllSelf | src/components/subtitle-editor/SubtitleEditor.tsx:245 | replacing a pattern by itself changes nothing |
| JsString.ReplaceAllAbsent | src/components/subtitle-editor/SubtitleEditor.tsx:245 | without an occurrence nothing is replaced |
| JsString.OccurrencesPresent | src/components/subtitle-editor/SubtitleEditor.tsx:241-245 | a text that includes the pattern has at least one occurrence to replace |
| JsString.ReplaceCharIsJoin | src/lib/subtitle-utils.ts:145 | replacing every line break is joining the lines with the replacement |
| JsString.LowerSpec | src/api/media-api.ts:88 | lower-casing keeps the length, maps each capital A-Z to its small letter, keeps every other character, leaves no capital A-Z, and is idempotent |
| JsString.Utf16LengthSpec | src/components/subtitle-editor/SubtitleEditor.tsx:258 | `length` counts each character once or twice: it equals the character count exactly when no character lies above U+FFFF, and exceeds it otherwise |
| JsString.Utf16LengthConcat | src/components/subtitle-editor/SubtitleEditor.tsx:258 | the `length` of a concatenation is the sum of the lengths |
| JsString.SplitConcat | src/lib/subtitle-utils.ts:63 | splitting at a separator between two strings gives the pieces of each side, in order |
| TimePattern.SearchLeftmost | src/lib/subtitle-utils.ts:40 | the search fails exactly when the pattern matches at no position, and otherwise reports the leftmost matching position |
| TimePattern.MatchAtComplete | src/lib/subtitle-utils.ts:40 | any way of matching at a position, whatever the white-space runs, gives the captures the search reports there |
| TimePattern.MatchTimeRangeSpans | src/lib/subtitle-utils.ts:40 | `match` succeeds exactly when some position and white-space runs fit the pattern |
| TimePattern.MatchIsCodes | src/lib/subtitle-utils.ts:40 | both captures are `dd:dd:dd` plus the separator plus `ddd` time codes |
| TimePattern.CodeTime | src/lib/subtitle-utils.ts:43-44 | a captured time code has a non-negative time, and `parseTime` reads exactly that time |
| TimePattern.CodeTimeOfClock | src/lib/subtitle-utils.ts:3-19 | below 100 hours the SRT or WebVTT notation of t is one time code, and it reads back as t |
| TimePattern.TimeLineMatches | src/lib/subtitle-utils.ts:40 | the `start --> end` line an exporter writes below 100 hours matches, capturing the two notations |
| Subtitles.ParserIdInjective | src/lib/subtitle-utils.ts:48 | within one parse, different indices give different ids |
| Subtitles.CheckOverlapSome | src/lib/subtitle-utils.ts:193-201 | `checkOverlap` holds exactly when some cue of the list collides with the given cue |
| Subtitles.CheckOverlapIgnoresSameId | src/lib/subtitle-utils.ts:196 | cues with the same id never count, so a list with no other id gives false |
| Subtitles.CollidesIsIntersection | src/lib/subtitle-utils.ts:197-199 | for cues with start < end, the three-way test is the half-open interval intersection `a.start < b.end && b.start < a.end` |
| Subtitles.CollidesSymmetric | src/lib/subtitle-utils.ts:197-199 | for such cues the test is symmetric |
| Subtitles.TouchingDoesNotCollide | src/lib/subtitle-utils.ts:197-199 | cues that only touch do not overlap, in either direction |
| Subtitles.CheckOverlapIntervals | src/lib/subtitle-utils.ts:193-201 | over cues with start < end, `checkOverlap` finds a cue of another id whose interval intersects |
| SrtParser.ParseSrt | src/lib/subtitle-utils.ts:32-59 | the loop over the blocks of the trimmed content returns exactly the cues the blocks read as, in block order |
| SrtParser.SrtCuesShape | src/lib/subtitle-utils.ts:36-56 | at most one cue per block; each cue carries its block's position as `index`, and is what that block reads as; indices strictly increase |
| SrtParser.SrtCuesComplete | src/lib/subtitle-utils.ts:36-56 | every block that reads as a cue contributes it to the result |
| SrtParser.SrtIdsDistinct | src/lib/subtitle-utils.ts:48 | the ids of one parse are pairwise distinct |
| SrtParser.BlockCueCondition | src/lib/subtitle-utils.ts:37-52 | a block gives a cue exactly when its trimmed lines number at least three and the pattern occurs in the second; the text is lines three on joined by line breaks, with that index and id |
| SrtParser.BlockCueTimes | src/lib/subtitle-utils.ts:40-44 | the cue's start and end are what `parseTime` reads from the two captured time codes |
| Serializers.ExportToSrtBlocks | src/lib/subtitle-utils.ts:106-114 | an empty list gives `""`; otherwise the blocks are separated by one blank line and the output ends in one line break |
| Serializers.SrtBlockNumbered | src/lib/subtitle-utils.ts:111 | block i starts with the number i + 1 on its own line, whatever the cue's stored `index` |
| Serializers.ExportToVttHeader | src/lib/subtitle-utils.ts:116-126 | every WebVTT export begins with `WEBVTT\n\n` |
| Serializers.EscapeBreaksLines | src/lib/subtitle-utils.ts:145 | the escaped text is the text's lines joined by `\N`, and it holds no line break |
| Serializers.AssEventIsOneLine | src/lib/subtitle-utils.ts:141-147 | a `Dialogue:` event holds no line break |
| Serializers.ExportToAssEvents | src/lib/subtitle-utils.ts:128-151 | the export is the fixed header, then one `Dialogue:` line per cue in order; an empty list gives the header alone |
| Serializers.ExportSubtitles | src/lib/subtitle-utils.ts:162-173 | any format other than VTT and ASS is exported as SRT |
| SrtRoundTrip.SplitBlocksJoin | src/lib/subtitle-utils.ts:34 | blocks that are trimmed and free of blank lines, joined by blank lines, split back into those blocks |
| SrtRoundTrip.BlockCueOfExport | src/lib/subtitle-utils.ts:37-52 | the block `exportToSRT` writes for a cue reads back as that cue, with the parser's id and index |
| SrtRoundTrip.SrtRoundTrip | src/lib/subtitle-utils.ts:32-114 | `parseSRT(exportToSRT(cues))` gives every cue back in order, with its times and text, when texts are trimmed, non-empty and free of blank lines and times are below 100 hours |
| VttParser.ParseVtt | src/lib/subtitle-utils.ts:61-104 | the loop over the trimmed lines returns exactly what the scan specification gives, the last cue included |
| VttParser.ScanLineGood | src/lib/subtitle-utils.ts:68-97 | one line keeps the scanner's invariant, and the counter grows exactly on time lines |
| VttParser.VttCuesOrdered | src/lib/subtitle-utils.ts:61-104 | every emitted cue has text; indices strictly increase and stay below the number of time lines, which bounds the cue count |
| VttParser.VttIdsDistinct | src/lib/subtitle-utils.ts:84 | the ids of one parse are pairwise distinct |
| VttParser.SkippedLineIgnored | src/lib/subtitle-utils.ts:72-74 | empty, `WEBVTT…` and `NOTE…` lines change nothing |
| VttParser.OtherLineJoinsText | src/lib/subtitle-utils.ts:91-96 | any other non-time line joins the text of the cue being read, even after a blank line |
| VttRoundTrip.ExportSplit | src/lib/subtitle-utils.ts:116-126 | the lines of a WebVTT export are `WEBVTT`, an empty line, then the lines of the entries joined by line breaks |
| VttRoundTrip.EntrySplit | src/lib/subtitle-utils.ts:119-123 | an entry's lines are its time line, its text's lines and an empty line |
| VttRoundTrip.TimeLineShape | src/lib/subtitle-utils.ts:120-122 | the exported time line below 100 hours is one trimmed line that `parseVTT` does not skip |
| VttRoundTrip.OpensCue | src/lib/subtitle-utils.ts:77-90 | that time line pushes the cue being read if it has text, and opens a cue with the exported times under the next index |
| VttRoundTrip.TextLinesJoin | src/lib/subtitle-utils.ts:91-96 | text lines are joined by line breaks onto the text of the cue being read |
| VttRoundTrip.ReadEntry | src/lib/subtitle-utils.ts:68-97 | the lines of one exported entry make the scanner read exactly that cue, with its times and text |
| VttRoundTrip.ScanLinesThen | src/lib/subtitle-utils.ts:68-97 | the loop over two runs of lines is the loop over the first, carried on over the second |
| VttRoundTrip.ReadEntries | src/lib/subtitle-utils.ts:61-104 | the lines of several entries add those cues to the result, in order, under consecutive indices |
| VttRoundTrip.EmptyVttExportReadsNothing | src/lib/subtitle-utils.ts:61-126 | the export of no cue reads back as no cue |
| VttRoundTrip.VttRoundTrip | src/lib/subtitle-utils.ts:61-126 | `parseVTT(exportToVTT(cues))` gives every cue back in order, with its times and text, when times are below 100 hours and every text line is non-empty, trimmed, not `WEBVTT…`/`NOTE…` and not a time range |
| CueEdits.ReindexSpec | src/components/subtitle-editor/SubtitleEditor.tsx:160 | renumbering keeps every cue in place and sets its `index` to its position |
| CueEdits.UpdateByIdSpec | src/components/subtitle-editor/SubtitleEditor.tsx:130-134 | every cue with the updated id becomes the update; the others stay |
| CueEdits.UpdateByIdIdempotent | src/components/subtitle-editor/SubtitleEditor.tsx:130-134 | updating twice with the same cue is updating once |
| CueEdits.UpdateByIdAbsent | src/components/subtitle-editor/SubtitleEditor.tsx:130-134 | an update whose id no cue carries changes nothing |
| CueEdits.FindIndexSpec | src/components/subtitle-editor/SubtitleEditor.tsx:157 | `findIndex` is -1 exactly when no cue has the id, and otherwise the first position with it |
| CueEdits.SplitRejected | src/components/subtitle-editor/SubtitleEditor.tsx:138-141 | a split time at or outside the cue's bounds leaves the list unchanged |
| CueEdits.SplitPresent | src/components/subtitle-editor/SubtitleEditor.tsx:143-160 | at the cue's position stand [start, t] and [t, end] with the fresh ids and the original text; the list grows by one; other cues change only in `index`, which is the position |
| CueEdits.SplitAbsent | src/components/subtitle-editor/SubtitleEditor.tsx:156-160 | when the cue is absent, `splice(-1, …)` replaces the last cue by the two halves |
| CueEdits.DropSpec | src/components/subtitle-editor/SubtitleEditor.tsx:193 | the filter keeps exactly the cues whose id is not removed, and drops as many as carry such an id |
| CueEdits.DropConcat | src/components/subtitle-editor/SubtitleEditor.tsx:193 | the filter keeps the relative order |
| CueEdits.DeleteSpec | src/components/subtitle-editor/SubtitleEditor.tsx:191-195 | delete removes exactly the cues with that id, keeps the others in order and numbers them by position |
| CueEdits.InsertByStartSpec | src/components/subtitle-editor/SubtitleEditor.tsx:182 | inserting into a sorted list keeps it sorted and adds exactly the cue |
| CueEdits.InsertByStartStable | src/components/subtitle-editor/SubtitleEditor.tsx:182 | the inserted cue goes after the cues with the same start time |
| CueEdits.SortByStartSpec | src/components/subtitle-editor/SubtitleEditor.tsx:182 | the sort gives a sorted permutation that keeps the order of cues with equal start times |
| CueEdits.MergeSpec | src/components/subtitle-editor/SubtitleEditor.tsx:168-184 | merge gives the merged cue (a's id and start, b's end, both texts) and the cues of neither id, stably sorted by start and numbered by position; with two distinct ids carried once each, the list shrinks by one |
| CueEdits.RemoveIdSpec | src/components/subtitle-editor/SubtitleEditor.tsx:207 | the filter drops exactly that id, adds no duplicate, and changes nothing when the id is absent |
| CueEdits.ToggleSpec | src/components/subtitle-editor/SubtitleEditor.tsx:203-212 | multi-select flips the membership of that id and of no other, and adds no duplicate |
| CueEdits.ToggleTwice | src/components/subtitle-editor/SubtitleEditor.tsx:203-212 | toggling twice restores the members, and restores the list itself when the id was not selected |
| CueEdits.ApplyOffsetSpec | src/components/subtitle-editor/SubtitleEditor.tsx:221-233 | selected cues move, start = max(0, start + offset) and end = end + offset; everything else stays |
| CueEdits.ApplyOffsetUndo | src/components/subtitle-editor/SubtitleEditor.tsx:221-233 | when no selected start passes below 0, the opposite offset restores the list |
| CueEdits.ShiftCanInvert | src/components/subtitle-editor/SubtitleEditor.tsx:227-228 | example: the end is not clamped, so the cue [1000, 2000] shifted by -3000 becomes [0, -1000] and ends before it starts |
| CueEdits.FindReplaceSpec | src/components/subtitle-editor/SubtitleEditor.tsx:237-250 | only selected cues that include `find` change, only in their text, where every occurrence is replaced; the count is at most the number of cues |
| CueEdits.ReplaceInSpec | src/components/subtitle-editor/SubtitleEditor.tsx:241-247 | one cue: a hit has every occurrence replaced and holds at least one; any other cue stays |
| CueEdits.HitCountBound | src/components/subtitle-editor/SubtitleEditor.tsx:238-242 | no more cues are counted than there are |
| CueEdits.FindReplaceSelf | src/components/subtitle-editor/SubtitleEditor.tsx:245 | replacing `find` by itself changes no cue |
| CueEdits.AdjustReadingSpeedSpec | src/components/subtitle-editor/SubtitleEditor.tsx:254-266 | selected cues last `text.length / cps` seconds, with `length` in UTF-16 code units, from an unchanged start, keeping text, id and index; other cues stay |
| CueEdits.RetimeCountsCodeUnits | src/components/subtitle-editor/SubtitleEditor.tsx:258 | example: an emoji is two code units, so at one character per second its cue lasts two seconds |
| CueEdits.AdjustReadingSpeedIdempotent | src/components/subtitle-editor/SubtitleEditor.tsx:254-266 | adjusting twice at the same speed is adjusting once |
| Editor.SubtitleEditor.constructor | src/components/subtitle-editor/SubtitleEditor.tsx:22-26 | the editor starts with no cues, no selection, no active cue and the playhead at 0 |
| Editor.SubtitleEditor.Update | src/components/subtitle-editor/SubtitleEditor.tsx:130-134 | the list becomes the update of the old list; the rest of the state stays |
| Editor.SubtitleEditor.Split | src/components/subtitle-editor/SubtitleEditor.tsx:136-166 | the split is accepted exactly when start < t < end; the list becomes the split of the old list, unchanged when refused |
| Editor.SubtitleEditor.Merge | src/components/subtitle-editor/SubtitleEditor.tsx:168-189 | the list becomes the merge of the old list |
| Editor.SubtitleEditor.Delete | src/components/subtitle-editor/SubtitleEditor.tsx:191-200 | the list becomes the deletion from the old list; the active cue is cleared when it is the one deleted |
| Editor.SubtitleEditor.Select | src/components/subtitle-editor/SubtitleEditor.tsx:202-219 | multi-select toggles the id; single select makes the selection exactly [id], the cue active and the playhead its start |
| Editor.SubtitleEditor.ApplyBulkOffset | src/components/subtitle-editor/SubtitleEditor.tsx:221-235 | the list becomes the offset of the old list over the selection |
| Editor.SubtitleEditor.BulkFindReplace | src/components/subtitle-editor/SubtitleEditor.tsx:237-252 | the loop's list is the find/replace of the old list, and `count` is the number of cues changed |
| Editor.SubtitleEditor.BulkAdjustReadingSpeed | src/components/subtitle-editor/SubtitleEditor.tsx:254-268 | the list becomes the reading-speed adjustment of the old list over the selection, durations counted in UTF-16 code units |
| Media.KeepTypeSpec | src/api/media-api.ts:82-84 | the type filter keeps exactly the items of that type |
| Media.KeepTypeConcat | src/api/media-api.ts:83 | the type filter keeps the catalogue order |
| Media.KeepTitleSpec | src/api/media-api.ts:87-92 | the title filter keeps exactly the items whose lower-cased title includes the lower-cased query |
| Media.KeepTitleConcat | src/api/media-api.ts:89-91 | the title filter keeps the catalogue order |
| Media.KeepTitleEmpty | src/api/media-api.ts:87 | an empty query filters nothing |
| Media.FilteredSpec | src/api/media-api.ts:79-92 | an item passes exactly when it is of the given type (if any) and its title matches the search (if any) |
| Media.QuerySpec | src/api/media-api.ts:94-98 | `total` counts the filtered items; for page >= 1 and limit >= 0 the items are the filtered ones from (page - 1) * limit on, at most `limit` of them |
| Media.SliceWindow | src/api/media-api.ts:96-98 | `slice(start, start + limit)` from a non-negative start is that window of the list, cut at its end |
| Media.TotalIgnoresPaging | src/api/media-api.ts:95 | `total` does not depend on the page or the limit |
| Media.GetAllDefault | src/api/media-api.ts:71-103 | example: with the defaults and no filter, `getAll` gives the whole catalogue of three items |
| Media.GetAllSeries | src/api/media-api.ts:82-84 | example: asking for series gives the one series of the catalogue |
| Media.SearchIsTitleFilter | src/api/media-api.ts:107-113 | `search(q)` is the title filter of `getAll` with no type, in catalogue order, for every q |

## Left out

- `downloadFile` (src/lib/subtitle-utils.ts:175-191) builds a Blob and a DOM link: browser I/O.
- `generateId` (src/lib/subtitle-utils.ts:203-205) uses the clock and `Math.random`. The split method takes the two fresh ids as parameters.
- The parsers call `Date.now()` once per cue. The model takes one clock reading `now` per parse, so ids of one parse differ only by index.
- Floating point: times are whole milliseconds. The `Math.floor((seconds % 1) * 1000)` artefacts of binary fractions are not modelled, nor are sub-millisecond times.
- `parseFloat` is read to the millisecond: a fraction's digits after the third are dropped. Exponents and `Infinity` are not modelled. `parseInt` reads decimal and `0x` hexadecimal digits after an optional sign.
- Reading speed: characters per second is a positive whole number, and the new duration is rounded down to the millisecond. The source allows fractional speeds and keeps the exact quotient.
- FindReplace: treats `find` as a literal string and inserts the replacement literally. The source builds a regular expression from `find`, so its special characters are not modelled. `String.prototype.replace` also expands `$&`, `$1`…`$99`, `$$`, `` $` `` and `$'` in the replacement; the model does not.
- FindReplaceSpec: states the literal replacement, without the `$` patterns of the replacement string (see `FindReplace` above).
- ReplaceInSpec: states the literal replacement, without the `$` patterns of the replacement string (see `FindReplace` above).
- BulkFindReplace: its result is `FindReplace`, so the `$` patterns of the replacement string are not expanded (see `FindReplace` above).
- The `count` of find/replace is a return value. In the source it is incremented inside a deferred state update.
- `AdjustReadingSpeed`, `FindReplace` and the methods using them require `cps > 0` and a non-empty `find`. The bulk-operations dialog only calls them so (src/components/subtitle-editor/BulkOperationsModal.tsx:46-58).
- Input is `\n`-separated: carriage returns are ordinary white space (trimmed where `trim` applies). Only ASCII letters are lower-cased.
- Page and limit are whole numbers. The source accepts any number.
- React plumbing is not modelled: hooks, toasts, keyboard shortcuts, the video element, file reading, the timeline and every other component.
- The `setTimeout`/`Promise` wrappers of the catalogue calls (src/api/media-api.ts:77-78, 101, 108-112) are not modelled, and neither are the network clients.
- ExportToAssEvents: states the header as a string but does not prove that it consists of the ten header lines. It proves the events part line by line.
