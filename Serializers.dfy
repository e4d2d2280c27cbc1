/** The three exporters of `src/lib/subtitle-utils.ts` and the dispatch
    between them: `exportToSRT`, `exportToVTT`, `exportToASS` and
    `exportSubtitles`. */
module Serializers {
  import opened JsString
  import opened JsNumber
  import opened TimeCodec
  import opened Subtitles
  import opened Lists

  /** Three lines joined by line breaks (the third may hold more). */
  function ThreeLines(a: string, b: string, c: string): string {
    a + "\n" + b + "\n" + c
  }

  /** `start --> end`, both written with `sep` before the milliseconds. */
  function TimeLine(start: int, end: int, sep: char): string {
    Clock(start, sep) + " --> " + Clock(end, sep)
  }

  /** An SRT block without its final line break: the number, the time line
      and the text. `index` is the cue's position in the list. */
  function SrtCueBlock(sub: Subtitle, index: nat): string {
    ThreeLines(ShowNat(index + 1), TimeLine(sub.startTime, sub.endTime, ','), sub.text)
  }

  /** What the `map` callback of `exportToSRT` writes for the cue at `index`. */
  function SrtEntry(sub: Subtitle, index: nat): string {
    SrtCueBlock(sub, index) + "\n"
  }

  /** `exportToSRT(subtitles)`. */
  function ExportToSrt(subs: seq<Subtitle>): string {
    Join(MapIndexed(subs, SrtEntry, 0), "\n")
  }

  /** Joining lines that each end in a line break with line breaks is joining
      them with blank lines and ending with one line break. */
  lemma {:induction false} JoinTerminated<T>(xs: seq<T>, f: (T, nat) -> string, g: (T, nat) -> string, from: nat)
    requires xs != []
    requires forall x, n :: f(x, n) == g(x, n) + "\n"
    ensures Join(MapIndexed(xs, f, from), "\n") == Join(MapIndexed(xs, g, from), "\n\n") + "\n"
    decreases |xs|
  {
    if |xs| > 1 {
      JoinTerminated(xs[1..], f, g, from + 1);
      var b := g(xs[0], from);
      var rest := Join(MapIndexed(xs[1..], g, from + 1), "\n\n");
      assert Join(MapIndexed(xs, f, from), "\n") == (b + "\n") + "\n" + (rest + "\n");
      assert Join(MapIndexed(xs, g, from), "\n\n") == b + "\n\n" + rest;
    }
  }

  /** The SRT output of a non-empty list is the blocks separated by one blank
      line, with a final line break; an empty list gives the empty string. */
  lemma ExportToSrtBlocks(subs: seq<Subtitle>)
    ensures subs == [] ==> ExportToSrt(subs) == []
    ensures subs != [] ==> ExportToSrt(subs) == Join(MapIndexed(subs, SrtCueBlock, 0), "\n\n") + "\n"
  {
    if subs != [] {
      JoinTerminated(subs, SrtEntry, SrtCueBlock, 0);
    }
  }

  /** Each SRT block starts with its position plus one, on a line of its own,
      whatever the cue's stored `index`. */
  lemma SrtBlockNumbered(subs: seq<Subtitle>, i: nat)
    requires i < |subs|
    ensures StartsWith(MapIndexed(subs, SrtCueBlock, 0)[i], ShowNat(i + 1) + "\n")
  {
    MapIndexedFromStart(subs, SrtCueBlock, i);
    SrtCueBlockStarts(subs[i], i);
  }

  lemma SrtCueBlockStarts(sub: Subtitle, index: nat)
    ensures StartsWith(SrtCueBlock(sub, index), ShowNat(index + 1) + "\n")
  {
    ThreeLinesStart(ShowNat(index + 1), TimeLine(sub.startTime, sub.endTime, ','), sub.text);
  }

  lemma ThreeLinesStart(a: string, b: string, c: string)
    ensures StartsWith(ThreeLines(a, b, c), a + "\n")
  {
    assert ThreeLines(a, b, c) == (a + "\n") + (b + "\n" + c);
  }

  /** One WebVTT cue: the time line and the text. */
  function VttEntry(sub: Subtitle): string {
    TimeLine(sub.startTime, sub.endTime, '.') + "\n" + sub.text + "\n"
  }

  const VttHeader := "WEBVTT\n\n"

  /** `exportToVTT(subtitles)`. */
  function ExportToVtt(subs: seq<Subtitle>): string {
    VttHeader + Join(Map(subs, VttEntry), "\n")
  }

  /** Every WebVTT export starts with the header line and a blank line. */
  lemma ExportToVttHeader(subs: seq<Subtitle>)
    ensures StartsWith(ExportToVtt(subs), "WEBVTT\n\n")
  {
    var out := ExportToVtt(subs);
    assert out[..|VttHeader|] == VttHeader;
  }

  /** The lines of the Advanced SubStation Alpha header `exportToASS` writes. */
  const AssHeaderLines: seq<string> := [
    "[Script Info]",
    "Title: Subtitle Export",
    "ScriptType: v4.00+",
    "",
    "[V4+ Styles]",
    "Format: Name, Fontname, Fontsize, PrimaryColour, SecondaryColour, OutlineColour, BackColour, Bold, Italic, Underline, StrikeOut, ScaleX, ScaleY, Spacing, Angle, BorderStyle, Outline, Shadow, Alignment, MarginL, MarginR, MarginV, Encoding",
    "Style: Default,Arial,20,&H00FFFFFF,&H000000FF,&H00000000,&H00000000,0,0,0,0,100,100,0,0,1,2,0,2,10,10,10,1",
    "",
    "[Events]",
    "Format: Layer, Start, End, Style, Name, MarginL, MarginR, MarginV, Effect, Text"
  ]

  /** The header, each of its lines ended by a line break. */
  const AssHeader: string := Join(AssHeaderLines, "\n") + "\n"

  /** `text.replace(/\n/g, '\\N')`: every line break becomes the two characters `\N`. */
  function EscapeBreaks(text: string): string {
    ReplaceAll(text, "\n", "\\N")
  }

  /** The escaped text is the text's lines joined by `\N`, so it holds no line break. */
  lemma EscapeBreaksLines(text: string)
    ensures EscapeBreaks(text) == Join(Split(text, '\n'), "\\N")
    ensures '\n' !in EscapeBreaks(text)
  {
    ReplaceCharIsJoin(text, '\n', "\\N");
    SplitPiecesFree(text, '\n');
    JoinFree(Split(text, '\n'), "\\N", '\n');
  }

  /** One `Dialogue:` event line. */
  function AssEvent(sub: Subtitle): string {
    "Dialogue: 0," + FormatTimeAss(sub.startTime) + "," + FormatTimeAss(sub.endTime)
      + ",Default,,0,0,0,," + EscapeBreaks(sub.text)
  }

  /** `exportToASS(subtitles)`. */
  function ExportToAss(subs: seq<Subtitle>): string {
    AssHeader + Join(Map(subs, AssEvent), "\n")
  }

  /** Neither a number nor a padded field holds a line break. */
  lemma FieldHasNoBreak(n: int, width: nat)
    ensures '\n' !in ShowInt(n) && '\n' !in Field(n, width)
  {
    var s := ShowInt(n);
    var d := if n < 0 then ShowNat(-n) else ShowNat(n);
    assert forall i :: 0 <= i < |d| ==> IsDigit(d[i]);
    assert '\n' !in s;
    PadStartShape(s, width, '0');
    var r := Field(n, width);
    forall i | 0 <= i < |r|
      ensures r[i] != '\n'
    {
      if i >= |r| - |s| {
        assert r[i] == r[|r| - |s|..][i - (|r| - |s|)];
      }
    }
  }

  /** An event is one line: no line break in the times, none left in the text. */
  lemma AssEventIsOneLine(sub: Subtitle)
    ensures '\n' !in AssEvent(sub)
  {
    AssTimeIsOneLine(sub.startTime);
    AssTimeIsOneLine(sub.endTime);
    EscapeBreaksLines(sub.text);
    DialogueIsOneLine(FormatTimeAss(sub.startTime), FormatTimeAss(sub.endTime), EscapeBreaks(sub.text));
  }

  lemma DialogueIsOneLine(a: string, b: string, e: string)
    requires '\n' !in a && '\n' !in b && '\n' !in e
    ensures '\n' !in "Dialogue: 0," + a + "," + b + ",Default,,0,0,0,," + e
  {
  }

  lemma AssTimeIsOneLine(t: int)
    ensures '\n' !in FormatTimeAss(t)
  {
    FieldHasNoBreak(t / MsPerHour, 2);
    FieldHasNoBreak(TruncRem(t, MsPerHour) / MsPerMinute, 2);
    FieldHasNoBreak(TruncRem(t, MsPerMinute) / MsPerSecond, 2);
    FieldHasNoBreak(TruncRem(t, MsPerSecond) / 10, 2);
  }

  /** An ASS export is the fixed header followed by the event lines: one
      line per cue, in order, each a `Dialogue:` event; no cue, no event. */
  lemma ExportToAssEvents(subs: seq<Subtitle>)
    ensures var out := ExportToAss(subs);
      |AssHeader| <= |out| && out[..|AssHeader|] == AssHeader
      && (subs == [] ==> out == AssHeader)
      && (subs != [] ==> Split(out[|AssHeader|..], '\n') == Map(subs, AssEvent))
  {
    var events := Map(subs, AssEvent);
    var out := ExportToAss(subs);
    assert out == AssHeader + Join(events, "\n");
    assert out[|AssHeader|..] == Join(events, "\n");
    if subs == [] {
      assert out == AssHeader + [];
      return;
    }
    forall i | 0 <= i < |events|
      ensures '\n' !in events[i]
    {
      MapAt(subs, AssEvent, i);
      AssEventIsOneLine(subs[i]);
    }
    SplitJoin(events, '\n');
  }

  /** `exportSubtitles(subtitles, format)`: the exporter the format names,
      and SubRip for any other format. */
  function ExportSubtitles(subs: seq<Subtitle>, format: string): (r: string)
    ensures format != "VTT" && format != "ASS" ==> r == ExportToSrt(subs)
  {
    if format == "SRT" then ExportToSrt(subs)
    else if format == "VTT" then ExportToVtt(subs)
    else if format == "ASS" then ExportToAss(subs)
    else ExportToSrt(subs)
  }
}
