/** `parseVTT`: a scan over the trimmed lines of the content. Empty lines,
    `WEBVTT…` and `NOTE…` lines are skipped; a line holding a time range
    closes the cue being read (kept only if it has text) and opens the next;
    any other line is added to the text of the cue being read. A blank line
    does not close a cue. */
module VttParser {
  import opened Options
  import opened JsString
  import opened JsNumber
  import opened TimeCodec
  import opened TimePattern
  import opened Subtitles

  /** The scanner's variables: the cues pushed so far, `currentSubtitle`
      (`None` for `null`) and the `index` counter. */
  datatype Scan = Scan(cues: seq<Subtitle>, current: Option<Subtitle>, index: nat)

  /** The lines the scanner ignores. */
  predicate Skipped(line: string) {
    line == [] || StartsWith(line, "WEBVTT") || StartsWith(line, "NOTE")
  }

  /** A trimmed line the scanner reads as a time line. */
  predicate IsTimeLine(line: string) {
    !Skipped(line) && MatchTimeRange(line, '.').Some?
  }

  /** `if (currentSubtitle && currentSubtitle.text) subtitles.push(currentSubtitle)`. */
  function Emit(cues: seq<Subtitle>, current: Option<Subtitle>): seq<Subtitle> {
    if current.Some? && current.value.text != [] then cues + [current.value] else cues
  }

  /** A further text line: after a line break, or alone when the text is empty. */
  function AppendLine(text: string, line: string): string {
    if text != [] then text + "\n" + line else line
  }

  /** The cue a time line opens, with no text yet. */
  function OpenCue(line: string, index: nat, now: nat): Subtitle
    requires MatchTimeRange(line, '.').Some?
  {
    var m := MatchTimeRange(line, '.');
    MatchIsCodes(line, '.');
    Subtitle(ParserId(now, index), CodeTime(m.value.first, '.'), CodeTime(m.value.second, '.'), [], index)
  }

  /** One pass of the loop body on an already trimmed line. */
  function ScanLine(st: Scan, line: string, now: nat): Scan {
    if Skipped(line) then st
    else if MatchTimeRange(line, '.').Some? then
      Scan(Emit(st.cues, st.current), Some(OpenCue(line, st.index, now)), st.index + 1)
    else if st.current.Some? then
      Scan(st.cues, Some(st.current.value.(text := AppendLine(st.current.value.text, line))), st.index)
    else st
  }

  /** The state after the loop has run over `lines`. */
  function ScanLines(lines: seq<string>, now: nat): Scan
    decreases |lines|
  {
    if lines == [] then Scan([], None, 0)
    else
      var k := |lines| - 1;
      ScanLine(ScanLines(lines[..k], now), Trim(lines[k]), now)
  }

  /** What `parseVTT(content)` returns, `now` being what `Date.now()` returns during the call. */
  function VttCues(content: string, now: nat): seq<Subtitle> {
    var st := ScanLines(Split(content, '\n'), now);
    Emit(st.cues, st.current)
  }

  /** `parseVTT(content)`. */
  method ParseVtt(content: string, now: nat) returns (subtitles: seq<Subtitle>)
    ensures subtitles == VttCues(content, now)
  {
    var lines := Split(content, '\n');
    subtitles := [];
    var current: Option<Subtitle> := None;
    var index: nat := 0;
    var i := 0;
    while i < |lines|
      invariant 0 <= i <= |lines|
      invariant Scan(subtitles, current, index) == ScanLines(lines[..i], now)
    {
      var line := Trim(lines[i]);
      ghost var next := ScanLine(Scan(subtitles, current, index), line, now);
      if line == [] || StartsWith(line, "WEBVTT") || StartsWith(line, "NOTE") {
      } else {
        var timeMatch := MatchTimeRange(line, '.');
        if timeMatch.Some? {
          if current.Some? && current.value.text != [] {
            subtitles := subtitles + [current.value];
          }
          MatchIsCodes(line, '.');
          current := Some(Subtitle(ParserId(now, index), CodeTime(timeMatch.value.first, '.'),
                                   CodeTime(timeMatch.value.second, '.'), [], index));
          index := index + 1;
        } else if current.Some? && line != [] {
          var text := current.value.text;
          current := Some(current.value.(text := if text != [] then text + "\n" + line else line));
        }
      }
      assert Scan(subtitles, current, index) == next;
      ScanLinesStep(lines, i, now);
      i := i + 1;
    }
    assert lines[..i] == lines;
    if current.Some? && current.value.text != [] {
      subtitles := subtitles + [current.value];
    }
  }

  lemma ScanLinesStep(lines: seq<string>, i: nat, now: nat)
    requires i < |lines|
    ensures ScanLines(lines[..i + 1], now) == ScanLine(ScanLines(lines[..i], now), Trim(lines[i]), now)
  {
    assert lines[..i + 1][..i] == lines[..i];
  }

  /** How many of `lines`, once trimmed, are time lines. */
  function TimeLineCount(lines: seq<string>): nat
    decreases |lines|
  {
    if lines == [] then 0
    else
      var k := |lines| - 1;
      TimeLineCount(lines[..k]) + (if IsTimeLine(Trim(lines[k])) then 1 else 0)
  }

  /** Cues with text, each carrying the id of its index, the indices strictly
      increasing and below `bound`. */
  predicate Ordered(cues: seq<Subtitle>, now: nat, bound: int) {
    (forall i :: 0 <= i < |cues| ==>
       cues[i].text != [] && 0 <= cues[i].index < bound && cues[i].id == ParserId(now, cues[i].index))
    && (forall i, j :: 0 <= i < j < |cues| ==> cues[i].index < cues[j].index)
  }

  /** What the scanner keeps true: the cues pushed so far come before the cue
      being read, which carries the last index handed out; cues pushed and
      the cue being read are no more than the time lines seen. */
  predicate Good(st: Scan, now: nat) {
    (st.current.Some? ==>
       st.index >= 1 && st.current.value.index == st.index - 1
       && st.current.value.id == ParserId(now, st.index - 1))
    && Ordered(st.cues, now, if st.current.Some? then st.current.value.index else st.index)
    && |st.cues| + (if st.current.Some? then 1 else 0) <= st.index
  }

  /** Pushing the cue being read keeps the list ordered. */
  lemma EmitOrdered(cues: seq<Subtitle>, current: Option<Subtitle>, now: nat, bound: int)
    requires current.Some? ==> 0 <= current.value.index < bound && current.value.id == ParserId(now, current.value.index)
    requires Ordered(cues, now, if current.Some? then current.value.index else bound)
    ensures Ordered(Emit(cues, current), now, bound)
    ensures |Emit(cues, current)| <= |cues| + (if current.Some? then 1 else 0)
  {
  }

  /** One line keeps the scanner's invariant, and the counter counts time lines. */
  lemma ScanLineGood(st: Scan, line: string, now: nat)
    requires Good(st, now)
    ensures Good(ScanLine(st, line, now), now)
    ensures ScanLine(st, line, now).index == st.index + (if IsTimeLine(line) then 1 else 0)
  {
    if !Skipped(line) && MatchTimeRange(line, '.').Some? {
      EmitOrdered(st.cues, st.current, now, st.index);
    }
  }

  lemma {:induction false} ScanLinesGood(lines: seq<string>, now: nat)
    ensures Good(ScanLines(lines, now), now)
    ensures ScanLines(lines, now).index == TimeLineCount(lines)
    decreases |lines|
  {
    if lines != [] {
      var k := |lines| - 1;
      ScanLinesGood(lines[..k], now);
      ScanLineGood(ScanLines(lines[..k], now), Trim(lines[k]), now);
    }
  }

  /** Every cue `parseVTT` returns has text; indices strictly increase and
      stay below the number of time lines, which bounds the number of cues. */
  lemma VttCuesOrdered(content: string, now: nat)
    ensures var lines := Split(content, '\n');
      var cues := VttCues(content, now);
      Ordered(cues, now, TimeLineCount(lines)) && |cues| <= TimeLineCount(lines)
  {
    var lines := Split(content, '\n');
    var st := ScanLines(lines, now);
    ScanLinesGood(lines, now);
    EmitOrdered(st.cues, st.current, now, st.index);
  }

  /** The ids of one parse are pairwise distinct. */
  lemma VttIdsDistinct(content: string, now: nat)
    ensures var cues := VttCues(content, now);
      forall i, j :: 0 <= i < j < |cues| ==> cues[i].id != cues[j].id
  {
    var cues := VttCues(content, now);
    VttCuesOrdered(content, now);
    forall i, j | 0 <= i < j < |cues|
      ensures cues[i].id != cues[j].id
    {
      if cues[i].id == cues[j].id {
        ParserIdInjective(now, cues[i].index, cues[j].index);
      }
    }
  }

  /** Empty, `WEBVTT…` and `NOTE…` lines change nothing. */
  lemma SkippedLineIgnored(st: Scan, line: string, now: nat)
    requires Skipped(line)
    ensures ScanLine(st, line, now) == st
  {
  }

  /** A line that is neither skipped nor a time line joins the text of the
      cue being read, even after a blank line: a cue identifier written
      before the next time line ends up in the previous cue's text. */
  lemma OtherLineJoinsText(st: Scan, line: string, now: nat)
    requires !Skipped(line) && !IsTimeLine(line) && st.current.Some?
    ensures var next := ScanLine(st, line, now);
      next.cues == st.cues && next.index == st.index && next.current.Some?
      && next.current.value == st.current.value.(text := AppendLine(st.current.value.text, line))
  {
  }
}
