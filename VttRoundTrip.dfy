/** Reading back what `exportToVTT` writes. For cues whose times lie below
    100 hours and each of whose text lines is one `parseVTT` adds to a cue
    unchanged, `parseVTT` applied to the export gives every cue back in
    order, with its times and its text, under the id and index the parser
    assigns. */
module VttRoundTrip {
  import opened Options
  import opened JsString
  import opened JsNumber
  import opened TimeCodec
  import opened TimePattern
  import opened Subtitles
  import opened Lists
  import opened VttParser
  import opened Serializers
  import SrtRoundTrip

  /** A line `parseVTT` adds to the text of a cue as it stands: not empty,
      trimmed, neither a line it skips (`WEBVTT…`, `NOTE…`) nor a time line. */
  predicate TextLine(line: string) {
    line != [] && !IsWs(line[0]) && !IsWs(line[|line| - 1])
    && !Skipped(line) && MatchTimeRange(line, '.').None?
  }

  /** A cue WebVTT carries without loss: both times below 100 hours and every
      line of its text a text line (so the text is not empty and holds no
      blank line). */
  predicate VttExportable(sub: Subtitle) {
    0 <= sub.startTime < HundredHours && 0 <= sub.endTime < HundredHours
    && forall k :: 0 <= k < |Split(sub.text, '\n')| ==> TextLine(Split(sub.text, '\n')[k])
  }

  /** The loop of `parseVTT` carried on from state `st` over further lines. */
  function ScanFrom(st: Scan, lines: seq<string>, now: nat): Scan
    decreases |lines|
  {
    if lines == [] then st else ScanFrom(ScanLine(st, Trim(lines[0]), now), lines[1..], now)
  }

  /** Scanning two runs of lines is scanning the first, then the second. */
  lemma {:induction false} ScanFromConcat(st: Scan, a: seq<string>, b: seq<string>, now: nat)
    ensures ScanFrom(st, a + b, now) == ScanFrom(ScanFrom(st, a, now), b, now)
    decreases |a|
  {
    if a == [] {
      assert a + b == b;
    } else {
      assert (a + b)[0] == a[0] && (a + b)[1..] == a[1..] + b;
      ScanFromConcat(ScanLine(st, Trim(a[0]), now), a[1..], b, now);
    }
  }

  /** The loop over `a + b` is the loop over `a` carried on over `b`. */
  lemma {:induction false} ScanLinesThen(a: seq<string>, b: seq<string>, now: nat)
    ensures ScanLines(a + b, now) == ScanFrom(ScanLines(a, now), b, now)
    decreases |b|
  {
    if b == [] {
      assert a + b == a;
    } else {
      var a' := a + [b[0]];
      assert a'[..|a|] == a && a'[|a|] == b[0];
      assert a' + b[1..] == a + b;
      ScanLinesThen(a', b[1..], now);
    }
  }

  /** The header `WEBVTT` and the blank line after it leave the scanner in
      its initial state. */
  lemma HeaderSkipped(now: nat)
    ensures ScanLines(["WEBVTT", []], now) == Scan([], None, 0)
  {
    var head: seq<string> := ["WEBVTT", []];
    TrimKeeps("WEBVTT");
    TrimKeeps([]);
    assert StartsWith("WEBVTT", "WEBVTT");
    assert head[..1] == ["WEBVTT"] && ["WEBVTT"][..0] == [];
  }

  /** Text lines fold into the cue being read: their join is added to what
      it holds, after a line break when it already holds text. */
  lemma {:induction false} TextLinesJoin(st: Scan, lines: seq<string>, now: nat)
    requires st.current.Some? && lines != []
    requires forall k :: 0 <= k < |lines| ==> TextLine(lines[k])
    ensures var c := st.current.value;
      ScanFrom(st, lines, now) == Scan(st.cues, Some(c.(text := AppendLine(c.text, Join(lines, "\n")))), st.index)
    decreases |lines|
  {
    var c := st.current.value;
    var line := lines[0];
    TrimKeeps(line);
    var t := AppendLine(c.text, line);
    var next := Scan(st.cues, Some(c.(text := t)), st.index);
    assert ScanLine(st, Trim(line), now) == next;
    if |lines| == 1 {
      assert lines[1..] == [] && Join(lines, "\n") == line;
    } else {
      var rest := Join(lines[1..], "\n");
      TextLinesJoin(next, lines[1..], now);
      assert Join(lines, "\n") == line + "\n" + rest;
      assert AppendLine(t, rest) == AppendLine(c.text, line + "\n" + rest);
    }
  }

  /** A line that starts and ends with a digit is trimmed and not skipped. */
  lemma DigitBoundedLine(line: string)
    requires line != [] && IsDigit(line[0]) && IsDigit(line[|line| - 1])
    ensures Trim(line) == line && !Skipped(line)
  {
    DigitNotWs(line[0]);
    DigitNotWs(line[|line| - 1]);
    TrimKeeps(line);
    assert |line| >= 4 ==> line[..4][0] == line[0];
    assert |line| >= 6 ==> line[..6][0] == line[0];
  }

  /** The time line of an exported cue is one trimmed line that `parseVTT`
      does not skip. */
  lemma TimeLineShape(s: int, e: int)
    requires 0 <= s < HundredHours && 0 <= e < HundredHours
    ensures var line := TimeLine(s, e, '.');
      '\n' !in line && Trim(line) == line && !Skipped(line)
  {
    var x, y := Clock(s, '.'), Clock(e, '.');
    var line := TimeLine(s, e, '.');
    ClockIsCode(s, '.');
    ClockIsCode(e, '.');
    SrtRoundTrip.ArrowLineIsOneLine(x, y, '.');
    assert line[0] == x[0] && line[|line| - 1] == y[11];
    DigitBoundedLine(line);
  }

  /** The time line of an exported cue opens a cue with the exported times
      under the next index, after pushing the cue being read if it has text. */
  lemma OpensCue(st: Scan, sub: Subtitle, now: nat)
    requires 0 <= sub.startTime < HundredHours && 0 <= sub.endTime < HundredHours
    ensures var line := TimeLine(sub.startTime, sub.endTime, '.');
      '\n' !in line
      && ScanLine(st, Trim(line), now)
         == Scan(Emit(st.cues, st.current), Some(SrtRoundTrip.Reread(sub, st.index, now).(text := [])), st.index + 1)
  {
    var s, e := sub.startTime, sub.endTime;
    TimeLineShape(s, e);
    TimeLineMatches(s, e, '.');
    OpenExportedCue(sub, st.index, now);
  }

  /** The cue the time line of an exported cue opens has the exported times,
      the id and index of its position, and no text yet. */
  lemma OpenExportedCue(sub: Subtitle, index: nat, now: nat)
    requires 0 <= sub.startTime < HundredHours && 0 <= sub.endTime < HundredHours
    ensures var line := TimeLine(sub.startTime, sub.endTime, '.');
      MatchTimeRange(line, '.').Some?
      && OpenCue(line, index, now) == SrtRoundTrip.Reread(sub, index, now).(text := [])
  {
    var s, e := sub.startTime, sub.endTime;
    TimeLineMatches(s, e, '.');
    CodeTimeOfClock(s, '.');
    CodeTimeOfClock(e, '.');
  }

  /** The lines of one exported cue: its time line, the lines of its text,
      and the empty line its closing line break leaves. */
  lemma EntrySplit(sub: Subtitle)
    requires '\n' !in TimeLine(sub.startTime, sub.endTime, '.')
    ensures Split(VttEntry(sub), '\n')
      == [TimeLine(sub.startTime, sub.endTime, '.')] + Split(sub.text, '\n') + [[]]
  {
    EntryLines(TimeLine(sub.startTime, sub.endTime, '.'), sub.text);
  }

  /** A line, a line break, a text and a closing line break split into the
      line, the text's lines and an empty line. */
  lemma EntryLines(line: string, text: string)
    requires '\n' !in line
    ensures Split(line + "\n" + text + "\n", '\n') == [line] + Split(text, '\n') + [[]]
  {
    assert line + "\n" + text + "\n" == line + ['\n'] + (text + ['\n'] + []);
    SplitFirst(line, '\n', text + ['\n'] + []);
    SplitConcat(text, '\n', []);
  }

  /** `parseVTT` reads the lines of an exported cue as that cue: the time
      line pushes the cue being read (if it has text) and opens this one,
      the text lines rebuild its text, and the empty line is skipped. */
  lemma ReadEntry(st: Scan, sub: Subtitle, now: nat)
    requires VttExportable(sub)
    ensures ScanFrom(st, Split(VttEntry(sub), '\n'), now)
      == Scan(Emit(st.cues, st.current), Some(SrtRoundTrip.Reread(sub, st.index, now)), st.index + 1)
  {
    var line := TimeLine(sub.startTime, sub.endTime, '.');
    var p := Split(sub.text, '\n');
    OpensCue(st, sub, now);
    EntrySplit(sub);
    var started := ScanLine(st, Trim(line), now);
    assert ScanFrom(st, [line], now) == started;
    ScanFromConcat(st, [line], p, now);
    ScanFromConcat(st, [line] + p, [[]], now);
    TextLinesJoin(started, p, now);
    JoinSplit(sub.text, '\n');
    TrimKeeps([]);
  }

  /** The lines of the exported cues, entry after entry. */
  function ExportLines(subs: seq<Subtitle>): seq<string>
    decreases |subs|
  {
    if subs == [] then [] else Split(VttEntry(subs[0]), '\n') + ExportLines(subs[1..])
  }

  /** Splitting the entries joined by line breaks gives each entry's lines. */
  lemma {:induction false} ExportedLines(subs: seq<Subtitle>)
    requires subs != []
    ensures Split(Join(Map(subs, VttEntry), "\n"), '\n') == ExportLines(subs)
    decreases |subs|
  {
    var es := Map(subs, VttEntry);
    if |subs| == 1 {
      assert es == [VttEntry(subs[0])];
      assert ExportLines(subs[1..]) == [];
    } else {
      assert es[0] == VttEntry(subs[0]) && es[1..] == Map(subs[1..], VttEntry);
      SplitConcat(VttEntry(subs[0]), '\n', Join(es[1..], "\n"));
      ExportedLines(subs[1..]);
    }
  }

  /** The cue a parser builds from a cue at a position. */
  function Rereader(now: nat): (Subtitle, nat) -> Subtitle {
    (sub: Subtitle, index: nat) => SrtRoundTrip.Reread(sub, index, now)
  }

  /** An exportable cue has text. */
  lemma ExportableHasText(sub: Subtitle)
    requires VttExportable(sub)
    ensures sub.text != []
  {
    assert TextLine(Split(sub.text, '\n')[0]);
  }

  /** Scanning the lines of the first exported cue leaves the scanner reading
      that cue under the next index. */
  lemma ReadFirstEntry(st: Scan, subs: seq<Subtitle>, now: nat)
    requires subs != [] && VttExportable(subs[0])
    ensures ScanFrom(st, ExportLines(subs), now)
      == ScanFrom(Scan(Emit(st.cues, st.current), Some(SrtRoundTrip.Reread(subs[0], st.index, now)), st.index + 1),
                  ExportLines(subs[1..]), now)
  {
    ScanFromConcat(st, Split(VttEntry(subs[0]), '\n'), ExportLines(subs[1..]), now);
    ReadEntry(st, subs[0], now);
  }

  /** Scanning the exported cues' lines adds those cues, in order and under
      the following indices, to what the scanner would return. */
  lemma {:induction false} ReadEntries(st: Scan, subs: seq<Subtitle>, now: nat)
    requires forall i :: 0 <= i < |subs| ==> VttExportable(subs[i])
    ensures var r := ScanFrom(st, ExportLines(subs), now);
      Emit(r.cues, r.current) == Emit(st.cues, st.current) + MapIndexed(subs, Rereader(now), st.index)
    decreases |subs|
  {
    if subs != [] {
      var cue := SrtRoundTrip.Reread(subs[0], st.index, now);
      var next := Scan(Emit(st.cues, st.current), Some(cue), st.index + 1);
      ExportableHasText(subs[0]);
      ReadFirstEntry(st, subs, now);
      ReadEntries(next, subs[1..], now);
      PushedThenRest(st, subs, now);
    }
  }

  /** Once the scanner reads the first cue with text, what it returns is
      what it would have returned before, that cue, then the rest. */
  lemma PushedThenRest(st: Scan, subs: seq<Subtitle>, now: nat)
    requires subs != [] && subs[0].text != []
    ensures var cue := SrtRoundTrip.Reread(subs[0], st.index, now);
      var next := Scan(Emit(st.cues, st.current), Some(cue), st.index + 1);
      Emit(next.cues, next.current) + MapIndexed(subs[1..], Rereader(now), st.index + 1)
        == Emit(st.cues, st.current) + MapIndexed(subs, Rereader(now), st.index)
  {
    var cue := SrtRoundTrip.Reread(subs[0], st.index, now);
    assert MapIndexed(subs, Rereader(now), st.index) == [cue] + MapIndexed(subs[1..], Rereader(now), st.index + 1);
  }

  /** A one-line header and a blank line before a body split into the
      header, an empty line and the body's lines. */
  lemma HeaderLines(h: string, body: string)
    requires '\n' !in h
    ensures Split(h + ['\n', '\n'] + body, '\n') == [h, []] + Split(body, '\n')
  {
    var tail: string := [] + ['\n'] + body;
    SplitConcat([], '\n', body);
    SplitConcat(h, '\n', tail);
    SplitNone(h, '\n');
    assert h + ['\n', '\n'] + body == h + ['\n'] + tail;
  }

  /** The lines of a WebVTT export: the header, a blank line, and the lines
      of the entries joined by line breaks. */
  lemma ExportSplit(subs: seq<Subtitle>)
    ensures Split(ExportToVtt(subs), '\n') == ["WEBVTT", []] + Split(Join(Map(subs, VttEntry), "\n"), '\n')
  {
    assert VttHeader == "WEBVTT" + ['\n', '\n'];
    HeaderLines("WEBVTT", Join(Map(subs, VttEntry), "\n"));
  }

  /** What `parseVTT` returns for an export is what it returns after the
      header, for the lines of the entries. */
  lemma AfterHeader(subs: seq<Subtitle>, now: nat)
    ensures var st := ScanFrom(Scan([], None, 0), Split(Join(Map(subs, VttEntry), "\n"), '\n'), now);
      VttCues(ExportToVtt(subs), now) == Emit(st.cues, st.current)
  {
    ExportSplit(subs);
    ScanLinesThen(["WEBVTT", []], Split(Join(Map(subs, VttEntry), "\n"), '\n'), now);
    HeaderSkipped(now);
  }

  /** The WebVTT export of no cue reads back as no cue. */
  lemma EmptyVttExportReadsNothing(now: nat)
    ensures VttCues(ExportToVtt([]), now) == []
  {
    var init := Scan([], None, 0);
    AfterHeader([], now);
    assert Join(Map([], VttEntry), "\n") == [];
    TrimKeeps([]);
    assert ScanFrom(init, [[]], now) == init;
  }

  /** After the header, the lines of the entries of some cues read back as
      the cues a parser builds for their positions. */
  lemma ReadBody(subs: seq<Subtitle>, now: nat)
    requires subs != [] && forall i :: 0 <= i < |subs| ==> VttExportable(subs[i])
    ensures var st := ScanFrom(Scan([], None, 0), Split(Join(Map(subs, VttEntry), "\n"), '\n'), now);
      Emit(st.cues, st.current) == MapIndexed(subs, Rereader(now), 0)
  {
    ExportedLines(subs);
    ReadEntries(Scan([], None, 0), subs, now);
  }

  /** `parseVTT(exportToVTT(subtitles))` gives every exportable cue back, in
      order, with its times and its text; its id and index are those the
      parser assigns to position `i`. */
  lemma VttRoundTrip(subs: seq<Subtitle>, now: nat)
    requires forall i :: 0 <= i < |subs| ==> VttExportable(subs[i])
    ensures var cues := VttCues(ExportToVtt(subs), now);
      |cues| == |subs| && forall i :: 0 <= i < |subs| ==> cues[i] == SrtRoundTrip.Reread(subs[i], i, now)
  {
    if subs == [] {
      EmptyVttExportReadsNothing(now);
    } else {
      AfterHeader(subs, now);
      ReadBody(subs, now);
      var cues := VttCues(ExportToVtt(subs), now);
      forall i | 0 <= i < |subs|
        ensures cues[i] == SrtRoundTrip.Reread(subs[i], i, now)
      {
        MapIndexedFromStart(subs, Rereader(now), i);
      }
    }
  }
}
