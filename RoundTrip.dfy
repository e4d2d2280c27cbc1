/** Reading back what `exportToSRT` writes. For cues whose times lie below
    100 hours and whose text is trimmed and holds no blank line, `parseSRT`
    applied to the export gives every cue back in order, with its times and
    its text, under the id and index the parser assigns. */
module SrtRoundTrip {
  import opened Options
  import opened JsString
  import opened JsNumber
  import opened TimeCodec
  import opened TimePattern
  import opened Subtitles
  import opened Lists
  import opened SrtParser
  import opened Serializers

  /** No blank-line separator `\n\s*\n` starts anywhere in `s`. */
  predicate NoSeparator(s: string) {
    forall p :: 0 <= p < |s| ==> SeparatorLength(s[p..]).None?
  }

  /** A block the SRT splitter keeps whole: not empty, trimmed, and free of
      blank-line separators. */
  predicate Clean(b: string) {
    b != [] && !IsWs(b[0]) && !IsWs(b[|b| - 1]) && NoSeparator(b)
  }

  /** A cue the SRT notation carries without loss: both times below 100
      hours, the text trimmed, not empty and without blank lines. */
  predicate Exportable(sub: Subtitle) {
    0 <= sub.startTime < HundredHours && 0 <= sub.endTime < HundredHours
    && Clean(sub.text)
  }

  /** The cue `parseSRT` (and `parseVTT`) builds from the exported cue at
      `index`: its times and text, under the id and index of that position. */
  function Reread(sub: Subtitle, index: nat, now: nat): Subtitle {
    Subtitle(ParserId(now, index), sub.startTime, sub.endTime, sub.text, index)
  }

  /** A run of white space that stops before the end of `u` stops at the same
      place when more text follows. */
  lemma {:induction false} SkipWsExtend(u: string, t: string, i: nat)
    requires i <= |u| && SkipWs(u, i) < |u|
    ensures SkipWs(u + t, i) == SkipWs(u, i)
    decreases |u| - i
  {
    if i < |u| && IsWs(u[i]) {
      SkipWsExtend(u, t, i + 1);
    }
  }

  /** In a string that ends with a character other than white space, a run
      of white space ends before the end. */
  lemma SkipWsBelow(u: string, i: nat)
    requires i < |u| && !IsWs(u[|u| - 1])
    ensures SkipWs(u, i) < |u|
  {
    SkipWsSkipsWs(u, i);
  }

  lemma {:induction false} LastBreakExtend(u: string, t: string, lo: nat, hi: nat)
    requires lo <= hi <= |u|
    ensures LastBreak(u + t, lo, hi) == LastBreak(u, lo, hi)
    decreases hi - lo
  {
    if hi > lo && u[hi - 1] != '\n' {
      LastBreakExtend(u, t, lo, hi - 1);
    }
  }

  /** What follows a string ending in a character other than white space
      cannot change whether a separator starts at its front. */
  lemma SeparatorExtend(u: string, t: string)
    requires u != [] && !IsWs(u[|u| - 1])
    ensures SeparatorLength(u + t) == SeparatorLength(u)
  {
    assert (u + t)[0] == u[0];
    if u[0] == '\n' {
      SkipWsBelow(u, 1);
      SkipWsExtend(u, t, 1);
      LastBreakExtend(u, t, 1, SkipWs(u, 1));
    }
  }

  lemma NoSeparatorWithin(s: string, t: string)
    requires Clean(s)
    ensures forall p :: 0 <= p < |s| ==> SeparatorLength((s + t)[p..]).None?
  {
    forall p | 0 <= p < |s|
      ensures SeparatorLength((s + t)[p..]).None?
    {
      assert (s + t)[p..] == s[p..] + t;
      SeparatorExtend(s[p..], t);
    }
  }

  /** A prefix in which no separator starts joins the first block of the rest. */
  lemma {:induction false} SplitBlocksPrefix(b: string, t: string)
    requires forall p :: 0 <= p < |b| ==> SeparatorLength((b + t)[p..]).None?
    ensures var r := SplitBlocks(t);
      SplitBlocks(b + t) == [b + r[0]] + r[1..]
    decreases |b|
  {
    var r := SplitBlocks(t);
    if b == [] {
      assert b + t == t;
      assert b + r[0] == r[0];
      assert [r[0]] + r[1..] == r;
    } else {
      var s := b + t;
      assert s[0..] == s;
      assert s[1..] == b[1..] + t;
      forall p | 0 <= p < |b[1..]|
        ensures SeparatorLength((b[1..] + t)[p..]).None?
      {
        assert (b[1..] + t)[p..] == s[p + 1..];
      }
      SplitBlocksPrefix(b[1..], t);
      assert [s[0]] + (b[1..] + r[0]) == b + r[0];
    }
  }

  /** A blank line between two blocks, the second starting with a character
      other than white space, separates them. */
  lemma SeparatorBetween(x: string)
    requires x != [] && !IsWs(x[0])
    ensures SplitBlocks("\n\n" + x) == [[]] + SplitBlocks(x)
  {
    var u := "\n\n" + x;
    assert u[2] == x[0];
    assert SkipWs(u, 2) == 2;
    assert SkipWs(u, 1) == 2;
    assert LastBreak(u, 1, 2) == Some(2);
    assert u[2..] == x;
  }

  /** The first and the last character of a join of non-empty pieces. */
  lemma {:induction false} JoinEnds(bs: seq<string>, sep: string)
    requires |bs| >= 1 && forall i :: 0 <= i < |bs| ==> bs[i] != []
    ensures var j := Join(bs, sep);
      j != [] && j[0] == bs[0][0] && j[|j| - 1] == bs[|bs| - 1][|bs[|bs| - 1]| - 1]
  {
    if |bs| > 1 {
      JoinEnds(bs[1..], sep);
    }
  }

  /** Clean blocks joined by blank lines split back into those blocks. */
  lemma {:induction false} SplitBlocksJoin(bs: seq<string>)
    requires |bs| >= 1 && forall i :: 0 <= i < |bs| ==> Clean(bs[i])
    ensures SplitBlocks(Join(bs, "\n\n")) == bs
  {
    if |bs| == 1 {
      NoSeparatorWithin(bs[0], []);
      assert bs[0] + [] == bs[0];
      SplitBlocksPrefix(bs[0], []);
    } else {
      var rest := Join(bs[1..], "\n\n");
      SplitBlocksJoin(bs[1..]);
      JoinEnds(bs[1..], "\n\n");
      var t := "\n\n" + rest;
      assert Join(bs, "\n\n") == bs[0] + t;
      NoSeparatorWithin(bs[0], t);
      SplitBlocksPrefix(bs[0], t);
      SeparatorBetween(rest);
      assert bs[0] + [] == bs[0];
      assert [bs[0]] + bs[1..] == bs;
    }
  }

  /** A line without line breaks, in front of a block that starts with a
      character other than white space, adds no separator. */
  lemma LineThen(a: string, c: string)
    requires '\n' !in a && c != [] && !IsWs(c[0]) && NoSeparator(c)
    ensures NoSeparator(a + "\n" + c)
  {
    var s := a + "\n" + c;
    forall p | 0 <= p < |s|
      ensures SeparatorLength(s[p..]).None?
    {
      if p < |a| {
        assert s[p..][0] == a[p];
      } else if p == |a| {
        var u := s[p..];
        assert u[0] == '\n' && u[1] == c[0];
        assert SkipWs(u, 1) == 1;
      } else {
        assert s[p..] == c[p - |a| - 1..];
      }
    }
  }

  /** Two one-line headers above a clean text make a clean block. */
  lemma ThreeLinesClean(a: string, b: string, c: string)
    requires a != [] && !IsWs(a[0]) && '\n' !in a
    requires b != [] && !IsWs(b[0]) && '\n' !in b
    requires Clean(c)
    ensures Clean(ThreeLines(a, b, c))
  {
    var bc := b + "\n" + c;
    LineThen(b, c);
    assert bc[0] == b[0] && bc[|bc| - 1] == c[|c| - 1];
    LineThen(a, bc);
    assert ThreeLines(a, b, c) == a + "\n" + bc;
  }

  /** The chars of a time code. */
  lemma CodeChars(code: string, sep: char)
    requires IsCode(code, sep)
    ensures forall k :: 0 <= k < |code| ==> IsDigit(code[k]) || code[k] == ':' || code[k] == sep
  {
  }

  /** A time line of two time codes is one line starting with a digit. */
  lemma ArrowLineIsOneLine(x: string, y: string, sep: char)
    requires IsCode(x, sep) && IsCode(y, sep) && sep != '\n'
    ensures var line := x + " --> " + y;
      line != [] && !IsWs(line[0]) && '\n' !in line
  {
    CodeChars(x, sep);
    CodeChars(y, sep);
    DigitNotWs(x[0]);
    var line := x + " --> " + y;
    forall k | 0 <= k < |line|
      ensures line[k] != '\n'
    {
      if k < 12 {
        assert line[k] == x[k];
      } else if k >= 17 {
        assert line[k] == y[k - 17];
      }
    }
  }

  /** The number `String(n)` is one line starting with a digit. */
  lemma NumberIsOneLine(n: nat)
    ensures var a := ShowNat(n);
      a != [] && !IsWs(a[0]) && '\n' !in a
  {
    var a := ShowNat(n);
    DigitNotWs(a[0]);
    assert forall k :: 0 <= k < |a| ==> IsDigit(a[k]);
  }

  /** The exported block of an exportable cue is clean. */
  lemma SrtCueBlockClean(sub: Subtitle, index: nat)
    requires Exportable(sub)
    ensures Clean(SrtCueBlock(sub, index))
  {
    ClockIsCode(sub.startTime, ',');
    ClockIsCode(sub.endTime, ',');
    ArrowLineIsOneLine(Clock(sub.startTime, ','), Clock(sub.endTime, ','), ',');
    NumberIsOneLine(index + 1);
    ThreeLinesClean(ShowNat(index + 1), TimeLine(sub.startTime, sub.endTime, ','), sub.text);
  }

  /** A number line `a` and a time line `b` that capture the time codes `x`
      and `y`, neither holding a line break, and a text `c`, with no white
      space at the outer ends of the block. */
  predicate BlockParts(a: string, b: string, c: string, x: string, y: string) {
    a != [] && !IsWs(a[0]) && '\n' !in a && '\n' !in b
    && c != [] && !IsWs(c[|c| - 1])
    && IsCode(x, ',') && IsCode(y, ',') && MatchTimeRange(b, ',') == Some(Captures(x, y))
  }

  /** How `parseSRT` reads a block of a number line, a time line and a text. */
  lemma ReadBlock(a: string, b: string, c: string, index: nat, now: nat, x: string, y: string)
    requires BlockParts(a, b, c, x, y)
    ensures BlockCue(ThreeLines(a, b, c), index, now)
      == Some(Subtitle(ParserId(now, index), CodeTime(x, ','), CodeTime(y, ','), c, index))
  {
    BlockLines(a, b, c);
  }

  /** The lines `parseSRT` splits such a block into: the number line, the
      time line, and the text's own lines, which join back into the text. */
  lemma BlockLines(a: string, b: string, c: string)
    requires a != [] && !IsWs(a[0]) && '\n' !in a && '\n' !in b
    requires c != [] && !IsWs(c[|c| - 1])
    ensures var lines := Split(Trim(ThreeLines(a, b, c)), '\n');
      |lines| >= 3 && lines[1] == b && Join(lines[2..], "\n") == c
  {
    var block := ThreeLines(a, b, c);
    assert block[0] == a[0] && block[|block| - 1] == c[|c| - 1];
    TrimKeeps(block);
    assert block == a + ['\n'] + (b + ['\n'] + c);
    SplitFirst(a, '\n', b + ['\n'] + c);
    SplitFirst(b, '\n', c);
    var lines := Split(block, '\n');
    assert lines == [a, b] + Split(c, '\n');
    assert lines[2..] == Split(c, '\n');
    JoinSplit(c, '\n');
  }

  /** `parseSRT` reads the exported block of an exportable cue back as that
      cue, under the parser's id and the block's position. */
  lemma BlockCueOfExport(sub: Subtitle, index: nat, now: nat)
    requires Exportable(sub)
    ensures BlockCue(SrtCueBlock(sub, index), index, now) == Some(Reread(sub, index, now))
  {
    var s, e := sub.startTime, sub.endTime;
    ExportedParts(sub, index);
    ReadBlock(ShowNat(index + 1), TimeLine(s, e, ','), sub.text, index, now, Clock(s, ','), Clock(e, ','));
    CodeTimeOfClock(s, ',');
    CodeTimeOfClock(e, ',');
  }

  /** The three lines of the exported block of an exportable cue. */
  lemma ExportedParts(sub: Subtitle, index: nat)
    requires Exportable(sub)
    ensures var s, e := sub.startTime, sub.endTime;
      BlockParts(ShowNat(index + 1), TimeLine(s, e, ','), sub.text, Clock(s, ','), Clock(e, ','))
  {
    var s, e := sub.startTime, sub.endTime;
    TimeLineMatches(s, e, ',');
    ClockIsCode(s, ',');
    ClockIsCode(e, ',');
    ArrowLineIsOneLine(Clock(s, ','), Clock(e, ','), ',');
    NumberIsOneLine(index + 1);
  }

  /** When every block reads as a cue, the parse is those cues in block order. */
  lemma AllBlocksRead(blocks: seq<string>, now: nat)
    requires forall i :: 0 <= i < |blocks| ==> BlockCue(blocks[i], i, now).Some?
    ensures var cues := SrtCues(blocks, now);
      |cues| == |blocks| && forall i :: 0 <= i < |blocks| ==> cues[i] == BlockCue(blocks[i], i, now).value
  {
    var read := BlockReader(now);
    forall i | 0 <= i < |blocks|
      ensures read(blocks[i], i) == BlockCue(blocks[i], i, now)
    {
    }
    CollectAll(blocks, read);
  }

  /** `parseSRT(exportToSRT(subtitles))` gives every exportable cue back, in
      order, with its times and its text; its id and index are those the
      parser assigns to position `i`. */
  lemma SrtRoundTrip(subs: seq<Subtitle>, now: nat)
    requires forall i :: 0 <= i < |subs| ==> Exportable(subs[i])
    ensures var cues := SrtCues(SrtBlocks(ExportToSrt(subs)), now);
      |cues| == |subs| && forall i :: 0 <= i < |subs| ==> cues[i] == Reread(subs[i], i, now)
  {
    if subs == [] {
      EmptyExportReadsNothing(now);
    } else {
      var blocks := MapIndexed(subs, SrtCueBlock, 0);
      ExportedBlocks(subs);
      ExportedBlocksRead(subs, now);
      AllBlocksRead(blocks, now);
    }
  }

  /** The SRT export of no cue reads back as no cue. */
  lemma EmptyExportReadsNothing(now: nat)
    ensures SrtCues(SrtBlocks(ExportToSrt([])), now) == []
  {
    assert ExportToSrt([]) == [];
    assert Trim([]) == [];
    assert SrtBlocks(ExportToSrt([])) == [[]];
    assert Split(Trim([]), '\n') == [[]];
    assert BlockCue([], 0, now) == None;
    assert SrtBlocks(ExportToSrt([]))[..0] == [];
  }

  /** The blocks `parseSRT` finds in an SRT export are the cues' blocks. */
  lemma ExportedBlocks(subs: seq<Subtitle>)
    requires subs != [] && forall i :: 0 <= i < |subs| ==> Exportable(subs[i])
    ensures SrtBlocks(ExportToSrt(subs)) == MapIndexed(subs, SrtCueBlock, 0)
  {
    var blocks := MapIndexed(subs, SrtCueBlock, 0);
    ExportToSrtBlocks(subs);
    forall i | 0 <= i < |blocks|
      ensures Clean(blocks[i])
    {
      ExportedBlockAt(subs, i);
      SrtCueBlockClean(subs[i], i);
    }
    TerminatedBlocksSplit(blocks);
  }

  /** Clean blocks joined by blank lines, with a final line break, are the
      blocks `parseSRT` finds. */
  lemma TerminatedBlocksSplit(blocks: seq<string>)
    requires |blocks| >= 1 && forall i :: 0 <= i < |blocks| ==> Clean(blocks[i])
    ensures SrtBlocks(Join(blocks, "\n\n") + "\n") == blocks
  {
    var joined := Join(blocks, "\n\n");
    JoinEnds(blocks, "\n\n");
    TrimDropsFinalNewline(joined);
    SplitBlocksJoin(blocks);
  }

  /** Each exported block reads as its cue. */
  lemma ExportedBlocksRead(subs: seq<Subtitle>, now: nat)
    requires forall i :: 0 <= i < |subs| ==> Exportable(subs[i])
    ensures var blocks := MapIndexed(subs, SrtCueBlock, 0);
      forall i :: 0 <= i < |subs| ==> BlockCue(blocks[i], i, now) == Some(Reread(subs[i], i, now))
  {
    var blocks := MapIndexed(subs, SrtCueBlock, 0);
    forall i | 0 <= i < |subs|
      ensures BlockCue(blocks[i], i, now) == Some(Reread(subs[i], i, now))
    {
      ExportedBlockAt(subs, i);
      BlockCueOfExport(subs[i], i, now);
    }
  }

  lemma ExportedBlockAt(subs: seq<Subtitle>, i: nat)
    requires i < |subs|
    ensures MapIndexed(subs, SrtCueBlock, 0)[i] == SrtCueBlock(subs[i], i)
  {
    MapIndexedFromStart(subs, SrtCueBlock, i);
  }
}
