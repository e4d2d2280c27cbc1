/** `parseSRT`: the trimmed content is split into blocks at blank lines
    (`/\n\s*\n/`), and every block whose trimmed lines number at least three
    and whose second line holds a time range becomes a cue. The cue's
    `index` is the position of its block among all blocks. */
module SrtParser {
  import opened Options
  import opened JsString
  import opened JsNumber
  import opened TimeCodec
  import opened TimePattern
  import opened Subtitles

  /** One past the last line break in `u[lo..hi]`, if there is one. */
  function LastBreak(u: string, lo: nat, hi: nat): (r: Option<nat>)
    requires lo <= hi <= |u|
    ensures r.Some? ==> lo < r.value <= hi
    decreases hi - lo
  {
    if hi == lo then None
    else if u[hi - 1] == '\n' then Some(hi)
    else LastBreak(u, lo, hi - 1)
  }

  /** The length of the separator `\n\s*\n` matched at the start of `u`, if
      any: a line break, then the greedy `\s*` takes the whole run of white
      space and gives characters back until a line break follows it. */
  function SeparatorLength(u: string): (r: Option<nat>)
    ensures r.Some? ==> 2 <= r.value <= |u|
  {
    if u != [] && u[0] == '\n' then LastBreak(u, 1, SkipWs(u, 1)) else None
  }

  /** `s.split(/\n\s*\n/)`: at each position a separator is tried; where
      one matches the current block ends, elsewhere the character joins it. */
  function SplitBlocks(s: string): (r: seq<string>)
    ensures |r| >= 1
    decreases |s|
  {
    if s == [] then [[]]
    else
      var n := SeparatorLength(s);
      if n.Some? then [[]] + SplitBlocks(s[n.value..])
      else
        var rest := SplitBlocks(s[1..]);
        [[s[0]] + rest[0]] + rest[1..]
  }

  /** The cue `parseSRT` reads from the block at position `index`, if any. */
  function BlockCue(block: string, index: nat, now: nat): Option<Subtitle> {
    var lines := Split(Trim(block), '\n');
    if |lines| < 3 then None
    else
      var timeMatch := MatchTimeRange(lines[1], ',');
      if timeMatch.None? then None
      else
        MatchIsCodes(lines[1], ',');
        Some(Subtitle(ParserId(now, index), CodeTime(timeMatch.value.first, ','),
                      CodeTime(timeMatch.value.second, ','), Join(lines[2..], "\n"), index))
  }

  /** The cues `read` gives for a list of blocks, each block with its
      position, in block order. */
  function Collect(blocks: seq<string>, read: (string, nat) -> Option<Subtitle>): seq<Subtitle>
    decreases |blocks|
  {
    if blocks == [] then []
    else
      var k := |blocks| - 1;
      var c := read(blocks[k], k);
      Collect(blocks[..k], read) + (if c.Some? then [c.value] else [])
  }

  /** `BlockCue` for the parse that runs at time `now`. */
  function BlockReader(now: nat): (string, nat) -> Option<Subtitle> {
    (block: string, index: nat) => BlockCue(block, index, now)
  }

  /** The cues read from a list of blocks, in block order. */
  function SrtCues(blocks: seq<string>, now: nat): seq<Subtitle> {
    Collect(blocks, BlockReader(now))
  }

  /** The blocks `parseSRT` reads a file's content as. */
  function SrtBlocks(content: string): seq<string> {
    SplitBlocks(Trim(content))
  }

  /** `parseSRT(content)`, `now` being what `Date.now()` returns during the call. */
  method ParseSrt(content: string, now: nat) returns (subtitles: seq<Subtitle>)
    ensures subtitles == SrtCues(SrtBlocks(content), now)
  {
    var blocks := SplitBlocks(Trim(content));
    subtitles := [];
    var index := 0;
    while index < |blocks|
      invariant 0 <= index <= |blocks|
      invariant subtitles == SrtCues(blocks[..index], now)
    {
      var cue := BlockCue(blocks[index], index, now);
      SrtCuesStep(blocks, index, now);
      if cue.Some? {
        subtitles := subtitles + [cue.value];
      }
      index := index + 1;
    }
    assert blocks[..index] == blocks;
  }

  /** Reading one more block appends its cue, if it has one. */
  lemma SrtCuesStep(blocks: seq<string>, i: nat, now: nat)
    requires i < |blocks|
    ensures var c := BlockCue(blocks[i], i, now);
      SrtCues(blocks[..i + 1], now) == SrtCues(blocks[..i], now) + (if c.Some? then [c.value] else [])
  {
    assert blocks[..i + 1][..i] == blocks[..i];
    assert BlockReader(now)(blocks[i], i) == BlockCue(blocks[i], i, now);
  }

  /** At most one cue per block; each cue carries the position of its block,
      positions strictly increase along the list, and the cue is what its
      block reads as. */
  lemma SrtCuesShape(blocks: seq<string>, now: nat)
    ensures var cues := SrtCues(blocks, now);
      |cues| <= |blocks|
      && (forall i :: 0 <= i < |cues| ==>
            0 <= cues[i].index < |blocks| && BlockCue(blocks[cues[i].index], cues[i].index, now) == Some(cues[i]))
      && (forall i, j :: 0 <= i < j < |cues| ==> cues[i].index < cues[j].index)
  {
    CollectShape(blocks, BlockReader(now));
  }

  /** `Collect` with a reader that stamps each cue with its block's position. */
  lemma {:induction false} CollectShape(blocks: seq<string>, read: (string, nat) -> Option<Subtitle>)
    requires forall block, index :: read(block, index).Some? ==> read(block, index).value.index == index
    ensures var cues := Collect(blocks, read);
      |cues| <= |blocks|
      && (forall i :: 0 <= i < |cues| ==>
            0 <= cues[i].index < |blocks| && read(blocks[cues[i].index], cues[i].index) == Some(cues[i]))
      && (forall i, j :: 0 <= i < j < |cues| ==> cues[i].index < cues[j].index)
    decreases |blocks|
  {
    if blocks != [] {
      var k := |blocks| - 1;
      CollectShape(blocks[..k], read);
      var c := read(blocks[k], k);
      if c.Some? {
        assert c.value.index == k;
      }
    }
  }

  /** Every block that reads as a cue gives one. */
  lemma SrtCuesComplete(blocks: seq<string>, now: nat, k: nat)
    requires k < |blocks| && BlockCue(blocks[k], k, now).Some?
    ensures exists i :: 0 <= i < |SrtCues(blocks, now)| && SrtCues(blocks, now)[i] == BlockCue(blocks[k], k, now).value
  {
    assert BlockReader(now)(blocks[k], k) == BlockCue(blocks[k], k, now);
    CollectComplete(blocks, BlockReader(now), k);
    var i :| 0 <= i < |SrtCues(blocks, now)| && SrtCues(blocks, now)[i] == BlockReader(now)(blocks[k], k).value;
  }

  lemma {:induction false} CollectComplete(blocks: seq<string>, read: (string, nat) -> Option<Subtitle>, k: nat)
    requires k < |blocks| && read(blocks[k], k).Some?
    ensures exists i :: 0 <= i < |Collect(blocks, read)| && Collect(blocks, read)[i] == read(blocks[k], k).value
    decreases |blocks|
  {
    var n := |blocks| - 1;
    var prefix := Collect(blocks[..n], read);
    var c := read(blocks[k], k);
    var last := read(blocks[n], n);
    assert Collect(blocks, read) == prefix + (if last.Some? then [last.value] else []);
    if k < n {
      assert blocks[..n][k] == blocks[k];
      CollectComplete(blocks[..n], read, k);
      var i :| 0 <= i < |prefix| && prefix[i] == c.value;
      assert Collect(blocks, read)[i] == prefix[i];
    } else {
      assert Collect(blocks, read)[|prefix|] == c.value;
    }
  }

  /** When `read` gives a cue for every block, `Collect` is those cues in block order. */
  lemma {:induction false} CollectAll(blocks: seq<string>, read: (string, nat) -> Option<Subtitle>)
    requires forall i :: 0 <= i < |blocks| ==> read(blocks[i], i).Some?
    ensures var cues := Collect(blocks, read);
      |cues| == |blocks| && forall i :: 0 <= i < |blocks| ==> cues[i] == read(blocks[i], i).value
    decreases |blocks|
  {
    if blocks != [] {
      var k := |blocks| - 1;
      var front := blocks[..k];
      forall i | 0 <= i < k
        ensures read(front[i], i).Some?
      {
        assert front[i] == blocks[i];
      }
      CollectAll(front, read);
      var c := read(blocks[k], k);
      assert Collect(blocks, read) == Collect(front, read) + [c.value];
      forall i | 0 <= i < k
        ensures Collect(blocks, read)[i] == read(blocks[i], i).value
      {
        assert front[i] == blocks[i];
      }
    }
  }

  /** The ids of one parse are pairwise distinct. */
  lemma SrtIdsDistinct(blocks: seq<string>, now: nat)
    ensures var cues := SrtCues(blocks, now);
      forall i, j :: 0 <= i < j < |cues| ==> cues[i].id != cues[j].id
  {
    var cues := SrtCues(blocks, now);
    SrtCuesShape(blocks, now);
    forall i, j | 0 <= i < j < |cues|
      ensures cues[i].id != cues[j].id
    {
      assert cues[i].id == ParserId(now, cues[i].index);
      assert cues[j].id == ParserId(now, cues[j].index);
      if cues[i].id == cues[j].id {
        ParserIdInjective(now, cues[i].index, cues[j].index);
      }
    }
  }

  /** A block reads as a cue exactly when its trimmed form has at least three
      lines and the time-range pattern occurs somewhere in the second; the
      cue's text is the remaining lines joined by line breaks. */
  lemma BlockCueCondition(block: string, index: nat, now: nat)
    ensures var lines := Split(Trim(block), '\n');
      BlockCue(block, index, now).Some? <==> |lines| >= 3 && exists i, j, k :: Spans(lines[1], i, j, k, ',')
    ensures var lines := Split(Trim(block), '\n');
      BlockCue(block, index, now).Some? ==>
        BlockCue(block, index, now).value.text == Join(lines[2..], "\n")
        && BlockCue(block, index, now).value.index == index
        && BlockCue(block, index, now).value.id == ParserId(now, index)
  {
    var lines := Split(Trim(block), '\n');
    if |lines| >= 3 {
      MatchTimeRangeSpans(lines[1], ',');
    }
  }

  /** The times a cue carries are what `parseTime` reads from the two time
      codes the pattern captured in its block's second line. */
  lemma BlockCueTimes(block: string, index: nat, now: nat)
    requires BlockCue(block, index, now).Some?
    ensures var lines := Split(Trim(block), '\n');
      var m := MatchTimeRange(lines[1], ',');
      m.Some? && ParseTime(m.value.first) == Some(BlockCue(block, index, now).value.startTime)
      && ParseTime(m.value.second) == Some(BlockCue(block, index, now).value.endTime)
  {
  }
}
