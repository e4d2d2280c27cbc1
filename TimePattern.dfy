/** The time-range pattern both parsers search a line for:
    `(\d{2}:\d{2}:\d{2}S\d{3})\s*-->\s*(\d{2}:\d{2}:\d{2}S\d{3})`, where the
    separator `S` is `,` for SubRip and `.` for WebVTT. The pattern is not
    anchored: `String.prototype.match` reports the leftmost position where it
    matches, and the two captured time codes there. */
module TimePattern {
  import opened Options
  import opened JsString
  import opened JsNumber
  import opened TimeCodec

  /** The two time codes a successful match captures. */
  datatype Captures = Captures(first: string, second: string)

  /** `\d{2}:\d{2}:\d{2}` then `sep` then `\d{3}`, starting at position `i`. */
  predicate CodeAt(line: string, i: nat, sep: char) {
    i + 12 <= |line|
    && IsDigit(line[i]) && IsDigit(line[i + 1]) && line[i + 2] == ':'
    && IsDigit(line[i + 3]) && IsDigit(line[i + 4]) && line[i + 5] == ':'
    && IsDigit(line[i + 6]) && IsDigit(line[i + 7]) && line[i + 8] == sep
    && IsDigit(line[i + 9]) && IsDigit(line[i + 10]) && IsDigit(line[i + 11])
  }

  /** A whole string that is one time code. */
  predicate IsCode(code: string, sep: char) {
    |code| == 12 && CodeAt(code, 0, sep)
  }

  /** Where the run of white space starting at `i` ends: what a greedy `\s*` consumes. */
  function SkipWs(line: string, i: nat): (j: nat)
    requires i <= |line|
    ensures i <= j <= |line|
    decreases |line| - i
  {
    if i < |line| && IsWs(line[i]) then SkipWs(line, i + 1) else i
  }

  /** A run of white space from `i` up to a character that is not white
      space is exactly what `SkipWs` skips. */
  lemma {:induction false} SkipWsStops(line: string, i: nat, j: nat)
    requires i <= j < |line| && !IsWs(line[j])
    requires forall k :: i <= k < j ==> IsWs(line[k])
    ensures SkipWs(line, i) == j
    decreases j - i
  {
    if i < j {
      SkipWsStops(line, i + 1, j);
    }
  }

  /** What `SkipWs` skips is white space. */
  lemma {:induction false} SkipWsSkipsWs(line: string, i: nat)
    requires i <= |line|
    ensures forall k :: i <= k < SkipWs(line, i) ==> IsWs(line[k])
    decreases |line| - i
  {
    if i < |line| && IsWs(line[i]) {
      SkipWsSkipsWs(line, i + 1);
    }
  }

  /** The pattern tried at position `i`. The greedy `\s*` never has to give
      characters back: what follows each run (`-` and a digit) is never
      white space, so this single attempt decides the match. */
  function MatchAt(line: string, i: nat, sep: char): Option<Captures> {
    if !CodeAt(line, i, sep) then None
    else
      var j := SkipWs(line, i + 12);
      if !(j + 3 <= |line| && line[j..j + 3] == "-->") then None
      else
        var k := SkipWs(line, j + 3);
        if CodeAt(line, k, sep) then Some(Captures(line[i..i + 12], line[k..k + 12])) else None
  }

  /** The pattern with explicit white-space runs: a time code at `i`, white
      space up to `j`, the arrow, white space up to `k`, a time code at `k`.
      This is what the regular expression accepts at `i`, for any choice of
      how much each `\s*` consumes. */
  predicate Spans(line: string, i: nat, j: nat, k: nat, sep: char) {
    CodeAt(line, i, sep) && i + 12 <= j && j + 3 <= k && k <= |line|
    && (forall p :: i + 12 <= p < j ==> IsWs(line[p]))
    && line[j..j + 3] == "-->"
    && (forall p :: j + 3 <= p < k ==> IsWs(line[p]))
    && CodeAt(line, k, sep)
  }

  /** `MatchAt` succeeds exactly where some choice of white-space runs
      matches, and captures the time codes that choice delimits. */
  lemma MatchAtComplete(line: string, i: nat, j: nat, k: nat, sep: char)
    requires Spans(line, i, j, k, sep)
    ensures MatchAt(line, i, sep) == Some(Captures(line[i..i + 12], line[k..k + 12]))
  {
    assert line[j] == line[j..j + 3][0] == '-';
    SkipWsStops(line, i + 12, j);
    DigitNotWs(line[k]);
    SkipWsStops(line, j + 3, k);
    MatchAtFrom(line, i, j, k, sep);
  }

  /** `MatchAt` once the white-space runs are known to end at `j` and `k`. */
  lemma MatchAtFrom(line: string, i: nat, j: nat, k: nat, sep: char)
    requires CodeAt(line, i, sep) && CodeAt(line, k, sep) && j + 3 <= |line| && line[j..j + 3] == "-->"
    requires SkipWs(line, i + 12) == j && SkipWs(line, j + 3) == k
    ensures MatchAt(line, i, sep) == Some(Captures(line[i..i + 12], line[k..k + 12]))
  {
    var found := Captures(line[i..i + 12], line[k..k + 12]);
    assert MatchAt(line, i, sep) == if CodeAt(line, k, sep) then Some(found) else None;
  }

  lemma MatchAtSound(line: string, i: nat, sep: char)
    requires MatchAt(line, i, sep).Some?
    ensures var j := SkipWs(line, i + 12);
      j + 3 <= |line| && Spans(line, i, j, SkipWs(line, j + 3), sep)
  {
    var j := SkipWs(line, i + 12);
    SkipWsSkipsWs(line, i + 12);
    SkipWsSkipsWs(line, j + 3);
  }

  /** The leftmost match at or after position `from`. */
  function Search(line: string, sep: char, from: nat): Option<Captures>
    requires from <= |line|
    decreases |line| - from
  {
    var m := MatchAt(line, from, sep);
    if m.Some? || from == |line| then m else Search(line, sep, from + 1)
  }

  /** `line.match(pattern)`: the captures of the leftmost match, if any. */
  function MatchTimeRange(line: string, sep: char): Option<Captures> {
    Search(line, sep, 0)
  }

  /** `Search` finds nothing exactly when no position from `from` on matches,
      and otherwise reports the leftmost position that does. */
  lemma SearchLeftmost(line: string, sep: char, from: nat)
    requires from <= |line|
    ensures Search(line, sep, from).None? <==> forall i :: from <= i <= |line| ==> MatchAt(line, i, sep).None?
    ensures Search(line, sep, from).Some? ==>
      exists i :: from <= i <= |line| && MatchAt(line, i, sep) == Search(line, sep, from)
        && forall p :: from <= p < i ==> MatchAt(line, p, sep).None?
  {
    SearchNone(line, sep, from);
    if Search(line, sep, from).Some? {
      var i := SearchFound(line, sep, from);
    }
  }

  /** `Search` finds nothing exactly when no position from `from` on matches. */
  lemma {:induction false} SearchNone(line: string, sep: char, from: nat)
    requires from <= |line|
    ensures Search(line, sep, from).None? <==> forall i :: from <= i <= |line| ==> MatchAt(line, i, sep).None?
    decreases |line| - from
  {
    if MatchAt(line, from, sep).None? && from < |line| {
      SearchNone(line, sep, from + 1);
    }
  }

  /** The position whose match `Search` reports: no earlier one matches. */
  lemma {:induction false} SearchFound(line: string, sep: char, from: nat) returns (i: nat)
    requires from <= |line| && Search(line, sep, from).Some?
    ensures from <= i <= |line| && MatchAt(line, i, sep) == Search(line, sep, from)
    ensures forall p :: from <= p < i ==> MatchAt(line, p, sep).None?
    decreases |line| - from
  {
    if MatchAt(line, from, sep).Some? || from == |line| {
      i := from;
    } else {
      i := SearchFound(line, sep, from + 1);
    }
  }

  /** A line that begins with a match yields that match. */
  lemma MatchAtStart(line: string, sep: char)
    requires MatchAt(line, 0, sep).Some?
    ensures MatchTimeRange(line, sep) == MatchAt(line, 0, sep)
  {
  }

  /** The pattern matches somewhere in the line exactly when some choice of
      position and white-space runs fits it. */
  lemma MatchTimeRangeSpans(line: string, sep: char)
    ensures MatchTimeRange(line, sep).Some? <==> exists i, j, k :: Spans(line, i, j, k, sep)
  {
    SearchLeftmost(line, sep, 0);
    if MatchTimeRange(line, sep).Some? {
      var i :| 0 <= i <= |line| && MatchAt(line, i, sep) == Search(line, sep, 0);
      MatchAtSound(line, i, sep);
    }
    if exists i, j, k :: Spans(line, i, j, k, sep) {
      var i, j, k :| Spans(line, i, j, k, sep);
      MatchAtComplete(line, i, j, k, sep);
    }
  }

  /** A time code found at position `i` of a line is a time code on its own. */
  lemma SliceCode(line: string, i: nat, sep: char)
    requires CodeAt(line, i, sep)
    ensures IsCode(line[i..i + 12], sep)
  {
  }

  /** What a match captures are two time codes. */
  lemma MatchIsCodes(line: string, sep: char)
    requires MatchTimeRange(line, sep).Some?
    ensures IsCode(MatchTimeRange(line, sep).value.first, sep) && IsCode(MatchTimeRange(line, sep).value.second, sep)
  {
    SearchLeftmost(line, sep, 0);
    var i :| 0 <= i <= |line| && MatchAt(line, i, sep) == Search(line, sep, 0);
    SliceCode(line, i, sep);
    var k := SkipWs(line, SkipWs(line, i + 12) + 3);
    SliceCode(line, k, sep);
  }

  /** The time code parts `parseTime` splits a code into. */
  lemma CodeParts(code: string, sep: char)
    requires IsCode(code, sep)
    ensures code == code[..2] + ":" + code[3..5] + ":" + code[6..8] + [sep] + code[9..]
    ensures AllDigits(code[..2]) && AllDigits(code[3..5]) && AllDigits(code[6..8]) && AllDigits(code[9..])
    ensures |code[9..]| == 3
  {
    assert code == code[..2] + [code[2]] + code[3..5] + [code[5]] + code[6..8] + [code[8]] + code[9..];
  }

  /** The time a code denotes, computed from its digits. */
  function CodeTime(code: string, sep: char): (t: int)
    requires IsCode(code, sep) && (sep == ',' || sep == '.')
    ensures t >= 0 && ParseTime(code) == Some(t)
  {
    CodeParts(code, sep);
    var a, b, c, d := code[..2], code[3..5], code[6..8], code[9..];
    var x, y, z := DigitsValue(a), DigitsValue(b), DigitsValue(c) * MsPerSecond + DigitsValue(d);
    var t := x * MsPerHour + y * MsPerMinute + z;
    CodeReads(a, b, c, sep, d, x, y, z, t);
    t
  }

  /** `parseTime` of a time code reads its four digit groups. */
  lemma CodeReads(a: string, b: string, c: string, sep: char, d: string, x: int, y: int, z: int, t: int)
    requires a != [] && b != [] && c != [] && |d| == 3
    requires AllDigits(a) && AllDigits(b) && AllDigits(c) && AllDigits(d) && (sep == ',' || sep == '.')
    requires x == DigitsValue(a) && y == DigitsValue(b) && z == DigitsValue(c) * MsPerSecond + DigitsValue(d)
    requires t == x * MsPerHour + y * MsPerMinute + z
    ensures ParseTime(a + ":" + b + ":" + c + [sep] + d) == Some(t)
  {
    DigitsHaveNoSeparators(a);
    DigitsHaveNoSeparators(b);
    DigitsHaveNoSeparators(c);
    DigitsHaveNoSeparators(d);
    ParseIntDigits(a);
    ParseIntDigits(b);
    assert d[..3] == d;
    ParseFloatDecimal(c, d, z);
    ParseJoined(a, b, c, sep, d, x, y, z, t);
  }

  /** Below 100 hours, `Clock` writes exactly one time code. */
  lemma ClockIsCode(t: int, sep: char)
    requires 0 <= t < HundredHours
    ensures IsCode(Clock(t, sep), sep)
  {
    var hv, mv, sv, fv := ClockParts(t, sep);
    FieldWidth(hv, 2);
    FieldWidth(mv, 2);
    FieldWidth(sv, 2);
    FieldWidth(fv, 3);
    CodeOfFields(Field(hv, 2), Field(mv, 2), Field(sv, 2), sep, Field(fv, 3));
  }

  /** Two-digit fields and a three-digit fraction make a time code. */
  lemma CodeOfFields(a: string, b: string, c: string, sep: char, d: string)
    requires |a| == 2 && |b| == 2 && |c| == 2 && |d| == 3
    requires AllDigits(a) && AllDigits(b) && AllDigits(c) && AllDigits(d)
    ensures IsCode(a + ":" + b + ":" + c + [sep] + d, sep)
  {
    var code := a + ":" + b + ":" + c + [sep] + d;
    assert code[0] == a[0] && code[1] == a[1] && code[3] == b[0] && code[4] == b[1];
    assert code[6] == c[0] && code[7] == c[1] && code[9] == d[0] && code[10] == d[1] && code[11] == d[2];
  }

  /** `formatTime` or `formatTimeVTT` of a time below 100 hours reads back
      from its time code. */
  lemma CodeTimeOfClock(t: int, sep: char)
    requires 0 <= t < HundredHours && (sep == ',' || sep == '.')
    ensures IsCode(Clock(t, sep), sep) && CodeTime(Clock(t, sep), sep) == t
  {
    ClockIsCode(t, sep);
    ParseClock(t, sep);
  }

  /** `a --> b` for two time codes matches, capturing `a` and `b`. */
  lemma ArrowLineMatches(a: string, b: string, sep: char)
    requires IsCode(a, sep) && IsCode(b, sep)
    ensures MatchTimeRange(a + " --> " + b, sep) == Some(Captures(a, b))
  {
    var line := a + " --> " + b;
    ArrowLineSpans(a, b, sep);
    MatchAtComplete(line, 0, 13, 17, sep);
    MatchAtStart(line, sep);
  }

  /** The layout of `a --> b`: a time code, one space, the arrow, one space,
      a time code. */
  lemma ArrowLineSpans(a: string, b: string, sep: char)
    requires IsCode(a, sep) && IsCode(b, sep)
    ensures var line := a + " --> " + b;
      Spans(line, 0, 13, 17, sep) && line[0..0 + 12] == a && line[17..17 + 12] == b
  {
    var line := a + " --> " + b;
    assert line[0..12] == a && line[17..29] == b && line[12..17] == " --> ";
    CodeAtSlice(line, 0, a, sep);
    CodeAtSlice(line, 17, b, sep);
    assert line[13..16] == "-->";
  }

  /** A time code that occupies twelve positions of a line is found there. */
  lemma CodeAtSlice(line: string, i: nat, code: string, sep: char)
    requires IsCode(code, sep) && i + 12 <= |line| && line[i..i + 12] == code
    ensures CodeAt(line, i, sep)
  {
    assert forall p :: 0 <= p < 12 ==> line[i + p] == code[p];
  }

  /** The line the exporters write, `start --> end`, matches with its two
      time codes captured, when both times are below 100 hours. */
  lemma TimeLineMatches(s: int, e: int, sep: char)
    requires 0 <= s < HundredHours && 0 <= e < HundredHours
    ensures MatchTimeRange(Clock(s, sep) + " --> " + Clock(e, sep), sep) == Some(Captures(Clock(s, sep), Clock(e, sep)))
  {
    ClockIsCode(s, sep);
    ClockIsCode(e, sep);
    ArrowLineMatches(Clock(s, sep), Clock(e, sep), sep);
  }
}
