/** The time codec of `src/lib/subtitle-utils.ts`: `formatTime` (SRT,
    `HH:MM:SS,mmm`), `formatTimeVTT` (`HH:MM:SS.mmm`), `formatTimeASS`
    (`H:MM:SS.cc`), the lenient `parseTime`, and the time-range pattern the
    two parsers search for. Times are whole milliseconds; the source's
    seconds are these divided by 1000. */
module TimeCodec {
  import opened Options
  import opened JsString
  import opened JsNumber

  const MsPerSecond := 1000
  const MsPerMinute := 60000
  const MsPerHour := 3600000

  /** The first time that needs three hour digits (100 hours). */
  const HundredHours := 360000000

  /** `String(n).padStart(width, '0')`. */
  function Field(n: int, width: nat): string {
    PadStart(ShowInt(n), width, '0')
  }

  /** The layout `formatTime` and `formatTimeVTT` share: hours, minutes and
      seconds padded to two digits, milliseconds to three, and `sep` before
      the milliseconds. Hours are `Math.floor(seconds / 3600)`, the other
      fields go through JavaScript's truncating `%`. */
  function Clock(t: int, sep: char): string {
    var hours := t / MsPerHour;
    var minutes := TruncRem(t, MsPerHour) / MsPerMinute;
    var secs := TruncRem(t, MsPerMinute) / MsPerSecond;
    var ms := TruncRem(t, MsPerSecond);
    Field(hours, 2) + ":" + Field(minutes, 2) + ":" + Field(secs, 2) + [sep] + Field(ms, 3)
  }

  /** `formatTime`: the SRT notation, with a comma before the milliseconds. */
  function FormatTime(t: int): string {
    Clock(t, ',')
  }

  /** `formatTimeVTT`: the WebVTT notation, with a period before the milliseconds. */
  function FormatTimeVtt(t: int): string {
    Clock(t, '.')
  }

  /** `formatTimeASS`: unpadded hours and truncated centiseconds. */
  function FormatTimeAss(t: int): string {
    var hours := t / MsPerHour;
    var minutes := TruncRem(t, MsPerHour) / MsPerMinute;
    var secs := TruncRem(t, MsPerMinute) / MsPerSecond;
    var cs := TruncRem(t, MsPerSecond) / 10;
    ShowInt(hours) + ":" + Field(minutes, 2) + ":" + Field(secs, 2) + "." + Field(cs, 2)
  }

  /** How many digits `String(n)` writes, for the sizes that matter here. */
  lemma {:induction false} ShowNatLength(n: nat)
    ensures n < 10 ==> |ShowNat(n)| == 1
    ensures n < 100 ==> |ShowNat(n)| <= 2
    ensures n < 1000 ==> |ShowNat(n)| <= 3
    ensures n >= 100 ==> |ShowNat(n)| >= 3
  {
    if n >= 10 {
      ShowNatLength(n / 10);
    }
  }

  /** A field of a non-negative number is digits denoting that number, and
      exactly `width` of them when the number is small enough. */
  lemma FieldDigits(n: nat, width: nat)
    ensures AllDigits(Field(n, width)) && DigitsValue(Field(n, width)) == n
    ensures |Field(n, width)| >= 1 && |Field(n, width)| >= width
    ensures width == 2 && n < 100 ==> |Field(n, width)| == 2
    ensures width == 3 && n < 1000 ==> |Field(n, width)| == 3
    ensures width == 2 && n >= 100 ==> |Field(n, width)| >= 3
  {
    var d := ShowNat(n);
    assert Field(n, width) == PadStart(d, width, '0');
    ShowNatLength(n);
    ShowNatValue(n);
    PaddedDigits(d, n, width);
  }

  /** Zero padding of the digits of `n`, in terms of their length. */
  lemma PaddedDigits(d: string, n: nat, width: nat)
    requires AllDigits(d) && DigitsValue(d) == n && |d| >= 1
    requires (n < 100 ==> |d| <= 2) && (n < 1000 ==> |d| <= 3) && (n >= 100 ==> |d| >= 3)
    ensures AllDigits(PadStart(d, width, '0')) && DigitsValue(PadStart(d, width, '0')) == n
    ensures |PadStart(d, width, '0')| >= 1 && |PadStart(d, width, '0')| >= width
    ensures width == 2 && n < 100 ==> |PadStart(d, width, '0')| == 2
    ensures width == 3 && n < 1000 ==> |PadStart(d, width, '0')| == 3
    ensures width == 2 && n >= 100 ==> |PadStart(d, width, '0')| >= 3
  {
    PaddedValue(d, width);
  }

  /** `parseTime`: the first comma becomes a period, the string is split on
      colons, and exactly three fields are read as hours (`parseInt`),
      minutes (`parseInt`) and seconds (`parseFloat`); any other number of
      fields gives 0. `None` stands for `NaN`. */
  function ParseTime(s: string): Option<int> {
    var parts := Split(ReplaceFirst(s, ',', '.'), ':');
    if |parts| == 3 then ReadFields(parts[0], parts[1], parts[2]) else Some(0)
  }

  /** Unless the string holds exactly two colons, `parseTime` gives 0; with
      exactly two, it reads the three colon-separated fields (the first
      comma being a period). */
  lemma ParseTimeFields(s: string)
    ensures CountChar(s, ':') != 2 ==> ParseTime(s) == Some(0)
    ensures CountChar(s, ':') == 2 ==>
              var parts := Split(ReplaceFirst(s, ',', '.'), ':');
              |parts| == 3 && ParseTime(s) == ReadFields(parts[0], parts[1], parts[2])
  {
    var u := ReplaceFirst(s, ',', '.');
    ReplaceFirstCount(s, ',', '.', ':');
    SplitCount(u, ':');
  }

  /** Hours, minutes and seconds read from three fields; `NaN` if any is not a number. */
  function ReadFields(h: string, m: string, s: string): Option<int> {
    AddFields(ParseInt(h), ParseInt(m), ParseFloatMs(s))
  }

  /** Hours, minutes and milliseconds added up into one time; `NaN` if any is. */
  function AddFields(hours: Option<int>, minutes: Option<int>, seconds: Option<int>): Option<int> {
    if hours.None? || minutes.None? || seconds.None? then None
    else Some(TimeOf(hours.value, minutes.value, seconds.value))
  }

  /** Hours, minutes and milliseconds as one time in milliseconds. */
  function TimeOf(hours: int, minutes: int, ms: int): int {
    hours * MsPerHour + minutes * MsPerMinute + ms
  }

  /** `parseTime` of a string with three colon-separated fields reads those fields. */
  lemma ParseTimeOfParts(str: string, a: string, b: string, c: string)
    requires Split(ReplaceFirst(str, ',', '.'), ':') == [a, b, c]
    ensures ParseTime(str) == ReadFields(a, b, c)
  {
  }

  /** Three fields that read as numbers give the time they add up to. */
  lemma ReadKnown(a: string, b: string, c: string, x: int, y: int, z: int, v: int)
    requires ParseInt(a) == Some(x) && ParseInt(b) == Some(y) && ParseFloatMs(c) == Some(z)
    requires v == x * MsPerHour + y * MsPerMinute + z
    ensures ReadFields(a, b, c) == Some(v)
  {
    assert ReadFields(a, b, c) == AddFields(Some(x), Some(y), Some(z));
    assert TimeOf(x, y, z) == v;
  }

  /** None of the characters `parseTime` splits or replaces on. */
  predicate NoSeparators(x: string) {
    ':' !in x && ',' !in x && '.' !in x
  }

  lemma DigitsHaveNoSeparators(x: string)
    requires AllDigits(x)
    ensures NoSeparators(x)
  {
    assert forall i :: 0 <= i < |x| ==> IsDigit(x[i]);
  }

  /** The comma before the fraction, when there is one, becomes a period. */
  lemma ReplaceSeparator(x: string, sep: char, f: string)
    requires ',' !in x && ',' !in f && (sep == ',' || sep == '.')
    ensures ReplaceFirst(x + [sep] + f, ',', '.') == x + "." + f
  {
    if sep == ',' {
      IndexOfFirst(x, ',', f);
      assert (x + [','] + f)[..|x|] == x && (x + [','] + f)[|x| + 1..] == f;
    } else {
      assert ',' !in x + [sep] + f;
      ReplaceFirstAbsent(x + [sep] + f, ',', '.');
    }
  }

  /** Three colon-free pieces joined by colons split back into those three. */
  lemma SplitThree(a: string, b: string, c: string)
    requires ':' !in a && ':' !in b && ':' !in c
    ensures Split(a + ":" + b + ":" + c, ':') == [a, b, c]
  {
    assert a + ":" + b + ":" + c == a + [':'] + (b + [':'] + c);
    SplitFirst(a, ':', b + [':'] + c);
    SplitFirst(b, ':', c);
    SplitNone(c, ':');
  }

  /** `a:b:c` followed by `,` or `.` and `d` splits, once its comma is
      replaced, into the hours, the minutes and the seconds with their fraction. */
  lemma SplitClock(a: string, b: string, c: string, sep: char, d: string)
    requires NoSeparators(a) && NoSeparators(b) && NoSeparators(c) && NoSeparators(d)
    requires sep == ',' || sep == '.'
    ensures Split(ReplaceFirst(a + ":" + b + ":" + c + [sep] + d, ',', '.'), ':') == [a, b, c + "." + d]
  {
    var x := a + ":" + b + ":" + c;
    assert ',' !in x;
    ReplaceSeparator(x, sep, d);
    var y := c + "." + d;
    assert ':' !in y;
    assert x + "." + d == a + ":" + b + ":" + y;
    SplitThree(a, b, y);
  }

  /** A padded field reads back as its number and holds only digits. */
  lemma FieldReads(n: nat, width: nat)
    ensures ParseInt(Field(n, width)) == Some(n) && NoSeparators(Field(n, width))
  {
    FieldDigits(n, width);
    ParseIntDigits(Field(n, width));
    DigitsHaveNoSeparators(Field(n, width));
  }

  /** An unpadded number reads back as itself and holds only digits. */
  lemma ShowNatReads(n: nat)
    ensures ParseInt(ShowInt(n)) == Some(n) && NoSeparators(ShowInt(n))
  {
    assert ShowInt(n) == ShowNat(n);
    ShowNatValue(n);
    ParseIntDigits(ShowNat(n));
    DigitsHaveNoSeparators(ShowNat(n));
  }

  /** Seconds and three digits of milliseconds read back with `parseFloat`. */
  lemma SecondsReads(secs: nat, ms: nat, z: int)
    requires ms < 1000 && z == secs * MsPerSecond + ms
    ensures ParseFloatMs(Field(secs, 2) + "." + Field(ms, 3)) == Some(z)
  {
    var w, f := Field(secs, 2), Field(ms, 3);
    FieldDigits(secs, 2);
    FieldDigits(ms, 3);
    assert f[..3] == f;
    ParseFloatDecimal(w, f, z);
  }

  /** Seconds and two digits of centiseconds read back with `parseFloat`. */
  lemma CentisecondsReads(secs: nat, cs: nat, z: int)
    requires cs < 100 && z == secs * MsPerSecond + cs * 10
    ensures ParseFloatMs(Field(secs, 2) + "." + Field(cs, 2)) == Some(z)
  {
    var w, f := Field(secs, 2), Field(cs, 2);
    FieldDigits(secs, 2);
    FieldDigits(cs, 2);
    ParseFloatDecimal(w, f, z);
  }

  /** For a non-negative time, the fields `Clock` writes and their values. */
  lemma ClockFields(t: int, sep: char)
    requires t >= 0
    ensures Clock(t, sep) == Field(t / MsPerHour, 2) + ":" + Field(t % MsPerHour / MsPerMinute, 2) + ":"
                           + Field(t % MsPerMinute / MsPerSecond, 2) + [sep] + Field(t % MsPerSecond, 3)
  {
  }

  /** For a non-negative time, the fields `formatTimeASS` writes. */
  lemma AssFields(t: int)
    requires t >= 0
    ensures FormatTimeAss(t) == ShowInt(t / MsPerHour) + ":" + Field(t % MsPerHour / MsPerMinute, 2) + ":"
                               + Field(t % MsPerMinute / MsPerSecond, 2) + ['.'] + Field(t % MsPerSecond / 10, 2)
  {
  }

  /** The field values `Clock` writes for a non-negative time: minutes and
      seconds below 60, milliseconds below 1000, all adding up to the time. */
  lemma ClockParts(t: int, sep: char) returns (hv: nat, mv: nat, sv: nat, fv: nat)
    requires t >= 0
    ensures Clock(t, sep) == Field(hv, 2) + ":" + Field(mv, 2) + ":" + Field(sv, 2) + [sep] + Field(fv, 3)
    ensures mv < 60 && sv < 60 && fv < 1000
    ensures t == hv * MsPerHour + mv * MsPerMinute + sv * MsPerSecond + fv
    ensures t < HundredHours ==> hv < 100
  {
    hv, mv, sv, fv := t / MsPerHour, t % MsPerHour / MsPerMinute, t % MsPerMinute / MsPerSecond, t % MsPerSecond;
    ClockFields(t, sep);
    ClockArithmetic(t);
  }

  /** The field values `formatTimeASS` writes for a non-negative time; they
      add up to the time truncated to centiseconds. */
  lemma AssParts(t: int, v: int) returns (hv: nat, mv: nat, sv: nat, cs: nat)
    requires t >= 0 && v == t - t % 10
    ensures FormatTimeAss(t) == ShowInt(hv) + ":" + Field(mv, 2) + ":" + Field(sv, 2) + ['.'] + Field(cs, 2)
    ensures cs < 100 && v == hv * MsPerHour + mv * MsPerMinute + (sv * MsPerSecond + cs * 10)
  {
    hv, mv, sv, cs := t / MsPerHour, t % MsPerHour / MsPerMinute, t % MsPerMinute / MsPerSecond, t % MsPerSecond / 10;
    AssValue(t, v);
    AssFields(t);
  }

  /** Division with remainder is unique. */
  lemma DivModUnique(t: int, d: int, q: int, r: int)
    requires d > 0 && 0 <= r < d && t == q * d + r
    ensures t / d == q && t % d == r
  {
    var q0, r0 := t / d, t % d;
    assert t == q0 * d + r0;
    MulDiff(q, q0, d);
    if q > q0 {
      MulAtLeast(q - q0, d);
    } else if q < q0 {
      MulDiff(q0, q, d);
      MulAtLeast(q0 - q, d);
    }
  }

  lemma MulDiff(a: int, b: int, d: int)
    ensures (a - b) * d == a * d - b * d
  {
  }

  lemma MulAtLeast(k: int, d: int)
    requires k >= 1 && d > 0
    ensures k * d >= d
  {
  }

  /** Whole minutes within the hour, and the milliseconds past the minute. */
  lemma ModHourMinute(t: int)
    requires t >= 0
    ensures t % MsPerHour % MsPerMinute == t % MsPerMinute
    ensures t % MsPerHour / MsPerMinute < 60
  {
    var a := t % MsPerHour;
    var q := t / MsPerHour;
    var m, s := a / MsPerMinute, a % MsPerMinute;
    assert t == q * MsPerHour + a;
    assert a == m * MsPerMinute + s;
    DivModUnique(t, MsPerMinute, q * 60 + m, s);
  }

  /** Whole seconds within the minute, and the milliseconds past the second. */
  lemma ModMinuteSecond(t: int)
    requires t >= 0
    ensures t % MsPerMinute % MsPerSecond == t % MsPerSecond
    ensures t % MsPerMinute / MsPerSecond < 60
  {
    var a := t % MsPerMinute;
    var q := t / MsPerMinute;
    var m, s := a / MsPerSecond, a % MsPerSecond;
    assert t == q * MsPerMinute + a;
    assert a == m * MsPerSecond + s;
    DivModUnique(t, MsPerSecond, q * 60 + m, s);
  }

  /** Hours, minutes, seconds and milliseconds add up to the time again. */
  lemma ClockArithmetic(t: int)
    requires t >= 0
    ensures t == t / MsPerHour * MsPerHour + t % MsPerHour / MsPerMinute * MsPerMinute
               + t % MsPerMinute / MsPerSecond * MsPerSecond + t % MsPerSecond
    ensures t % MsPerHour / MsPerMinute < 60 && t % MsPerMinute / MsPerSecond < 60
  {
    ModHourMinute(t);
    ModMinuteSecond(t);
    var a := t % MsPerHour;
    assert t == t / MsPerHour * MsPerHour + a;
    assert a == a / MsPerMinute * MsPerMinute + a % MsPerMinute;
    var b := t % MsPerMinute;
    assert b == b / MsPerSecond * MsPerSecond + b % MsPerSecond;
  }

  /** Milliseconds are whole centiseconds and a last digit. */
  lemma CentisecondArithmetic(t: int)
    requires t >= 0
    ensures t % MsPerSecond == t % MsPerSecond / 10 * 10 + t % 10
  {
    var r := t % MsPerSecond;
    assert t == t / MsPerSecond * MsPerSecond + r;
    assert r == r / 10 * 10 + r % 10;
    DivModUnique(t, 10, t / MsPerSecond * 100 + r / 10, r % 10);
  }

  /** `formatTime` and `formatTimeVTT` write the same characters except the
      separator before the milliseconds. */
  lemma FormatTimeVttDiffersOnlyInSeparator(t: int)
    requires t >= 0
    ensures var a, b := FormatTime(t), FormatTimeVtt(t);
      |a| == |b| && a[|a| - 4] == ',' && b[|b| - 4] == '.'
      && a[..|a| - 4] == b[..|b| - 4] && a[|a| - 3..] == b[|b| - 3..]
  {
    var x := Field(t / MsPerHour, 2) + ":" + Field(TruncRem(t, MsPerHour) / MsPerMinute, 2) + ":"
             + Field(TruncRem(t, MsPerMinute) / MsPerSecond, 2);
    var ms := TruncRem(t, MsPerSecond);
    FieldWidth(ms, 3);
    SeparatorSwap(FormatTime(t), FormatTimeVtt(t), x, Field(ms, 3));
  }

  lemma SeparatorSwap(a: string, b: string, x: string, f: string)
    requires |f| == 3 && a == x + [','] + f && b == x + ['.'] + f
    ensures |a| == |b| && a[|a| - 4] == ',' && b[|b| - 4] == '.'
      && a[..|a| - 4] == b[..|b| - 4] && a[|a| - 3..] == b[|b| - 3..]
  {
    assert a[..|a| - 4] == x && b[..|b| - 4] == x;
    assert a[|a| - 3..] == f && b[|b| - 3..] == f;
  }

  /** The layout `formatTime` and `formatTimeVTT` share, counted from the
      end: three millisecond digits, `sep`, two second digits, a colon, two
      minute digits, a colon, and at least two hour digits before them.
      Minutes and seconds start with a digit from 0 to 5. */
  predicate ClockShaped(c: string, sep: char) {
    var n := |c|;
    n >= 12 && c[n - 10] == ':' && c[n - 7] == ':' && c[n - 4] == sep
    && AllDigits(c[..n - 10]) && AllDigits(c[n - 9..n - 7]) && AllDigits(c[n - 6..n - 4]) && AllDigits(c[n - 3..])
    && c[n - 9] <= '5' && c[n - 6] <= '5'
  }

  /** For a non-negative time, the SRT and WebVTT notations have that layout. */
  lemma ClockLayout(t: int, sep: char)
    requires t >= 0
    ensures ClockShaped(Clock(t, sep), sep)
  {
    var hv, mv, sv, fv := ClockParts(t, sep);
    FieldsShaped(Clock(t, sep), hv, mv, sv, fv, sep);
  }

  /** The four fields `Clock` writes, given their values, have its layout. */
  lemma FieldsShaped(x: string, hv: nat, mv: nat, sv: nat, fv: nat, sep: char)
    requires x == Field(hv, 2) + ":" + Field(mv, 2) + ":" + Field(sv, 2) + [sep] + Field(fv, 3)
    requires mv < 60 && sv < 60 && fv < 1000
    ensures ClockShaped(x, sep)
  {
    HourField(hv);
    SixtyField(mv);
    SixtyField(sv);
    FieldWidth(fv, 3);
    LayoutOf(x, Field(hv, 2), Field(mv, 2), Field(sv, 2), sep, Field(fv, 3));
  }

  /** Hours of two digits or more, minutes and seconds of two digits starting
      from 0 to 5, and three digits of milliseconds, joined as `Clock` joins
      them, have its layout. */
  lemma LayoutOf(x: string, h: string, m: string, s: string, sep: char, f: string)
    requires x == h + ":" + m + ":" + s + [sep] + f
    requires |h| >= 2 && |m| == 2 && |s| == 2 && |f| == 3
    requires AllDigits(h) && AllDigits(m) && AllDigits(s) && AllDigits(f) && m[0] <= '5' && s[0] <= '5'
    ensures ClockShaped(x, sep)
  {
    FieldsAt(h, m, s, sep, f);
    ShapedOf(x, h, m, s, sep, f);
  }

  /** A string whose fields sit where `Clock` puts them has its layout. */
  lemma ShapedOf(c: string, h: string, m: string, s: string, sep: char, f: string)
    requires var n := |c|;
      n >= 12 && c[n - 10] == ':' && c[n - 7] == ':' && c[n - 4] == sep
      && c[..n - 10] == h && c[n - 9..n - 7] == m && c[n - 6..n - 4] == s && c[n - 3..] == f
    requires AllDigits(h) && AllDigits(m) && AllDigits(s) && AllDigits(f) && m[0] <= '5' && s[0] <= '5'
    ensures ClockShaped(c, sep)
  {
    var n := |c|;
    assert c[n - 9] == m[0] && c[n - 6] == s[0];
  }

  lemma HourField(n: nat)
    ensures |Field(n, 2)| >= 2 && AllDigits(Field(n, 2))
  {
    FieldDigits(n, 2);
  }

  /** A minute or second field is two digits, the first from 0 to 5. */
  lemma SixtyField(n: nat)
    requires n < 60
    ensures |Field(n, 2)| == 2 && AllDigits(Field(n, 2)) && Field(n, 2)[0] <= '5'
  {
    FieldDigits(n, 2);
    BelowSixty(Field(n, 2));
  }

  /** Two digits denoting less than 60 start with a digit from 0 to 5. */
  lemma BelowSixty(m: string)
    requires |m| == 2 && AllDigits(m) && DigitsValue(m) < 60
    ensures m[0] <= '5'
  {
    assert m[..1][..0] == [];
    assert DigitsValue(m) == DigitValue(m[0]) * 10 + DigitValue(m[1]);
  }

  /** Where the four fields of a time code sit, counted from its end. */
  lemma FieldsAt(h: string, m: string, s: string, sep: char, f: string)
    requires |h| >= 2 && |m| == 2 && |s| == 2 && |f| == 3
    ensures var c := h + ":" + m + ":" + s + [sep] + f; var n := |c|;
      n >= 12 && c[n - 10] == ':' && c[n - 7] == ':' && c[n - 4] == sep
      && c[..n - 10] == h && c[n - 9..n - 7] == m && c[n - 6..n - 4] == s && c[n - 3..] == f
  {
  }

  /** A field of a number below `10^width` is exactly `width` digits. */
  lemma FieldWidth(n: nat, width: nat)
    requires (width == 2 && n < 100) || (width == 3 && n < 1000)
    ensures |Field(n, width)| == width && AllDigits(Field(n, width))
  {
    FieldDigits(n, width);
  }

  /** `a:b:c` with `sep` and `d` after it reads as the time its fields add up to. */
  lemma ParseJoined(a: string, b: string, c: string, sep: char, d: string, x: int, y: int, z: int, v: int)
    requires NoSeparators(a) && NoSeparators(b) && NoSeparators(c) && NoSeparators(d)
    requires sep == ',' || sep == '.'
    requires ParseInt(a) == Some(x) && ParseInt(b) == Some(y) && ParseFloatMs(c + "." + d) == Some(z)
    requires v == x * MsPerHour + y * MsPerMinute + z
    ensures ParseTime(a + ":" + b + ":" + c + [sep] + d) == Some(v)
  {
    SplitClock(a, b, c, sep, d);
    ParseTimeOfParts(a + ":" + b + ":" + c + [sep] + d, a, b, c + "." + d);
    ReadKnown(a, b, c + "." + d, x, y, z, v);
  }

  /** `parseTime` inverts `Clock` on every non-negative time. */
  lemma ParseClock(t: int, sep: char)
    requires t >= 0 && (sep == ',' || sep == '.')
    ensures ParseTime(Clock(t, sep)) == Some(t)
  {
    var hv, mv, sv, fv := ClockParts(t, sep);
    ParseClockFields(hv, mv, sv, fv, sep, t);
  }

  /** The four fields `Clock` writes read back as the time they add up to. */
  lemma ParseClockFields(hv: nat, mv: nat, sv: nat, fv: nat, sep: char, t: int)
    requires fv < 1000 && (sep == ',' || sep == '.')
    requires t == hv * MsPerHour + mv * MsPerMinute + sv * MsPerSecond + fv
    ensures ParseTime(Field(hv, 2) + ":" + Field(mv, 2) + ":" + Field(sv, 2) + [sep] + Field(fv, 3)) == Some(t)
  {
    FieldReads(hv, 2);
    FieldReads(mv, 2);
    FieldReads(sv, 2);
    FieldReads(fv, 3);
    var z := sv * MsPerSecond + fv;
    SecondsReads(sv, fv, z);
    ParseJoined(Field(hv, 2), Field(mv, 2), Field(sv, 2), sep, Field(fv, 3), hv, mv, z, t);
  }

  /** `parseTime(formatTime(t)) == t` for every non-negative whole-millisecond time. */
  lemma ParseFormatTime(t: int)
    requires t >= 0
    ensures ParseTime(FormatTime(t)) == Some(t)
  {
    ParseClock(t, ',');
  }

  /** `parseTime(formatTimeVTT(t)) == t` for every non-negative whole-millisecond time. */
  lemma ParseFormatTimeVtt(t: int)
    requires t >= 0
    ensures ParseTime(FormatTimeVtt(t)) == Some(t)
  {
    ParseClock(t, '.');
  }

  /** `parseTime` of the ASS notation gives the time truncated to
      centiseconds, `v == t - t % 10`. */
  lemma ParseFormatTimeAss(t: int, v: int)
    requires t >= 0 && v == t - t % 10
    ensures ParseTime(FormatTimeAss(t)) == Some(v)
  {
    var hv, mv, sv, cs := AssParts(t, v);
    ParseAssFields(hv, mv, sv, cs, v);
  }

  /** The four fields `formatTimeASS` writes read back as the time they add up to. */
  lemma ParseAssFields(hv: nat, mv: nat, sv: nat, cs: nat, v: int)
    requires cs < 100 && v == hv * MsPerHour + mv * MsPerMinute + (sv * MsPerSecond + cs * 10)
    ensures ParseTime(ShowInt(hv) + ":" + Field(mv, 2) + ":" + Field(sv, 2) + ['.'] + Field(cs, 2)) == Some(v)
  {
    ShowNatReads(hv);
    FieldReads(mv, 2);
    FieldReads(sv, 2);
    FieldReads(cs, 2);
    var z := sv * MsPerSecond + cs * 10;
    CentisecondsReads(sv, cs, z);
    ParseAss(ShowInt(hv), Field(mv, 2), Field(sv, 2), Field(cs, 2), hv, mv, z, v);
  }

  /** `ParseJoined` for the period `formatTimeASS` writes. */
  lemma ParseAss(a: string, b: string, c: string, d: string, x: int, y: int, z: int, v: int)
    requires NoSeparators(a) && NoSeparators(b) && NoSeparators(c) && NoSeparators(d)
    requires ParseInt(a) == Some(x) && ParseInt(b) == Some(y) && ParseFloatMs(c + "." + d) == Some(z)
    requires v == x * MsPerHour + y * MsPerMinute + z
    ensures ParseTime(a + ":" + b + ":" + c + "." + d) == Some(v)
  {
    ParseJoined(a, b, c, '.', d, x, y, z, v);
  }

  /** The fields `formatTimeASS` writes add up to the time truncated to centiseconds. */
  lemma AssValue(t: int, v: int)
    requires t >= 0 && v == t - t % 10
    ensures v == t / MsPerHour * MsPerHour + t % MsPerHour / MsPerMinute * MsPerMinute
                 + (t % MsPerMinute / MsPerSecond * MsPerSecond + t % MsPerSecond / 10 * 10)
    ensures t % MsPerSecond / 10 < 100
  {
    ClockArithmetic(t);
    CentisecondArithmetic(t);
  }
}
