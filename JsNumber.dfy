/** The JavaScript number operations the subtitle engine relies on, on
    whole numbers: `String(n)`, `parseInt`, `parseFloat` (read to whole
    milliseconds) and the remainder operator `%`, which truncates toward
    zero. A `None` result stands for `NaN`. */
module JsNumber {
  import opened Options
  import opened JsString

  predicate IsDigit(c: char) {
    '0' <= c <= '9'
  }

  predicate AllDigits(s: string) {
    forall i :: 0 <= i < |s| ==> IsDigit(s[i])
  }

  function DigitValue(c: char): nat
    requires IsDigit(c)
  {
    c as int - '0' as int
  }

  function DigitChar(d: nat): (c: char)
    requires d < 10
    ensures IsDigit(c) && DigitValue(c) == d
  {
    ('0' as int + d) as char
  }

  /** The number a string of decimal digits denotes (0 for the empty string). */
  function DigitsValue(s: string): nat
    requires AllDigits(s)
  {
    if s == [] then 0 else DigitsValue(s[..|s| - 1]) * 10 + DigitValue(s[|s| - 1])
  }

  /** `String(n)` for a non-negative whole number: its shortest decimal digits. */
  function ShowNat(n: nat): (r: string)
    ensures |r| >= 1 && AllDigits(r)
    ensures |r| > 1 ==> r[0] != '0'
  {
    if n < 10 then [DigitChar(n)] else ShowNat(n / 10) + [DigitChar(n % 10)]
  }

  /** `String(n)` for any whole number. */
  function ShowInt(n: int): string {
    if n < 0 then "-" + ShowNat(-n) else ShowNat(n)
  }

  /** The digits `String(n)` writes denote `n`. */
  lemma {:induction false} ShowNatValue(n: nat)
    ensures DigitsValue(ShowNat(n)) == n
  {
    if n >= 10 {
      ShowNatValue(n / 10);
      var s := ShowNat(n);
      assert s[..|s| - 1] == ShowNat(n / 10);
    }
  }

  /** Distinct numbers are written differently. */
  lemma ShowNatInjective(m: nat, n: nat)
    requires ShowNat(m) == ShowNat(n)
    ensures m == n
  {
    ShowNatValue(m);
    ShowNatValue(n);
  }

  /** Leading zeros do not change the value of a digit string. */
  lemma {:induction false} LeadingZeroValue(s: string)
    requires AllDigits(s)
    ensures AllDigits("0" + s) && DigitsValue("0" + s) == DigitsValue(s)
  {
    if s != [] {
      LeadingZeroValue(s[..|s| - 1]);
      assert ("0" + s)[..|s|] == "0" + s[..|s| - 1];
    }
  }

  /** Zero padding on the left does not change the value of a digit string. */
  lemma {:induction false} PaddedValue(s: string, width: nat)
    requires AllDigits(s)
    ensures AllDigits(PadStart(s, width, '0'))
    ensures DigitsValue(PadStart(s, width, '0')) == DigitsValue(s)
    decreases width - |s|
  {
    if |s| < width {
      LeadingZeroValue(s);
      PaddedValue("0" + s, width);
      assert PadStart(s, width, '0') == PadStart("0" + s, width, '0');
    }
  }

  /** The longest prefix of `s` made of decimal digits. */
  function DigitPrefix(s: string): (r: string)
    ensures |r| <= |s| && r == s[..|r|] && AllDigits(r)
    ensures |r| == |s| || !IsDigit(s[|r|])
  {
    if s != [] && IsDigit(s[0]) then [s[0]] + DigitPrefix(s[1..]) else []
  }

  lemma DigitNotWs(c: char)
    requires IsDigit(c)
    ensures !IsWs(c)
  {
  }

  /** A string of digits is its own digit prefix. */
  lemma DigitPrefixAll(s: string)
    requires AllDigits(s)
    ensures DigitPrefix(s) == s
  {
  }

  /** The digit prefix stops at the first non-digit. */
  lemma {:induction false} DigitPrefixStops(s: string, t: string)
    requires AllDigits(s) && (t == [] || !IsDigit(t[0]))
    ensures DigitPrefix(s + t) == s
  {
    if s == [] {
      assert s + t == t;
    } else {
      DigitPrefixStops(s[1..], t);
      assert (s + t)[1..] == s[1..] + t;
      assert [s[0]] + s[1..] == s;
    }
  }

  predicate IsHexDigit(c: char) {
    IsDigit(c) || 'a' <= c <= 'f' || 'A' <= c <= 'F'
  }

  function HexDigitValue(c: char): nat
    requires IsHexDigit(c)
  {
    if IsDigit(c) then DigitValue(c)
    else if 'a' <= c <= 'f' then c as int - 'a' as int + 10
    else c as int - 'A' as int + 10
  }

  /** The longest prefix of `s` made of hexadecimal digits. */
  function HexPrefix(s: string): (r: string)
    ensures |r| <= |s| && forall i :: 0 <= i < |r| ==> IsHexDigit(r[i])
  {
    if s != [] && IsHexDigit(s[0]) then [s[0]] + HexPrefix(s[1..]) else []
  }

  function HexValue(s: string): nat
    requires forall i :: 0 <= i < |s| ==> IsHexDigit(s[i])
  {
    if s == [] then 0 else HexValue(s[..|s| - 1]) * 16 + HexDigitValue(s[|s| - 1])
  }

  function Signed(negative: bool, v: nat): int {
    var x: int := v;
    if negative then -x else x
  }

  /** The sign `parseInt` and `parseFloat` read after leading white space. */
  function IsNegative(t: string): bool {
    |t| > 0 && t[0] == '-'
  }

  /** What follows that sign. */
  function Unsigned(t: string): string {
    if |t| > 0 && (t[0] == '-' || t[0] == '+') then t[1..] else t
  }

  /** `parseInt(s)` without a radix: leading white space and one sign are
      skipped, a `0x` or `0X` prefix selects base 16, and the longest run of
      digits that follows is read; no digit at all gives `NaN`. */
  function ParseInt(s: string): Option<int> {
    var t := TrimStart(s);
    var u := Unsigned(t);
    if |u| >= 2 && u[0] == '0' && (u[1] == 'x' || u[1] == 'X') then
      var d := HexPrefix(u[2..]);
      if d == [] then None else Some(Signed(IsNegative(t), HexValue(d)))
    else
      var d := DigitPrefix(u);
      if d == [] then None else Some(Signed(IsNegative(t), DigitsValue(d)))
  }

  /** `parseInt` reads a plain string of decimal digits as the number it denotes. */
  lemma ParseIntDigits(s: string)
    requires s != [] && AllDigits(s)
    ensures ParseInt(s) == Some(DigitsValue(s))
  {
    DigitNotWs(s[0]);
    assert TrimStart(s) == s;
    assert Unsigned(s) == s;
    assert !IsNegative(s);
    DigitPrefixAll(s);
  }

  /** The first three digits of a fraction, read as milliseconds. */
  function FractionMs(frac: string): (ms: nat)
    requires AllDigits(frac)
    ensures ms < 1000
  {
    if |frac| >= 3 then
      DigitsBound(frac[..3]);
      DigitsValue(frac[..3])
    else if |frac| == 2 then
      DigitsBound(frac);
      DigitsValue(frac) * 10
    else if |frac| == 1 then
      DigitsBound(frac);
      DigitsValue(frac) * 100
    else 0
  }

  /** A digit string's value is below the power of ten its length gives. */
  lemma {:induction false} DigitsBound(s: string)
    requires AllDigits(s) && |s| <= 3
    ensures DigitsValue(s) < if |s| == 3 then 1000 else if |s| == 2 then 100 else if |s| == 1 then 10 else 1
  {
    if s != [] {
      DigitsBound(s[..|s| - 1]);
    }
  }

  /** An unsigned decimal in milliseconds: digits, optionally a `.` and more
      digits, read as far as they go; at least one digit is needed. */
  function DecimalMs(u: string): Option<nat> {
    var whole := DigitPrefix(u);
    var rest := u[|whole|..];
    var frac := if |rest| > 0 && rest[0] == '.' then DigitPrefix(rest[1..]) else [];
    if whole == [] && frac == [] then None
    else Some(DigitsValue(whole) * 1000 + FractionMs(frac))
  }

  /** `parseFloat(s)` in milliseconds: leading white space and one sign are
      skipped, then an unsigned decimal is read; without one the result is `NaN`. */
  function ParseFloatMs(s: string): Option<int> {
    var t := TrimStart(s);
    match DecimalMs(Unsigned(t))
    case None => None
    case Some(v) => Some(Signed(IsNegative(t), v))
  }

  /** The decimal `w.f` is `w` seconds and the first three digits of `f`. */
  lemma DecimalMsOf(w: string, f: string)
    requires w != [] && AllDigits(w) && AllDigits(f)
    ensures DecimalMs(w + "." + f) == Some(DigitsValue(w) * 1000 + FractionMs(f))
  {
    DigitPrefixStops(w, "." + f);
    DigitPrefixAll(f);
    assert w + "." + f == w + ("." + f);
    DecimalMsRead(w + ("." + f), w, f);
  }

  /** `DecimalMs` of a string whose digits run up to a period, followed by a
      string whose digits run to the end. */
  lemma DecimalMsRead(u: string, w: string, f: string)
    requires w != [] && DigitPrefix(u) == w && u == w + ("." + f) && DigitPrefix(f) == f
    ensures DecimalMs(u) == Some(DigitsValue(w) * 1000 + FractionMs(f))
  {
    assert u[|w|..] == "." + f;
    assert ("." + f)[1..] == f;
  }

  /** A string starting with a digit has no white space or sign to skip:
      `parseFloat` reads it as an unsigned decimal. */
  lemma ParseFloatPlain(s: string, v: nat)
    requires s != [] && IsDigit(s[0]) && DecimalMs(s) == Some(v)
    ensures ParseFloatMs(s) == Some(v)
  {
    DigitNotWs(s[0]);
    assert TrimStart(s) == s;
    assert Unsigned(s) == s;
  }

  /** `parseFloat` of `w.f`, where `w` and `f` are digits: `w` seconds and
      the first three digits of `f` as milliseconds. */
  lemma ParseFloatDecimal(w: string, f: string, v: int)
    requires w != [] && AllDigits(w) && AllDigits(f)
    requires v == DigitsValue(w) * 1000 + FractionMs(f)
    ensures ParseFloatMs(w + "." + f) == Some(v)
  {
    DecimalMsOf(w, f);
    assert IsDigit((w + "." + f)[0]) by {
      assert (w + "." + f)[0] == w[0];
    }
    ParseFloatPlain(w + "." + f, v);
  }

  /** JavaScript's `a % b` for a positive `b`: the remainder has the sign of `a`. */
  function TruncRem(a: int, b: int): (r: int)
    requires b > 0
    ensures a >= 0 ==> 0 <= r < b
    ensures a < 0 ==> -b < r <= 0
  {
    if a >= 0 then a % b else -((-a) % b)
  }
}
