/** The JavaScript string operations the subtitle engine relies on:
    `trim`, `split` on one character, `join`, `startsWith`, `includes`,
    `padStart`, `toLowerCase` (ASCII letters) and a literal, global
    `replace`. Strings are sequences of characters. */
module JsString {

  /** The characters ECMAScript counts as white space or line terminators:
      what `\s` matches in a regular expression and what `trim` removes. */
  predicate IsWs(c: char) {
    c == ' ' || c == '\t' || c == '\n' || c == '\r' || c == '\U{000B}' || c == '\U{000C}'
    || c == '\U{00A0}' || c == '\U{1680}' || ('\U{2000}' <= c <= '\U{200A}')
    || c == '\U{2028}' || c == '\U{2029}' || c == '\U{202F}' || c == '\U{205F}'
    || c == '\U{3000}' || c == '\U{FEFF}'
  }

  /** `s.trimStart()`: white space removed from the front. */
  function TrimStart(s: string): string {
    if |s| > 0 && IsWs(s[0]) then TrimStart(s[1..]) else s
  }

  /** `s.trimEnd()`: white space removed from the back. */
  function TrimEnd(s: string): string {
    if |s| > 0 && IsWs(s[|s| - 1]) then TrimEnd(s[..|s| - 1]) else s
  }

  /** `s.trim()`. */
  function Trim(s: string): string {
    TrimEnd(TrimStart(s))
  }

  /** `trimStart` keeps the longest suffix that does not start with white space. */
  lemma {:induction false} TrimStartShape(s: string)
    ensures var r := TrimStart(s);
      |r| <= |s| && r == s[|s| - |r|..] && (r == [] || !IsWs(r[0]))
      && forall i :: 0 <= i < |s| - |r| ==> IsWs(s[i])
  {
    if |s| > 0 && IsWs(s[0]) {
      var t := s[1..];
      TrimStartShape(t);
      var r := TrimStart(t);
      assert TrimStart(s) == r;
      assert t[|t| - |r|..] == s[|s| - |r|..];
      forall i | 0 <= i < |s| - |r|
        ensures IsWs(s[i])
      {
        if i > 0 {
          assert s[i] == t[i - 1];
        }
      }
    }
  }

  /** `trimEnd` keeps the longest prefix that does not end with white space. */
  lemma {:induction false} TrimEndShape(s: string)
    ensures var r := TrimEnd(s);
      |r| <= |s| && r == s[..|r|] && (r == [] || !IsWs(r[|r| - 1]))
      && forall i :: |r| <= i < |s| ==> IsWs(s[i])
  {
    if |s| > 0 && IsWs(s[|s| - 1]) {
      var t := s[..|s| - 1];
      TrimEndShape(t);
      var r := TrimEnd(t);
      assert TrimEnd(s) == r;
      assert t[..|r|] == s[..|r|];
      forall i | |r| <= i < |s|
        ensures IsWs(s[i])
      {
        if i < |s| - 1 {
          assert s[i] == t[i];
        }
      }
    }
  }

  /** Trimming keeps a string that neither starts nor ends with white space. */
  lemma TrimKeeps(s: string)
    requires s == [] || (!IsWs(s[0]) && !IsWs(s[|s| - 1]))
    ensures Trim(s) == s
  {
  }

  /** Trimming removes one trailing line break after a string that already is trimmed. */
  lemma TrimDropsFinalNewline(s: string)
    requires s != [] && !IsWs(s[0]) && !IsWs(s[|s| - 1])
    ensures Trim(s + "\n") == s
  {
    var t := s + "\n";
    assert t[0] == s[0];
    assert TrimStart(t) == t;
    assert t[..|t| - 1] == s;
    assert TrimEnd(s) == s;
    assert TrimEnd(t) == TrimEnd(s);
  }

  /** `s.split(c)` for a one-character separator. */
  function Split(s: string, c: char): (r: seq<string>)
    ensures |r| >= 1
  {
    if s == [] then [[]]
    else
      var rest := Split(s[1..], c);
      if s[0] == c then [[]] + rest else [[s[0]] + rest[0]] + rest[1..]
  }

  /** The pieces of `[x] + s` from the pieces `r` of `s`: a separator starts
      a new piece, any other character joins the first piece. */
  function ConsPiece(x: char, c: char, r: seq<string>): seq<string>
    requires |r| >= 1
  {
    if x == c then [[]] + r else [[x] + r[0]] + r[1..]
  }

  /** How `split` treats the first character. */
  lemma SplitCons(x: char, s: string, c: char)
    ensures Split([x] + s, c) == ConsPiece(x, c, Split(s, c))
  {
    assert ([x] + s)[0] == x && ([x] + s)[1..] == s;
  }

  /** Further pieces after `r` stay after it. */
  lemma ConsPieceAppend(x: char, c: char, r: seq<string>, q: seq<string>)
    requires |r| >= 1
    ensures ConsPiece(x, c, r + q) == ConsPiece(x, c, r) + q
  {
    if x != c {
      assert (r + q)[0] == r[0] && (r + q)[1..] == r[1..] + q;
    }
  }

  /** A character put in front of two strings whose splits differ by a
      tail of pieces keeps that difference. */
  lemma SplitConsStep(x: char, s: string, t: string, q: seq<string>, c: char)
    requires Split(t, c) == Split(s, c) + q
    ensures Split([x] + t, c) == Split([x] + s, c) + q
  {
    SplitCons(x, t, c);
    SplitCons(x, s, c);
    ConsPieceAppend(x, c, Split(s, c), q);
  }

  /** Splitting at one separator between two strings splits each side. */
  lemma {:induction false} SplitConcat(a: string, c: char, b: string)
    ensures Split(a + [c] + b, c) == Split(a, c) + Split(b, c)
    decreases |a|
  {
    if a == [] {
      assert a + [c] + b == [c] + b;
      SplitCons(c, b, c);
      assert Split(a, c) == [[]];
    } else {
      var a' := a[1..];
      SplitConcat(a', c, b);
      SplitConsStep(a[0], a', a' + [c] + b, Split(b, c), c);
      assert [a[0]] + a' == a && [a[0]] + (a' + [c] + b) == a + [c] + b;
    }
  }

  /** No piece of a split holds the separator. */
  lemma {:induction false} SplitPiecesFree(s: string, c: char)
    ensures forall i :: 0 <= i < |Split(s, c)| ==> c !in Split(s, c)[i]
  {
    if s != [] {
      SplitPiecesFree(s[1..], c);
    }
  }

  /** `parts.join(sep)`. */
  function Join(parts: seq<string>, sep: string): string {
    if |parts| == 0 then []
    else if |parts| == 1 then parts[0]
    else parts[0] + sep + Join(parts[1..], sep)
  }

  /** Joining the pieces of a split with the separator gives the string back. */
  lemma {:induction false} JoinSplit(s: string, c: char)
    ensures Join(Split(s, c), [c]) == s
  {
    if s != [] {
      JoinSplit(s[1..], c);
      var rest := Split(s[1..], c);
      if s[0] != c {
        if |rest| > 1 {
          assert Join(rest, [c]) == rest[0] + [c] + Join(rest[1..], [c]);
          assert [s[0]] + rest[0] + [c] + Join(rest[1..], [c]) == [s[0]] + Join(rest, [c]);
        }
        assert [s[0]] + Join(rest, [c]) == s;
      }
    }
  }

  /** Splitting at the first separator: a piece without `c`, then the rest. */
  lemma {:induction false} SplitFirst(a: string, c: char, b: string)
    requires c !in a
    ensures Split(a + [c] + b, c) == [a] + Split(b, c)
  {
    if a == [] {
      assert a + [c] + b == [c] + b;
      assert ([c] + b)[1..] == b;
    } else {
      SplitFirst(a[1..], c, b);
      assert (a + [c] + b)[1..] == a[1..] + [c] + b;
      assert [a[0]] + a[1..] == a;
    }
  }

  /** A string without the separator splits into itself alone. */
  lemma {:induction false} SplitNone(a: string, c: char)
    requires c !in a
    ensures Split(a, c) == [a]
  {
    if a != [] {
      SplitNone(a[1..], c);
      assert [a[0]] + a[1..] == a;
    }
  }

  /** Splitting a join of separator-free pieces gives the pieces back. */
  lemma {:induction false} SplitJoin(parts: seq<string>, c: char)
    requires |parts| >= 1
    requires forall i :: 0 <= i < |parts| ==> c !in parts[i]
    ensures Split(Join(parts, [c]), c) == parts
  {
    if |parts| == 1 {
      SplitNone(parts[0], c);
    } else {
      SplitJoin(parts[1..], c);
      SplitFirst(parts[0], c, Join(parts[1..], [c]));
      assert [parts[0]] + parts[1..] == parts;
    }
  }

  /** `s.startsWith(p)`. */
  predicate StartsWith(s: string, p: string) {
    |p| <= |s| && s[..|p|] == p
  }

  /** `f` occurs in `s` starting at position `i`. */
  predicate OccursAt(s: string, f: string, i: nat) {
    i + |f| <= |s| && s[i..i + |f|] == f
  }

  /** An occurrence after the first position is an occurrence in the tail. */
  lemma OccursShift(s: string, f: string, i: nat)
    requires 1 <= i && s != []
    ensures OccursAt(s, f, i) <==> OccursAt(s[1..], f, i - 1)
  {
    if i + |f| <= |s| {
      assert s[1..][i - 1..i - 1 + |f|] == s[i..i + |f|];
    }
  }

  /** `s.includes(f)`. */
  function Includes(s: string, f: string): (r: bool)
    decreases |s|
    ensures r <==> exists i :: 0 <= i <= |s| && OccursAt(s, f, i)
  {
    if StartsWith(s, f) then
      assert OccursAt(s, f, 0);
      true
    else if s == [] then false
    else
      OccursTail(s, f);
      Includes(s[1..], f)
  }

  /** Without an occurrence at the front, the occurrences of `f` in `s` are those in its tail. */
  lemma OccursTail(s: string, f: string)
    requires s != [] && !StartsWith(s, f)
    ensures (exists i :: 0 <= i <= |s| && OccursAt(s, f, i)) <==> (exists j :: 0 <= j <= |s[1..]| && OccursAt(s[1..], f, j))
  {
    if i :| 0 <= i <= |s| && OccursAt(s, f, i) {
      assert i != 0;
      OccursShift(s, f, i);
    }
    if j :| 0 <= j <= |s[1..]| && OccursAt(s[1..], f, j) {
      OccursShift(s, f, j + 1);
    }
  }

  /** Every string includes the empty string. */
  lemma IncludesEmpty(s: string)
    ensures Includes(s, [])
  {
    assert OccursAt(s, [], 0);
  }

  /** `s.padStart(width, fill)` with a one-character `fill`. */
  function PadStart(s: string, width: nat, fill: char): (r: string)
    ensures |r| == if |s| < width then width else |s|
    decreases width - |s|
  {
    if |s| < width then PadStart([fill] + s, width, fill) else s
  }

  /** Padding puts `fill` characters in front of `s`. */
  lemma {:induction false} PadStartShape(s: string, width: nat, fill: char)
    ensures var r := PadStart(s, width, fill);
      r[|r| - |s|..] == s && forall i :: 0 <= i < |r| - |s| ==> r[i] == fill
    decreases width - |s|
  {
    if |s| < width {
      PadStartShape([fill] + s, width, fill);
    }
  }

  /** `c.toLowerCase()` for ASCII letters. */
  function LowerChar(c: char): char {
    if 'A' <= c <= 'Z' then (c as int + 32) as char else c
  }

  /** `s.toLowerCase()`, restricted to ASCII letters. */
  function Lower(s: string): (r: string)
    ensures |r| == |s| && forall i :: 0 <= i < |s| ==> r[i] == LowerChar(s[i])
  {
    seq(|s|, i requires 0 <= i < |s| => LowerChar(s[i]))
  }

  /** Lower-casing maps each capital ASCII letter to its small letter, keeps
      every other character, leaves no capital ASCII letter behind, and
      lower-casing again changes nothing. */
  lemma LowerSpec(s: string)
    ensures |Lower(s)| == |s|
    ensures forall i :: 0 <= i < |s| ==> !('A' <= Lower(s)[i] <= 'Z')
    ensures forall i :: 0 <= i < |s| && !('A' <= s[i] <= 'Z') ==> Lower(s)[i] == s[i]
    ensures forall i :: 0 <= i < |s| && 'A' <= s[i] <= 'Z' ==> 'a' <= Lower(s)[i] <= 'z' && Lower(s)[i] as int == s[i] as int + 32
    ensures Lower(Lower(s)) == Lower(s)
  {
    var r := Lower(s);
    forall i | 0 <= i < |s|
      ensures Lower(r)[i] == r[i]
    {
      assert !('A' <= r[i] <= 'Z');
    }
  }

  /** How many UTF-16 code units a character takes: two above U+FFFF. */
  function CodeUnits(c: char): nat {
    if c as int > 0xFFFF then 2 else 1
  }

  /** `s.length`: the number of UTF-16 code units of `s`. */
  function Utf16Length(s: string): nat
    decreases |s|
  {
    if s == [] then 0 else CodeUnits(s[0]) + Utf16Length(s[1..])
  }

  /** `length` counts every character once or twice: exactly once for a
      string without characters above U+FFFF, and a text grows by the length
      of what is appended. */
  lemma {:induction false} Utf16LengthSpec(s: string)
    ensures |s| <= Utf16Length(s) <= 2 * |s|
    ensures (forall i :: 0 <= i < |s| ==> s[i] as int <= 0xFFFF) ==> Utf16Length(s) == |s|
    ensures (exists i :: 0 <= i < |s| && s[i] as int > 0xFFFF) ==> Utf16Length(s) > |s|
    decreases |s|
  {
    if s != [] {
      Utf16LengthSpec(s[1..]);
      assert forall i :: 1 <= i < |s| ==> s[i] == s[1..][i - 1];
    }
  }

  /** The length of a concatenation is the sum of the lengths. */
  lemma {:induction false} Utf16LengthConcat(a: string, b: string)
    ensures Utf16Length(a + b) == Utf16Length(a) + Utf16Length(b)
    decreases |a|
  {
    if a != [] {
      Utf16LengthConcat(a[1..], b);
      assert (a + b)[0] == a[0] && (a + b)[1..] == a[1..] + b;
    } else {
      assert a + b == b;
    }
  }

  /** `s.indexOf(c)`: the first position of `c`, or -1. */
  function IndexOf(s: string, c: char): (k: int)
    ensures -1 <= k < |s|
  {
    if s == [] then -1
    else if s[0] == c then 0
    else
      var k := IndexOf(s[1..], c);
      if k == -1 then -1 else k + 1
  }

  /** `indexOf` finds the first occurrence, and -1 exactly when there is none. */
  lemma {:induction false} IndexOfSpec(s: string, c: char)
    ensures var k := IndexOf(s, c);
      (k == -1 <==> c !in s) && (k >= 0 ==> s[k] == c && c !in s[..k])
  {
    if s != [] && s[0] != c {
      IndexOfSpec(s[1..], c);
      var k := IndexOf(s[1..], c);
      if k >= 0 {
        assert s[..k + 1] == [s[0]] + s[1..][..k];
      }
      assert s == [s[0]] + s[1..];
    }
  }

  /** The first `c` in `x + [c] + y`, when `x` holds none, is the one after `x`. */
  lemma IndexOfFirst(x: string, c: char, y: string)
    requires c !in x
    ensures IndexOf(x + [c] + y, c) == |x|
  {
    var s := x + [c] + y;
    IndexOfSpec(s, c);
    var k := IndexOf(s, c);
    assert s[|x|] == c;
    assert forall i :: 0 <= i < |x| ==> s[i] == x[i];
  }

  /** How many times `c` occurs in `s`. */
  function CountChar(s: string, c: char): nat {
    if s == [] then 0 else (if s[0] == c then 1 else 0) + CountChar(s[1..], c)
  }

  /** Counting distributes over concatenation. */
  lemma {:induction false} CountCharConcat(a: string, b: string, c: char)
    ensures CountChar(a + b, c) == CountChar(a, c) + CountChar(b, c)
  {
    if a != [] {
      CountCharConcat(a[1..], b, c);
      assert (a + b)[1..] == a[1..] + b;
    } else {
      assert a + b == b;
    }
  }

  /** Splitting on `c` gives one more piece than there are `c`s. */
  lemma {:induction false} SplitCount(s: string, c: char)
    ensures |Split(s, c)| == CountChar(s, c) + 1
  {
    if s != [] {
      SplitCount(s[1..], c);
    }
  }

  /** `s.replace(c, d)` with one-character strings: only the first `c` is replaced. */
  function ReplaceFirst(s: string, c: char, d: char): string {
    var k := IndexOf(s, c);
    if k < 0 then s else s[..k] + [d] + s[k + 1..]
  }

  /** Without an occurrence there is nothing to replace. */
  lemma ReplaceFirstAbsent(s: string, c: char, d: char)
    requires c !in s
    ensures ReplaceFirst(s, c, d) == s
  {
    IndexOfSpec(s, c);
  }

  /** Replacing one character by another keeps the count of every third character. */
  lemma ReplaceFirstCount(s: string, c: char, d: char, e: char)
    requires e != c && e != d
    ensures CountChar(ReplaceFirst(s, c, d), e) == CountChar(s, e)
  {
    IndexOfSpec(s, c);
    var k := IndexOf(s, c);
    if k >= 0 {
      assert s == s[..k] + [s[k]] + s[k + 1..];
      CountCharConcat(s[..k] + [s[k]], s[k + 1..], e);
      CountCharConcat(s[..k], [s[k]], e);
      CountCharConcat(s[..k] + [d], s[k + 1..], e);
      CountCharConcat(s[..k], [d], e);
    }
  }

  /** A global, literal `s.replace(find, rep)`: scanning from the left, every
      occurrence of `find` that does not overlap an earlier one is replaced. */
  function ReplaceAll(s: string, find: string, rep: string): string
    requires find != []
    decreases |s|
  {
    if |s| < |find| then s
    else if s[..|find|] == find then rep + ReplaceAll(s[|find|..], find, rep)
    else [s[0]] + ReplaceAll(s[1..], find, rep)
  }

  /** The number of occurrences `ReplaceAll` replaces. */
  function Occurrences(s: string, find: string): nat
    requires find != []
    decreases |s|
  {
    if |s| < |find| then 0
    else if s[..|find|] == find then 1 + Occurrences(s[|find|..], find)
    else Occurrences(s[1..], find)
  }

  /** A string that does not include `find` is left as it is, and it holds no occurrence. */
  lemma {:induction false} ReplaceAllAbsent(s: string, find: string, rep: string)
    requires find != [] && !Includes(s, find)
    ensures ReplaceAll(s, find, rep) == s && Occurrences(s, find) == 0
  {
    if |s| >= |find| {
      assert !OccursAt(s, find, 0);
      assert !Includes(s[1..], find) by {
        forall i | 0 <= i <= |s[1..]| ensures !OccursAt(s[1..], find, i) {
          OccursShift(s, find, i + 1);
        }
      }
      ReplaceAllAbsent(s[1..], find, rep);
    }
  }

  /** A string that includes `find` holds at least one occurrence to replace. */
  lemma {:induction false} OccurrencesPresent(s: string, find: string)
    requires find != [] && Includes(s, find)
    ensures Occurrences(s, find) >= 1
  {
    var i :| 0 <= i <= |s| && OccursAt(s, find, i);
    if s[..|find|] != find {
      assert i != 0;
      OccursShift(s, find, i);
      OccurrencesPresent(s[1..], find);
    }
  }

  /** Replacing `find` by itself changes nothing. */
  lemma {:induction false} ReplaceAllSelf(s: string, find: string)
    requires find != []
    ensures ReplaceAll(s, find, find) == s
  {
    if |s| >= |find| {
      if s[..|find|] == find {
        ReplaceAllSelf(s[|find|..], find);
        assert s[..|find|] + s[|find|..] == s;
      } else {
        ReplaceAllSelf(s[1..], find);
        assert [s[0]] + s[1..] == s;
      }
    }
  }

  /** Each replacement changes the length by `|rep| - |find|`. */
  lemma {:induction false} ReplaceAllLength(s: string, find: string, rep: string)
    requires find != []
    ensures |ReplaceAll(s, find, rep)| == |s| + Occurrences(s, find) * (|rep| - |find|)
  {
    if |s| >= |find| {
      if s[..|find|] == find {
        ReplaceAllLength(s[|find|..], find, rep);
        var k := Occurrences(s[|find|..], find);
        MulSucc(k, |rep| - |find|);
      } else {
        ReplaceAllLength(s[1..], find, rep);
      }
    }
  }

  lemma MulSucc(k: int, d: int)
    ensures (1 + k) * d == k * d + d
  {
  }

  /** Putting `x` in front of the first part puts it in front of the join. */
  lemma JoinPrepend(x: string, parts: seq<string>, sep: string)
    requires |parts| >= 1
    ensures Join([x + parts[0]] + parts[1..], sep) == x + Join(parts, sep)
  {
    var q := [x + parts[0]] + parts[1..];
    if |parts| > 1 {
      assert q[1..] == parts[1..];
    }
  }

  /** Replacing every occurrence of one character is splitting on it and
      joining the pieces with the replacement. */
  lemma {:induction false} ReplaceCharIsJoin(s: string, c: char, rep: string)
    ensures ReplaceAll(s, [c], rep) == Join(Split(s, c), rep)
  {
    if s != [] {
      ReplaceCharIsJoin(s[1..], c, rep);
      var rest := Split(s[1..], c);
      if s[0] == c {
        assert s[..1] == [c];
        assert ([[]] + rest)[1..] == rest;
      } else {
        assert s[..1] != [c];
        JoinPrepend([s[0]], rest, rep);
      }
    }
  }

  /** A join holds a character only if a part or the separator does. */
  lemma {:induction false} JoinFree(parts: seq<string>, sep: string, c: char)
    requires c !in sep && forall i :: 0 <= i < |parts| ==> c !in parts[i]
    ensures c !in Join(parts, sep)
  {
    if |parts| > 1 {
      JoinFree(parts[1..], sep, c);
    }
  }
}
