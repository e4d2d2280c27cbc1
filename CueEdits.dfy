/** The list transformations behind the editing handlers of
    `src/components/subtitle-editor/SubtitleEditor.tsx`: each takes the cue
    list (and the selected ids) and gives the new list. Times are whole
    milliseconds; fresh ids are parameters. */
module CueEdits {
  import opened Options
  import opened JsString
  import opened Subtitles
  import opened Lists

  // ---- Renumbering -------------------------------------------------------

  /** `{ ...s, index: i }`. */
  function WithIndex(s: Subtitle, i: nat): Subtitle {
    s.(index := i)
  }

  /** `.map((s, i) => ({ ...s, index: i }))`. */
  function Reindex(xs: seq<Subtitle>): seq<Subtitle> {
    MapIndexed(xs, WithIndex, 0)
  }

  /** Every cue's `index` is its position in the list. */
  predicate Indexed(xs: seq<Subtitle>) {
    forall i :: 0 <= i < |xs| ==> xs[i].index == i
  }

  /** Renumbering keeps every cue in its place and changes only its `index`,
      which becomes its position. */
  lemma ReindexSpec(xs: seq<Subtitle>)
    ensures var r := Reindex(xs);
      |r| == |xs| && Indexed(r) && forall i :: 0 <= i < |xs| ==> r[i] == xs[i].(index := i)
  {
    var r := Reindex(xs);
    forall i | 0 <= i < |xs|
      ensures r[i] == xs[i].(index := i)
    {
      MapIndexedFromStart(xs, WithIndex, i);
    }
  }

  // ---- handleSubtitleUpdate ----------------------------------------------

  /** `prev.map((s) => (s.id === u.id ? u : s))`. */
  function UpdateById(xs: seq<Subtitle>, u: Subtitle): seq<Subtitle> {
    Map(xs, (s: Subtitle) => if s.id == u.id then u else s)
  }

  /** Every cue with the id of `u` becomes `u`; the others stay as they were. */
  lemma UpdateByIdSpec(xs: seq<Subtitle>, u: Subtitle)
    ensures var r := UpdateById(xs, u);
      |r| == |xs| && forall i :: 0 <= i < |xs| ==> r[i] == if xs[i].id == u.id then u else xs[i]
  {
    forall i | 0 <= i < |xs|
      ensures UpdateById(xs, u)[i] == if xs[i].id == u.id then u else xs[i]
    {
      MapAt(xs, (s: Subtitle) => if s.id == u.id then u else s, i);
    }
  }

  /** Updating twice with the same cue is updating once. */
  lemma UpdateByIdIdempotent(xs: seq<Subtitle>, u: Subtitle)
    ensures UpdateById(UpdateById(xs, u), u) == UpdateById(xs, u)
  {
    var r := UpdateById(xs, u);
    UpdateByIdSpec(xs, u);
    UpdateByIdSpec(r, u);
  }

  /** An update whose id no cue carries changes nothing. */
  lemma UpdateByIdAbsent(xs: seq<Subtitle>, u: Subtitle)
    requires forall i :: 0 <= i < |xs| ==> xs[i].id != u.id
    ensures UpdateById(xs, u) == xs
  {
    UpdateByIdSpec(xs, u);
  }

  // ---- handleSubtitleSplit -----------------------------------------------

  /** `prev.findIndex((s) => s.id === id)`: the first position with that id, or -1. */
  function FindIndex(xs: seq<Subtitle>, id: string): (k: int)
    ensures -1 <= k < |xs|
  {
    if xs == [] then -1
    else if xs[0].id == id then 0
    else
      var k := FindIndex(xs[1..], id);
      if k == -1 then -1 else k + 1
  }

  lemma {:induction false} FindIndexSpec(xs: seq<Subtitle>, id: string)
    ensures var k := FindIndex(xs, id);
      (k == -1 <==> forall i :: 0 <= i < |xs| ==> xs[i].id != id)
      && (k >= 0 ==> xs[k].id == id && forall i :: 0 <= i < k ==> xs[i].id != id)
  {
    if xs != [] && xs[0].id != id {
      FindIndexSpec(xs[1..], id);
      var k := FindIndex(xs[1..], id);
      assert forall i :: 1 <= i < |xs| ==> xs[i] == xs[1..][i - 1];
    }
  }

  /** `xs.splice(k, 1, first, second)` on a copy: at most one cue at the start
      position is replaced by the two parts. */
  function SpliceTwo(xs: seq<Subtitle>, k: int, first: Subtitle, second: Subtitle): seq<Subtitle> {
    var p := Relative(|xs|, k);
    var removed := if p < |xs| then 1 else 0;
    xs[..p] + [first, second] + xs[p + removed..]
  }

  /** The two halves of `sub` cut at `t`, with the fresh ids `id1` and `id2`. */
  function FirstPart(sub: Subtitle, t: int, id1: string): Subtitle {
    sub.(endTime := t, id := id1)
  }

  function SecondPart(sub: Subtitle, t: int, id2: string): Subtitle {
    sub.(startTime := t, id := id2, index := sub.index + 1)
  }

  /** `handleSubtitleSplit(sub, t)`: rejected unless `t` lies strictly inside
      the cue; otherwise the list position of `sub`'s id receives the two
      halves, and the list is renumbered. */
  function SplitCue(xs: seq<Subtitle>, sub: Subtitle, t: int, id1: string, id2: string): seq<Subtitle> {
    if t <= sub.startTime || t >= sub.endTime then xs
    else Reindex(SpliceTwo(xs, FindIndex(xs, sub.id), FirstPart(sub, t, id1), SecondPart(sub, t, id2)))
  }

  /** A split time outside the cue leaves the list unchanged. */
  lemma SplitRejected(xs: seq<Subtitle>, sub: Subtitle, t: int, id1: string, id2: string)
    ensures SplitCue(xs, sub, t, id1, id2) == xs <== t <= sub.startTime || t >= sub.endTime
  {
  }

  /** Splitting a cue of the list at a time strictly inside it: the list
      grows by one; at the cue's position stand its first half, up to `t`,
      and its second half, from `t`, both with the cue's text and fresh ids;
      the other cues keep their order and change only in `index`, which is
      the position everywhere. */
  lemma SplitPresent(xs: seq<Subtitle>, sub: Subtitle, t: int, id1: string, id2: string)
    requires sub.startTime < t < sub.endTime
    requires exists i :: 0 <= i < |xs| && xs[i].id == sub.id
    ensures var r := SplitCue(xs, sub, t, id1, id2);
      var k := FindIndex(xs, sub.id);
      0 <= k < |xs| && xs[k].id == sub.id && |r| == |xs| + 1 && Indexed(r)
      && r[k] == Subtitle(id1, sub.startTime, t, sub.text, k)
      && r[k + 1] == Subtitle(id2, t, sub.endTime, sub.text, k + 1)
      && (forall i :: 0 <= i < k ==> r[i] == xs[i].(index := i))
      && (forall i :: k + 1 < i < |r| ==> r[i] == xs[i - 1].(index := i))
  {
    FindIndexSpec(xs, sub.id);
    var k := FindIndex(xs, sub.id);
    var a, b := FirstPart(sub, t, id1), SecondPart(sub, t, id2);
    assert SpliceTwo(xs, k, a, b) == xs[..k] + [a, b] + xs[k + 1..];
    ReindexSplice(xs, k, a, b);
  }

  /** Renumbering a list where two cues replace the one at `k`. */
  lemma ReindexSplice(xs: seq<Subtitle>, k: nat, a: Subtitle, b: Subtitle)
    requires k < |xs|
    ensures var r := Reindex(xs[..k] + [a, b] + xs[k + 1..]);
      |r| == |xs| + 1 && Indexed(r)
      && r[k] == a.(index := k) && r[k + 1] == b.(index := k + 1)
      && (forall i :: 0 <= i < k ==> r[i] == xs[i].(index := i))
      && (forall i :: k + 1 < i < |r| ==> r[i] == xs[i - 1].(index := i))
  {
    var s := xs[..k] + [a, b] + xs[k + 1..];
    ReindexSpec(s);
    assert forall i :: k + 1 < i < |s| ==> s[i] == xs[i - 1];
  }

  /** When no cue carries `sub`'s id, `findIndex` gives -1 and `splice(-1, …)`
      replaces the last cue of a non-empty list by the two halves. */
  lemma SplitAbsent(xs: seq<Subtitle>, sub: Subtitle, t: int, id1: string, id2: string)
    requires sub.startTime < t < sub.endTime
    requires xs != [] && forall i :: 0 <= i < |xs| ==> xs[i].id != sub.id
    ensures SplitCue(xs, sub, t, id1, id2)
      == Reindex(xs[..|xs| - 1] + [FirstPart(sub, t, id1), SecondPart(sub, t, id2)])
  {
    FindIndexSpec(xs, sub.id);
    assert FindIndex(xs, sub.id) == -1;
    assert Relative(|xs|, -1) == |xs| - 1;
    assert xs[|xs|..] == [];
    assert SpliceTwo(xs, -1, FirstPart(sub, t, id1), SecondPart(sub, t, id2))
      == xs[..|xs| - 1] + [FirstPart(sub, t, id1), SecondPart(sub, t, id2)];
  }

  // ---- Filtering by id ---------------------------------------------------

  /** `prev.filter((s) => !ids.includes(s.id))`. */
  function Drop(xs: seq<Subtitle>, ids: set<string>): seq<Subtitle> {
    if xs == [] then []
    else (if xs[0].id in ids then [] else [xs[0]]) + Drop(xs[1..], ids)
  }

  /** How many cues carry an id of `ids`. */
  function CountIds(xs: seq<Subtitle>, ids: set<string>): nat {
    if xs == [] then 0
    else (if xs[0].id in ids then 1 else 0) + CountIds(xs[1..], ids)
  }

  /** The filter keeps exactly the cues whose id is not in `ids`, and drops
      as many cues as carry such an id. */
  lemma {:induction false} DropSpec(xs: seq<Subtitle>, ids: set<string>)
    ensures var r := Drop(xs, ids);
      |r| == |xs| - CountIds(xs, ids)
      && forall x :: x in r <==> x in xs && x.id !in ids
  {
    if xs != [] {
      DropSpec(xs[1..], ids);
      assert xs == [xs[0]] + xs[1..];
    }
  }

  /** The filter keeps the order: filtering a concatenation filters each part. */
  lemma {:induction false} DropConcat(a: seq<Subtitle>, b: seq<Subtitle>, ids: set<string>)
    ensures Drop(a + b, ids) == Drop(a, ids) + Drop(b, ids)
  {
    if a != [] {
      DropConcat(a[1..], b, ids);
      assert (a + b)[1..] == a[1..] + b;
    } else {
      assert a + b == b;
    }
  }

  // ---- handleSubtitleDelete ----------------------------------------------

  /** `handleSubtitleDelete(id)`: the cues with that id leave the list, which
      is renumbered. */
  function DeleteCue(xs: seq<Subtitle>, id: string): seq<Subtitle> {
    Reindex(Drop(xs, {id}))
  }

  /** Deleting removes exactly the cues with that id, keeps the others in
      order, and numbers them by position. */
  lemma DeleteSpec(xs: seq<Subtitle>, id: string)
    ensures var r := DeleteCue(xs, id);
      var kept := Drop(xs, {id});
      |r| == |xs| - CountIds(xs, {id}) && Indexed(r)
      && (forall i :: 0 <= i < |r| ==> r[i] == kept[i].(index := i) && r[i].id != id)
      && (forall x :: x in kept <==> x in xs && x.id != id)
  {
    var kept := Drop(xs, {id});
    DropSpec(xs, {id});
    ReindexSpec(kept);
    forall i | 0 <= i < |kept|
      ensures kept[i].id != id
    {
      assert kept[i] in kept;
    }
  }

  // ---- handleSubtitlesMerge ----------------------------------------------

  /** `{ ...a, endTime: b.endTime, text: a.text + '\n' + b.text }`. */
  function Merged(a: Subtitle, b: Subtitle): Subtitle {
    a.(endTime := b.endTime, text := a.text + "\n" + b.text)
  }

  predicate SortedByStart(xs: seq<Subtitle>) {
    forall i, j :: 0 <= i < j < |xs| ==> xs[i].startTime <= xs[j].startTime
  }

  /** `x` placed after every cue that does not start later than it. */
  function InsertByStart(xs: seq<Subtitle>, x: Subtitle): seq<Subtitle>
    decreases |xs|
  {
    if xs == [] || xs[|xs| - 1].startTime <= x.startTime then xs + [x]
    else InsertByStart(xs[..|xs| - 1], x) + [xs[|xs| - 1]]
  }

  /** `.sort((a, b) => a.startTime - b.startTime)`, which is stable. */
  function SortByStart(xs: seq<Subtitle>): seq<Subtitle>
    decreases |xs|
  {
    if xs == [] then [] else InsertByStart(SortByStart(xs[..|xs| - 1]), xs[|xs| - 1])
  }

  /** The cues of `xs` that start at `v`, in order. */
  function StartingAt(xs: seq<Subtitle>, v: int): seq<Subtitle>
    decreases |xs|
  {
    if xs == [] then []
    else StartingAt(xs[..|xs| - 1], v) + (if xs[|xs| - 1].startTime == v then [xs[|xs| - 1]] else [])
  }

  lemma {:induction false} InsertByStartSpec(xs: seq<Subtitle>, x: Subtitle)
    requires SortedByStart(xs)
    ensures var r := InsertByStart(xs, x);
      SortedByStart(r) && multiset(r) == multiset(xs) + multiset{x}
    decreases |xs|
  {
    if xs == [] || xs[|xs| - 1].startTime <= x.startTime {
      SortedAppend(xs, x);
    } else {
      var init, last := xs[..|xs| - 1], xs[|xs| - 1];
      assert xs == init + [last];
      InsertByStartSpec(init, x);
      var r0 := InsertByStart(init, x);
      assert StartsNoLater(init + [x], last.startTime);
      assert multiset(r0) == multiset(init + [x]);
      StartsNoLaterPermuted(init + [x], r0, last.startTime);
      SortedAppend(r0, last);
    }
  }

  /** Every cue of `xs` starts at `v` or earlier. */
  predicate StartsNoLater(xs: seq<Subtitle>, v: int) {
    forall i :: 0 <= i < |xs| ==> xs[i].startTime <= v
  }

  lemma SortedAppend(xs: seq<Subtitle>, y: Subtitle)
    requires SortedByStart(xs) && StartsNoLater(xs, y.startTime)
    ensures SortedByStart(xs + [y])
  {
  }

  lemma StartsNoLaterPermuted(a: seq<Subtitle>, b: seq<Subtitle>, v: int)
    requires StartsNoLater(a, v) && multiset(b) == multiset(a)
    ensures StartsNoLater(b, v)
  {
    forall i | 0 <= i < |b|
      ensures b[i].startTime <= v
    {
      assert b[i] in multiset(b);
      assert b[i] in a;
    }
  }

  /** Inserting keeps the cues of every start time in their order, `x` last. */
  lemma {:induction false} InsertByStartStable(xs: seq<Subtitle>, x: Subtitle, v: int)
    ensures StartingAt(InsertByStart(xs, x), v) == StartingAt(xs, v) + (if x.startTime == v then [x] else [])
    decreases |xs|
  {
    if xs == [] || xs[|xs| - 1].startTime <= x.startTime {
      StartingAtSnoc(xs, x, v);
    } else {
      var init, last := xs[..|xs| - 1], xs[|xs| - 1];
      InsertByStartStable(init, x, v);
      StartingAtSnoc(InsertByStart(init, x), last, v);
      var early := if x.startTime == v then [x] else [];
      var late := if last.startTime == v then [last] else [];
      SwapOneEmpty(StartingAt(init, v), early, late);
    }
  }

  /** Two additions of which one is empty can be made in either order. */
  lemma SwapOneEmpty<T>(a: seq<T>, b: seq<T>, c: seq<T>)
    requires b == [] || c == []
    ensures a + b + c == a + c + b
  {
    if b == [] {
      assert a + b == a;
      assert a + c + b == a + c;
    } else {
      assert a + c == a;
      assert a + b + c == a + b;
    }
  }

  /** The cues of one start time in a list with one more cue at its end. */
  lemma StartingAtSnoc(ys: seq<Subtitle>, y: Subtitle, v: int)
    ensures StartingAt(ys + [y], v) == StartingAt(ys, v) + (if y.startTime == v then [y] else [])
  {
    assert (ys + [y])[..|ys|] == ys;
  }

  /** Sorting gives a sorted permutation that keeps the order of cues with
      equal start times. */
  lemma {:induction false} SortByStartSpec(xs: seq<Subtitle>)
    ensures var r := SortByStart(xs);
      SortedByStart(r) && multiset(r) == multiset(xs)
      && forall v :: StartingAt(r, v) == StartingAt(xs, v)
    decreases |xs|
  {
    if xs != [] {
      var init, last := xs[..|xs| - 1], xs[|xs| - 1];
      assert xs == init + [last];
      SortByStartSpec(init);
      InsertByStartSpec(SortByStart(init), last);
      forall v
        ensures StartingAt(SortByStart(xs), v) == StartingAt(xs, v)
      {
        InsertByStartStable(SortByStart(init), last, v);
      }
    }
  }

  /** `handleSubtitlesMerge(a, b)`: both cues leave the list, the merged cue
      joins it, the list is sorted by start time and renumbered. */
  function MergeCues(xs: seq<Subtitle>, a: Subtitle, b: Subtitle): seq<Subtitle> {
    Reindex(SortByStart(Drop(xs, {a.id, b.id}) + [Merged(a, b)]))
  }

  /** The merge result holds the merged cue (with `a`'s id and start, `b`'s
      end and both texts) and the cues of neither id, sorted stably by start
      time and numbered by position; when each id is carried by exactly one
      cue and they differ, the list shrinks by one. */
  lemma MergeSpec(xs: seq<Subtitle>, a: Subtitle, b: Subtitle)
    ensures var r := MergeCues(xs, a, b);
      var pool := Drop(xs, {a.id, b.id}) + [Merged(a, b)];
      var sorted := SortByStart(pool);
      |r| == |pool| && Indexed(r) && SortedByStart(r)
      && multiset(sorted) == multiset(pool)
      && (forall v :: StartingAt(sorted, v) == StartingAt(pool, v))
      && (forall i :: 0 <= i < |r| ==> r[i] == sorted[i].(index := i))
    ensures Merged(a, b) == Subtitle(a.id, a.startTime, b.endTime, a.text + "\n" + b.text, a.index)
    ensures a.id != b.id && CountIds(xs, {a.id, b.id}) == 2 ==> |MergeCues(xs, a, b)| == |xs| - 1
  {
    var pool := Drop(xs, {a.id, b.id}) + [Merged(a, b)];
    var sorted := SortByStart(pool);
    SortByStartSpec(pool);
    DropSpec(xs, {a.id, b.id});
    ReindexSpec(sorted);
    assert |sorted| == |multiset(sorted)| == |pool|;
  }

  // ---- handleSubtitleSelect ----------------------------------------------

  /** `prev.filter((x) => x !== id)`. */
  function RemoveId(sel: seq<string>, id: string): (r: seq<string>) {
    if sel == [] then []
    else (if sel[0] == id then [] else [sel[0]]) + RemoveId(sel[1..], id)
  }

  lemma {:induction false} RemoveIdSpec(sel: seq<string>, id: string)
    ensures var r := RemoveId(sel, id);
      (forall x :: x in r <==> x in sel && x != id)
      && (NoDuplicates(sel) ==> NoDuplicates(r))
      && (id !in sel ==> r == sel)
  {
    if sel != [] {
      RemoveIdSpec(sel[1..], id);
      assert sel == [sel[0]] + sel[1..];
      if NoDuplicates(sel) {
        assert NoDuplicates(sel[1..]);
        assert sel[0] !in sel[1..];
        var r := RemoveId(sel, id);
        var rest := RemoveId(sel[1..], id);
        assert sel[0] !in rest;
        assert NoDuplicates(r);
      }
    }
  }

  predicate NoDuplicates(sel: seq<string>) {
    forall i, j :: 0 <= i < j < |sel| ==> sel[i] != sel[j]
  }

  /** The multi-select branch: an id already selected leaves the selection,
      any other id is appended. */
  function Toggle(sel: seq<string>, id: string): seq<string> {
    if id in sel then RemoveId(sel, id) else sel + [id]
  }

  /** Toggling flips the membership of `id` and of no other id, and adds no
      duplicate. */
  lemma ToggleSpec(sel: seq<string>, id: string)
    ensures var r := Toggle(sel, id);
      (id in r <==> id !in sel)
      && (forall x :: x != id ==> (x in r <==> x in sel))
      && (NoDuplicates(sel) ==> NoDuplicates(r))
  {
    RemoveIdSpec(sel, id);
  }

  /** Toggling twice restores the selection's members; when the id was not
      selected, it restores the selection itself. */
  lemma ToggleTwice(sel: seq<string>, id: string)
    ensures forall x :: x in Toggle(Toggle(sel, id), id) <==> x in sel
    ensures id !in sel ==> Toggle(Toggle(sel, id), id) == sel
  {
    ToggleSpec(sel, id);
    ToggleSpec(Toggle(sel, id), id);
    if id !in sel {
      RemoveIdAppended(sel, id);
    }
  }

  lemma {:induction false} RemoveIdAppended(sel: seq<string>, id: string)
    requires id !in sel
    ensures RemoveId(sel + [id], id) == sel
  {
    if sel == [] {
      assert [] + [id] == [id];
    } else {
      RemoveIdAppended(sel[1..], id);
      assert (sel + [id])[1..] == sel[1..] + [id];
      assert sel == [sel[0]] + sel[1..];
    }
  }

  // ---- handleBulkApplyOffset ---------------------------------------------

  /** A selected cue moved by `offset`: its start stops at 0, its end does not. */
  function Shift(s: Subtitle, offset: int): Subtitle {
    s.(startTime := if s.startTime + offset < 0 then 0 else s.startTime + offset, endTime := s.endTime + offset)
  }

  /** `handleBulkApplyOffset(offset)`. */
  function ApplyOffset(xs: seq<Subtitle>, sel: seq<string>, offset: int): seq<Subtitle> {
    Map(xs, (s: Subtitle) => if s.id in sel then Shift(s, offset) else s)
  }

  /** Selected cues move, their start clamped at 0 and their end not;
      id, text and index stay; unselected cues, length and order stay. */
  lemma ApplyOffsetSpec(xs: seq<Subtitle>, sel: seq<string>, offset: int)
    ensures var r := ApplyOffset(xs, sel, offset);
      |r| == |xs|
      && forall i :: 0 <= i < |xs| ==>
        if xs[i].id in sel then
          r[i].startTime == (if xs[i].startTime + offset < 0 then 0 else xs[i].startTime + offset)
          && r[i].endTime == xs[i].endTime + offset
          && r[i].id == xs[i].id && r[i].text == xs[i].text && r[i].index == xs[i].index
        else r[i] == xs[i]
  {
    forall i | 0 <= i < |xs|
      ensures ApplyOffset(xs, sel, offset)[i] == if xs[i].id in sel then Shift(xs[i], offset) else xs[i]
    {
      MapAt(xs, (s: Subtitle) => if s.id in sel then Shift(s, offset) else s, i);
    }
  }

  /** Where no selected start would pass below 0, moving by `offset` and then
      by `-offset` restores the list. */
  lemma ApplyOffsetUndo(xs: seq<Subtitle>, sel: seq<string>, offset: int)
    requires forall i :: 0 <= i < |xs| && xs[i].id in sel ==> xs[i].startTime >= 0 && xs[i].startTime + offset >= 0
    ensures ApplyOffset(ApplyOffset(xs, sel, offset), sel, -offset) == xs
  {
    var r := ApplyOffset(xs, sel, offset);
    ApplyOffsetSpec(xs, sel, offset);
    ApplyOffsetSpec(r, sel, -offset);
  }

  /** The end is never clamped: a large negative offset can leave a cue
      ending before it starts. */
  lemma ShiftCanInvert()
    ensures var s := Shift(Subtitle("a", 1000, 2000, "x", 0), -3000);
      s.startTime == 0 && s.endTime == -1000 && s.endTime < s.startTime
  {
  }

  // ---- handleBulkFindReplace ---------------------------------------------

  /** A cue the find/replace changes: selected, with `find` in its text. */
  predicate Hit(s: Subtitle, sel: seq<string>, find: string) {
    s.id in sel && Includes(s.text, find)
  }

  /** The `map` callback of `handleBulkFindReplace`. */
  function ReplaceIn(s: Subtitle, sel: seq<string>, find: string, rep: string): Subtitle
    requires find != []
  {
    if Hit(s, sel, find) then s.(text := ReplaceAll(s.text, find, rep)) else s
  }

  /** How many cues of `xs` the find/replace changes: the `count` it reports. */
  function HitCount(xs: seq<Subtitle>, sel: seq<string>, find: string): nat
    decreases |xs|
  {
    if xs == [] then 0
    else HitCount(xs[..|xs| - 1], sel, find) + (if Hit(xs[|xs| - 1], sel, find) then 1 else 0)
  }

  /** `handleBulkFindReplace(find, rep)`'s new list. */
  function FindReplace(xs: seq<Subtitle>, sel: seq<string>, find: string, rep: string): seq<Subtitle>
    requires find != []
  {
    Map(xs, (s: Subtitle) requires find != [] => ReplaceIn(s, sel, find, rep))
  }

  /** Only selected cues whose text includes `find` change, and only in their
      text, where every occurrence is replaced; the count is at most the
      number of cues. */
  lemma FindReplaceSpec(xs: seq<Subtitle>, sel: seq<string>, find: string, rep: string)
    requires find != []
    ensures var r := FindReplace(xs, sel, find, rep);
      |r| == |xs| && HitCount(xs, sel, find) <= |xs|
      && forall i :: 0 <= i < |xs| ==>
        if Hit(xs[i], sel, find) then
          r[i] == xs[i].(text := ReplaceAll(xs[i].text, find, rep))
          && |r[i].text| == |xs[i].text| + Occurrences(xs[i].text, find) * (|rep| - |find|)
          && Occurrences(xs[i].text, find) >= 1
        else r[i] == xs[i]
  {
    var r := FindReplace(xs, sel, find, rep);
    forall i | 0 <= i < |xs|
      ensures if Hit(xs[i], sel, find) then
          r[i] == xs[i].(text := ReplaceAll(xs[i].text, find, rep))
          && |r[i].text| == |xs[i].text| + Occurrences(xs[i].text, find) * (|rep| - |find|)
          && Occurrences(xs[i].text, find) >= 1
        else r[i] == xs[i]
    {
      FindReplaceAt(xs, sel, find, rep, i);
      ReplaceInSpec(xs[i], sel, find, rep);
    }
    HitCountBound(xs, sel, find);
  }

  lemma FindReplaceAt(xs: seq<Subtitle>, sel: seq<string>, find: string, rep: string, i: nat)
    requires find != [] && i < |xs|
    ensures FindReplace(xs, sel, find, rep)[i] == ReplaceIn(xs[i], sel, find, rep)
  {
    MapAt(xs, (s: Subtitle) requires find != [] => ReplaceIn(s, sel, find, rep), i);
  }

  /** One cue: a hit has every occurrence replaced, and holds at least one. */
  lemma ReplaceInSpec(s: Subtitle, sel: seq<string>, find: string, rep: string)
    requires find != []
    ensures var r := ReplaceIn(s, sel, find, rep);
      if Hit(s, sel, find) then
        r == s.(text := ReplaceAll(s.text, find, rep))
        && |r.text| == |s.text| + Occurrences(s.text, find) * (|rep| - |find|)
        && Occurrences(s.text, find) >= 1
      else r == s
  {
    if Hit(s, sel, find) {
      ReplaceAllLength(s.text, find, rep);
      OccurrencesPresent(s.text, find);
    }
  }

  lemma {:induction false} HitCountBound(xs: seq<Subtitle>, sel: seq<string>, find: string)
    ensures HitCount(xs, sel, find) <= |xs|
    decreases |xs|
  {
    if xs != [] {
      HitCountBound(xs[..|xs| - 1], sel, find);
    }
  }

  /** Replacing `find` by itself leaves every cue as it was. */
  lemma FindReplaceSelf(xs: seq<Subtitle>, sel: seq<string>, find: string)
    requires find != []
    ensures FindReplace(xs, sel, find, find) == xs
  {
    FindReplaceSpec(xs, sel, find, find);
    forall i | 0 <= i < |xs| && Hit(xs[i], sel, find)
      ensures xs[i].(text := ReplaceAll(xs[i].text, find, find)) == xs[i]
    {
      ReplaceAllSelf(xs[i].text, find);
    }
  }

  // ---- handleBulkAdjustReadingSpeed --------------------------------------

  /** A selected cue ends `text.length / cps` seconds after it starts, where
      `length` counts UTF-16 code units. */
  function Retime(s: Subtitle, cps: nat): Subtitle
    requires cps > 0
  {
    s.(endTime := s.startTime + Utf16Length(s.text) * 1000 / cps)
  }

  /** `handleBulkAdjustReadingSpeed(cps)`. */
  function AdjustReadingSpeed(xs: seq<Subtitle>, sel: seq<string>, cps: nat): seq<Subtitle>
    requires cps > 0
  {
    Map(xs, (s: Subtitle) requires cps > 0 => if s.id in sel then Retime(s, cps) else s)
  }

  /** Selected cues last `text.length * 1000 / cps` milliseconds, never less than
      nothing, and keep their start, text, id and index; other cues stay. */
  lemma AdjustReadingSpeedSpec(xs: seq<Subtitle>, sel: seq<string>, cps: nat)
    requires cps > 0
    ensures var r := AdjustReadingSpeed(xs, sel, cps);
      |r| == |xs|
      && forall i :: 0 <= i < |xs| ==>
        if xs[i].id in sel then
          r[i].endTime - r[i].startTime == Utf16Length(xs[i].text) * 1000 / cps && r[i].startTime <= r[i].endTime
          && r[i] == xs[i].(endTime := r[i].endTime)
        else r[i] == xs[i]
  {
    forall i | 0 <= i < |xs|
      ensures AdjustReadingSpeed(xs, sel, cps)[i] == if xs[i].id in sel then Retime(xs[i], cps) else xs[i]
    {
      MapAt(xs, (s: Subtitle) requires cps > 0 => if s.id in sel then Retime(s, cps) else s, i);
    }
  }

  /** An emoji is two code units long, so at one character per second it is
      read for two seconds. */
  lemma RetimeCountsCodeUnits()
    ensures Retime(Subtitle("a", 1000, 1500, "\U{1F600}", 0), 1).endTime == 3000
  {
    assert Utf16Length("\U{1F600}") == 2;
  }

  /** Adjusting twice at the same speed is adjusting once. */
  lemma AdjustReadingSpeedIdempotent(xs: seq<Subtitle>, sel: seq<string>, cps: nat)
    requires cps > 0
    ensures AdjustReadingSpeed(AdjustReadingSpeed(xs, sel, cps), sel, cps) == AdjustReadingSpeed(xs, sel, cps)
  {
    var r := AdjustReadingSpeed(xs, sel, cps);
    AdjustReadingSpeedSpec(xs, sel, cps);
    AdjustReadingSpeedSpec(r, sel, cps);
  }
}
