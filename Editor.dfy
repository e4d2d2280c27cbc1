/** The editing state of `SubtitleEditor` and its handlers: the cue list,
    the bulk selection (`selectedSubtitleIds`), the active cue
    (`selectedSubtitleId`) and the playhead (`currentTime`). Each handler
    replaces the list or the selection with the result of a transformation
    from `CueEdits`. */
module Editor {
  import opened Options
  import opened JsString
  import opened Subtitles
  import opened CueEdits

  class SubtitleEditor {
    var subtitles: seq<Subtitle>
    var selectedIds: seq<string>
    var activeId: Option<string>
    var currentTime: int

    /** The initial state: no cues, nothing selected, the playhead at 0. */
    constructor()
      ensures subtitles == [] && selectedIds == [] && activeId == None && currentTime == 0
    {
      subtitles := [];
      selectedIds := [];
      activeId := None;
      currentTime := 0;
    }

    /** `handleSubtitleUpdate(u)`. */
    method Update(u: Subtitle)
      modifies this
      ensures subtitles == UpdateById(old(subtitles), u)
      ensures selectedIds == old(selectedIds) && activeId == old(activeId) && currentTime == old(currentTime)
    {
      subtitles := UpdateById(subtitles, u);
    }

    /** `handleSubtitleSplit(sub, t)`, `id1` and `id2` being the two ids
        `generateId()` returns; `ok` is false when the split is refused. */
    method Split(sub: Subtitle, t: int, id1: string, id2: string) returns (ok: bool)
      modifies this
      ensures ok <==> sub.startTime < t < sub.endTime
      ensures subtitles == SplitCue(old(subtitles), sub, t, id1, id2)
      ensures !ok ==> subtitles == old(subtitles)
      ensures selectedIds == old(selectedIds) && activeId == old(activeId) && currentTime == old(currentTime)
    {
      if t <= sub.startTime || t >= sub.endTime {
        return false;
      }
      var k := FindIndex(subtitles, sub.id);
      var first := sub.(endTime := t, id := id1);
      var second := sub.(startTime := t, id := id2, index := sub.index + 1);
      subtitles := Reindex(SpliceTwo(subtitles, k, first, second));
      ok := true;
    }

    /** `handleSubtitlesMerge(a, b)`. */
    method Merge(a: Subtitle, b: Subtitle)
      modifies this
      ensures subtitles == MergeCues(old(subtitles), a, b)
      ensures selectedIds == old(selectedIds) && activeId == old(activeId) && currentTime == old(currentTime)
    {
      var merged := a.(endTime := b.endTime, text := a.text + "\n" + b.text);
      var kept := Drop(subtitles, {a.id, b.id});
      subtitles := Reindex(SortByStart(kept + [merged]));
    }

    /** `handleSubtitleDelete(id)`: the active cue is cleared when it is the
        one deleted; the bulk selection is left as it is. */
    method Delete(id: string)
      modifies this
      ensures subtitles == DeleteCue(old(subtitles), id)
      ensures activeId == if old(activeId) == Some(id) then None else old(activeId)
      ensures selectedIds == old(selectedIds) && currentTime == old(currentTime)
    {
      subtitles := DeleteCue(subtitles, id);
      if activeId == Some(id) {
        activeId := None;
      }
    }

    /** `handleSubtitleSelect(sub, multi)`: with `multi` the id's membership
        in the bulk selection is toggled; otherwise the cue becomes the
        active one and the only selected one, and the playhead jumps to it. */
    method Select(sub: Subtitle, multi: bool)
      modifies this
      ensures multi ==>
                selectedIds == Toggle(old(selectedIds), sub.id) && activeId == old(activeId) && currentTime == old(currentTime)
      ensures !multi ==> selectedIds == [sub.id] && activeId == Some(sub.id) && currentTime == sub.startTime
      ensures subtitles == old(subtitles)
    {
      if multi {
        if sub.id in selectedIds {
          selectedIds := RemoveId(selectedIds, sub.id);
        } else {
          selectedIds := selectedIds + [sub.id];
        }
      } else {
        activeId := Some(sub.id);
        selectedIds := [sub.id];
        currentTime := sub.startTime;
      }
    }

    /** `handleBulkApplyOffset(offset)`. */
    method ApplyBulkOffset(offset: int)
      modifies this
      ensures subtitles == ApplyOffset(old(subtitles), selectedIds, offset)
      ensures selectedIds == old(selectedIds) && activeId == old(activeId) && currentTime == old(currentTime)
    {
      subtitles := ApplyOffset(subtitles, selectedIds, offset);
    }

    /** `handleBulkFindReplace(find, rep)`, `count` being the number of cues
        changed. The dialog calls it only with a non-empty `find`. */
    method BulkFindReplace(find: string, rep: string) returns (count: nat)
      requires find != []
      modifies this
      ensures subtitles == FindReplace(old(subtitles), selectedIds, find, rep)
      ensures count == HitCount(old(subtitles), selectedIds, find)
      ensures selectedIds == old(selectedIds) && activeId == old(activeId) && currentTime == old(currentTime)
    {
      var xs := subtitles;
      var out: seq<Subtitle> := [];
      count := 0;
      var i := 0;
      while i < |xs|
        invariant 0 <= i <= |xs| && |out| == i
        invariant forall k :: 0 <= k < i ==> out[k] == ReplaceIn(xs[k], selectedIds, find, rep)
        invariant count == HitCount(xs[..i], selectedIds, find)
      {
        var s := xs[i];
        if s.id in selectedIds && Includes(s.text, find) {
          count := count + 1;
          out := out + [s.(text := ReplaceAll(s.text, find, rep))];
        } else {
          out := out + [s];
        }
        assert xs[..i + 1][..i] == xs[..i];
        i := i + 1;
      }
      assert xs[..i] == xs;
      forall k | 0 <= k < |xs|
        ensures out[k] == FindReplace(xs, selectedIds, find, rep)[k]
      {
        FindReplaceAt(xs, selectedIds, find, rep, k);
      }
      subtitles := out;
    }

    /** `handleBulkAdjustReadingSpeed(cps)`. The dialog calls it only with a
        positive speed. */
    method BulkAdjustReadingSpeed(cps: nat)
      requires cps > 0
      modifies this
      ensures subtitles == AdjustReadingSpeed(old(subtitles), selectedIds, cps)
      ensures selectedIds == old(selectedIds) && activeId == old(activeId) && currentTime == old(currentTime)
    {
      subtitles := AdjustReadingSpeed(subtitles, selectedIds, cps);
    }
  }
}
