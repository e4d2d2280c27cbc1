/** The `Subtitle` record of `src/types/subtitle.ts`, the ids the parsers
    give to the cues they read, and `checkOverlap`. */
module Subtitles {
  import opened JsString
  import opened JsNumber

  /** One cue: its id, its start and end in milliseconds, its text and the
      `index` the parser or the editor gave it. */
  datatype Subtitle = Subtitle(id: string, startTime: int, endTime: int, text: string, index: int)

  /** `sub-${Date.now()}-${index}`: the id a parser gives the cue it reads
      at `index`, `now` being the clock reading of that parse. */
  function ParserId(now: nat, index: nat): string {
    "sub-" + ShowNat(now) + "-" + ShowNat(index)
  }

  /** Within one parse, cues at different indices get different ids. */
  lemma ParserIdInjective(now: nat, i: nat, j: nat)
    requires ParserId(now, i) == ParserId(now, j)
    ensures i == j
  {
    var p := "sub-" + ShowNat(now) + "-";
    assert ParserId(now, i) == p + ShowNat(i) && ParserId(now, j) == p + ShowNat(j);
    assert ShowNat(i) == ParserId(now, i)[|p|..];
    assert ShowNat(j) == ParserId(now, j)[|p|..];
    ShowNatInjective(i, j);
  }

  /** The test `checkOverlap` applies to one other cue: a different id, and
      `s` starts inside `o`, ends inside `o`, or covers `o`. */
  predicate Collides(s: Subtitle, o: Subtitle) {
    o.id != s.id
    && ((s.startTime >= o.startTime && s.startTime < o.endTime)
        || (s.endTime > o.startTime && s.endTime <= o.endTime)
        || (s.startTime <= o.startTime && s.endTime >= o.endTime))
  }

  /** `checkOverlap(subtitle, allSubtitles)`: some cue of the list collides with `s`. */
  function CheckOverlap(s: Subtitle, all: seq<Subtitle>): bool {
    |all| > 0 && (Collides(s, all[0]) || CheckOverlap(s, all[1..]))
  }

  /** `checkOverlap` is `Array.prototype.some` over the list. */
  lemma {:induction false} CheckOverlapSome(s: Subtitle, all: seq<Subtitle>)
    ensures CheckOverlap(s, all) <==> exists i :: 0 <= i < |all| && Collides(s, all[i])
  {
    if |all| > 0 {
      CheckOverlapSome(s, all[1..]);
      if exists i :: 0 <= i < |all| && Collides(s, all[i]) {
        var i :| 0 <= i < |all| && Collides(s, all[i]);
        if i > 0 {
          assert all[1..][i - 1] == all[i];
        }
      }
    }
  }

  /** A cue is never compared with itself, nor with another cue of its id:
      a list holding no other id gives `false`. */
  lemma CheckOverlapIgnoresSameId(s: Subtitle, all: seq<Subtitle>)
    requires forall i :: 0 <= i < |all| ==> all[i].id == s.id
    ensures !CheckOverlap(s, all)
  {
    CheckOverlapSome(s, all);
  }

  /** A cue with its start before its end. */
  predicate Proper(s: Subtitle) {
    s.startTime < s.endTime
  }

  /** For proper cues the three-way test is the usual intersection of the
      half-open intervals `[startTime, endTime)`. */
  lemma CollidesIsIntersection(s: Subtitle, o: Subtitle)
    requires Proper(s) && Proper(o)
    ensures Collides(s, o) <==> o.id != s.id && s.startTime < o.endTime && o.startTime < s.endTime
  {
  }

  /** So, for proper cues, the test is symmetric. */
  lemma CollidesSymmetric(s: Subtitle, o: Subtitle)
    requires Proper(s) && Proper(o)
    ensures Collides(s, o) <==> Collides(o, s)
  {
    CollidesIsIntersection(s, o);
    CollidesIsIntersection(o, s);
  }

  /** Cues that only touch, one ending where the other starts, do not overlap. */
  lemma TouchingDoesNotCollide(s: Subtitle, o: Subtitle)
    requires Proper(s) && Proper(o) && s.endTime == o.startTime
    ensures !Collides(s, o) && !Collides(o, s)
  {
    CollidesIsIntersection(s, o);
    CollidesIsIntersection(o, s);
  }

  /** Over a list of proper cues, `checkOverlap` finds a cue of another id
      whose interval intersects that of `s`. */
  lemma CheckOverlapIntervals(s: Subtitle, all: seq<Subtitle>)
    requires Proper(s) && forall i :: 0 <= i < |all| ==> Proper(all[i])
    ensures CheckOverlap(s, all) <==>
      exists i :: 0 <= i < |all| && all[i].id != s.id && s.startTime < all[i].endTime && all[i].startTime < s.endTime
  {
    CheckOverlapSome(s, all);
    forall i | 0 <= i < |all|
      ensures Collides(s, all[i]) <==> all[i].id != s.id && s.startTime < all[i].endTime && all[i].startTime < s.endTime
    {
      CollidesIsIntersection(s, all[i]);
    }
  }
}
