/** `ModificationEventTimes`: the tempo correction that turns tick times
    into display times. Each tempo segment is re-anchored to where the
    previous tempo puts it, and every note and beat is then placed relative
    to the last segment starting at or before it. */
module Correction {
  import opened Results
  import opened MidiData

  /** C#'s `(int)` cast of a (finite) float: truncation toward zero. */
  function Trunc(x: real): (n: int)
    ensures 0.0 <= x ==> n as real <= x < n as real + 1.0
    ensures x < 0.0 ==> n as real - 1.0 < x <= n as real
  {
    if x >= 0.0 then x.Floor else -((-x).Floor)
  }

  /** Display time of a point `ticks` ticks into a segment that has factor
      `tick` and starts at display time `base`. */
  function Offset(ticks: int, tick: real, base: int): (t: int)
    ensures ticks as real * tick >= 0.0 ==>
              base <= t && (t - base) as real <= ticks as real * tick < (t - base + 1) as real
    ensures ticks as real * tick < 0.0 ==>
              t <= base && (t - base - 1) as real < ticks as real * tick <= (t - base) as real
  {
    Trunc(ticks as real * tick) + base
  }

  /** Segment i starts where segment i - 1's tempo puts it, counting the
      tick distance between their original times. */
  predicate AnchoredAt(segs: seq<Soflan>, r: seq<Soflan>, i: nat)
    requires 1 <= i < |segs| == |r|
  {
    r[i].eventTime == Offset(segs[i].eventTime - segs[i - 1].eventTime, segs[i - 1].tick, r[i - 1].eventTime)
  }

  /** The same recurrence as the source computes it: the distance is taken
      from segment i - 1's corrected time. */
  predicate AliasedAnchoredAt(segs: seq<Soflan>, r: seq<Soflan>, i: nat)
    requires 1 <= i < |segs| == |r|
  {
    r[i].eventTime == Offset(segs[i].eventTime - r[i - 1].eventTime, segs[i - 1].tick, r[i - 1].eventTime)
  }

  /** `r` holds corrected starts for `segs`: the first is unchanged and
      each later one follows the recurrence. */
  predicate Anchors(segs: seq<Soflan>, r: seq<Soflan>)
  {
    && |r| == |segs|
    && (|segs| > 0 ==> r[0].eventTime == segs[0].eventTime)
    && (forall i :: 1 <= i < |segs| ==> AnchoredAt(segs, r, i))
  }

  /** The first loop: segment 0 keeps its time, and segment i moves to
      where segment i - 1's tempo puts it, measured from i - 1's corrected
      time. The tick distance is taken between the original times. */
  function ReAnchor(segs: seq<Soflan>): (r: seq<Soflan>)
    ensures |r| == |segs|
    ensures forall i :: 0 <= i < |segs| ==> r[i] == segs[i].(eventTime := r[i].eventTime)
    ensures |segs| > 0 ==> r[0] == segs[0]
    ensures forall i :: 1 <= i < |segs| ==> AnchoredAt(segs, r, i)
    ensures Anchors(segs, r)
    decreases |segs|
  {
    if |segs| <= 1 then segs
    else
      var n := |segs| - 1;
      var p := ReAnchor(segs[..n]);
      var r := p + [segs[n].(eventTime := Offset(segs[n].eventTime - segs[n - 1].eventTime, segs[n - 1].tick, p[n - 1].eventTime))];
      assert forall i :: 1 <= i < n ==> AnchoredAt(segs, r, i) by {
        forall i | 1 <= i < n
          ensures AnchoredAt(segs, r, i)
        {
          assert AnchoredAt(segs[..n], p, i);
        }
      }
      assert AnchoredAt(segs, r, n);
      r
  }

  /** The backward scan over the first `n` segments, stopping at the first
      one (from the end) whose original time is at or before `t`. */
  function ScanBack(segs: seq<Soflan>, t: int, n: nat): (r: Option<nat>)
    requires n <= |segs|
    ensures r.Some? ==> r.value < n && segs[r.value].eventTime <= t
    ensures r.Some? ==> forall k :: r.value < k < n ==> segs[k].eventTime > t
    ensures r.None? ==> forall k :: 0 <= k < n ==> segs[k].eventTime > t
    decreases n
  {
    if n == 0 then None
    else if t >= segs[n - 1].eventTime then Some(n - 1)
    else ScanBack(segs, t, n - 1)
  }

  /** The segment governing tick time `t`: the largest index whose original
      time is at or before `t`, or none when every segment starts later. */
  function SegmentOf(segs: seq<Soflan>, t: int): (r: Option<nat>)
    ensures r.Some? <==> exists k :: 0 <= k < |segs| && segs[k].eventTime <= t
    ensures r.Some? ==> r.value < |segs| && segs[r.value].eventTime <= t
    ensures r.Some? ==> forall k :: r.value < k < |segs| ==> segs[k].eventTime > t
  {
    ScanBack(segs, t, |segs|)
  }

  /** Display time of tick time `t`, given the original segments and their
      re-anchored copies; a time before every segment is kept. */
  function CorrectedTime(t: int, origs: seq<Soflan>, anchored: seq<Soflan>): int
    requires |origs| == |anchored|
  {
    match SegmentOf(origs, t)
    case None => t
    case Some(j) => Offset(t - origs[j].eventTime, origs[j].tick, anchored[j].eventTime)
  }

  /** The second loop, for one note: it also records its segment. */
  function CorrectNote(n: Note, origs: seq<Soflan>, anchored: seq<Soflan>): (r: Note)
    requires |origs| == |anchored|
    ensures r.laneIndex == n.laneIndex && r.isPress == n.isPress
    ensures r.eventTime == CorrectedTime(n.eventTime, origs, anchored)
    ensures SegmentOf(origs, n.eventTime).None? ==> r == n
    ensures SegmentOf(origs, n.eventTime).Some? ==> r.soflanNo == SegmentOf(origs, n.eventTime).value
  {
    match SegmentOf(origs, n.eventTime)
    case None => n
    case Some(j) => n.(eventTime := CorrectedTime(n.eventTime, origs, anchored), soflanNo := j)
  }

  /** The third loop, for one beat. */
  function CorrectBeat(b: Beat, origs: seq<Soflan>, anchored: seq<Soflan>): (r: Beat)
    requires |origs| == |anchored|
    ensures r.numerator == b.numerator && r.denominator == b.denominator
    ensures r.eventTime == CorrectedTime(b.eventTime, origs, anchored)
    ensures SegmentOf(origs, b.eventTime).None? ==> r == b
  {
    b.(eventTime := CorrectedTime(b.eventTime, origs, anchored))
  }

  function CorrectNotes(notes: seq<Note>, origs: seq<Soflan>, anchored: seq<Soflan>): (r: seq<Note>)
    requires |origs| == |anchored|
    ensures |r| == |notes|
    ensures forall i :: 0 <= i < |notes| ==> r[i].laneIndex == notes[i].laneIndex && r[i].isPress == notes[i].isPress
    ensures forall i :: 0 <= i < |notes| ==> r[i].eventTime == CorrectedTime(notes[i].eventTime, origs, anchored)
    ensures forall i :: 0 <= i < |notes| && SegmentOf(origs, notes[i].eventTime).Some? ==>
              r[i].soflanNo == SegmentOf(origs, notes[i].eventTime).value
    ensures forall i :: 0 <= i < |notes| && SegmentOf(origs, notes[i].eventTime).None? ==> r[i] == notes[i]
  {
    seq(|notes|, i requires 0 <= i < |notes| => CorrectNote(notes[i], origs, anchored))
  }

  function CorrectBeats(beats: seq<Beat>, origs: seq<Soflan>, anchored: seq<Soflan>): (r: seq<Beat>)
    requires |origs| == |anchored|
    ensures |r| == |beats|
    ensures forall i :: 0 <= i < |beats| ==> r[i].numerator == beats[i].numerator && r[i].denominator == beats[i].denominator
    ensures forall i :: 0 <= i < |beats| ==> r[i].eventTime == CorrectedTime(beats[i].eventTime, origs, anchored)
    ensures forall i :: 0 <= i < |beats| && SegmentOf(origs, beats[i].eventTime).None? ==> r[i] == beats[i]
  {
    seq(|beats|, i requires 0 <= i < |beats| => CorrectBeat(beats[i], origs, anchored))
  }

  /** The whole pass, reading original times from a snapshot taken before
      any segment is rewritten. */
  function ModifyEventTimes(ev: TrackEvents): (r: TrackEvents)
    ensures |r.notes| == |ev.notes| && |r.soflans| == |ev.soflans| && |r.beats| == |ev.beats|
    ensures r.soflans == ReAnchor(ev.soflans)
    ensures forall i :: 0 <= i < |ev.notes| ==> r.notes[i] == CorrectNote(ev.notes[i], ev.soflans, r.soflans)
    ensures forall i :: 0 <= i < |ev.beats| ==> r.beats[i] == CorrectBeat(ev.beats[i], ev.soflans, r.soflans)
  {
    var anchored := ReAnchor(ev.soflans);
    TrackEvents(CorrectNotes(ev.notes, ev.soflans, anchored), anchored, CorrectBeats(ev.beats, ev.soflans, anchored))
  }

  // ---------------------------------------------------------------------
  // Order

  predicate TicksNonNegative(segs: seq<Soflan>)
  {
    forall i :: 0 <= i < |segs| ==> segs[i].tick >= 0.0
  }

  predicate SoflansSorted(segs: seq<Soflan>)
  {
    forall a, b :: 0 <= a < b < |segs| ==> segs[a].eventTime <= segs[b].eventTime
  }

  lemma OffsetMonotone(x: int, y: int, tick: real, base: int)
    requires 0 <= x <= y && tick >= 0.0
    ensures base <= Offset(x, tick, base) <= Offset(y, tick, base)
  {
    assert y as real * tick - x as real * tick == (y - x) as real * tick;
    assert (y - x) as real * tick >= 0.0;
    assert x as real * tick >= 0.0;
  }

  /** Re-anchored segments stay in order when the originals were in order
      and no tempo runs backwards. */
  lemma ReAnchorSorted(segs: seq<Soflan>, r: seq<Soflan>)
    requires SoflansSorted(segs) && TicksNonNegative(segs) && Anchors(segs, r)
    ensures SoflansSorted(r)
  {
    forall a, b | 0 <= a < b < |segs|
      ensures r[a].eventTime <= r[b].eventTime
    {
      ReAnchorStepsUp(segs, r, a, b);
    }
  }

  lemma {:induction false} ReAnchorStepsUp(segs: seq<Soflan>, r: seq<Soflan>, a: nat, b: nat)
    requires SoflansSorted(segs) && TicksNonNegative(segs) && Anchors(segs, r)
    requires a <= b < |segs|
    ensures r[a].eventTime <= r[b].eventTime
    decreases b - a
  {
    if a < b {
      ReAnchorStepsUp(segs, r, a, b - 1);
      assert AnchoredAt(segs, r, b);
      OffsetMonotone(0, segs[b].eventTime - segs[b - 1].eventTime, segs[b - 1].tick, r[b - 1].eventTime);
    }
  }

  /** A later time is governed by the same or a later segment. */
  lemma SegmentOfMonotone(t1: int, t2: int, origs: seq<Soflan>)
    requires t1 <= t2 && SegmentOf(origs, t1).Some?
    ensures SegmentOf(origs, t2).Some? && SegmentOf(origs, t1).value <= SegmentOf(origs, t2).value
  {
  }

  /** The correction keeps the order of events: a later tick time never
      gets an earlier display time. */
  lemma CorrectedTimeMonotone(t1: int, t2: int, origs: seq<Soflan>, r: seq<Soflan>)
    requires SoflansSorted(origs) && TicksNonNegative(origs) && Anchors(origs, r)
    requires t1 <= t2
    ensures CorrectedTime(t1, origs, r) <= CorrectedTime(t2, origs, r)
  {
    var s1 := SegmentOf(origs, t1);
    var s2 := SegmentOf(origs, t2);
    if s2.Some? {
      var j2 := s2.value;
      OffsetMonotone(0, t2 - origs[j2].eventTime, origs[j2].tick, r[j2].eventTime);
      if s1.None? {
        ReAnchorStepsUp(origs, r, 0, j2);
      } else {
        var j1 := s1.value;
        SegmentOfMonotone(t1, t2, origs);
        if j1 == j2 {
          OffsetMonotone(t1 - origs[j1].eventTime, t2 - origs[j1].eventTime, origs[j1].tick, r[j1].eventTime);
        } else {
          // t1 lies before segment j1 + 1, whose corrected start bounds it
          assert AnchoredAt(origs, r, j1 + 1);
          OffsetMonotone(t1 - origs[j1].eventTime, origs[j1 + 1].eventTime - origs[j1].eventTime,
                         origs[j1].tick, r[j1].eventTime);
          ReAnchorStepsUp(origs, r, j1 + 1, j2);
        }
      }
    } else if s1.Some? {
      SegmentOfMonotone(t1, t2, origs);
    }
  }

  /** Applied to one track's time-ordered lists, the pass yields lists
      that are again in time order. */
  lemma CorrectionKeepsOrder(ev: TrackEvents)
    requires Sorted(ev) && TicksNonNegative(ev.soflans)
    ensures Sorted(ModifyEventTimes(ev))
  {
    var r := ModifyEventTimes(ev);
    ReAnchorSorted(ev.soflans, r.soflans);
    forall a, b | 0 <= a < b < |ev.notes|
      ensures r.notes[a].eventTime <= r.notes[b].eventTime
    {
      CorrectedTimeMonotone(ev.notes[a].eventTime, ev.notes[b].eventTime, ev.soflans, r.soflans);
    }
    forall a, b | 0 <= a < b < |ev.beats|
      ensures r.beats[a].eventTime <= r.beats[b].eventTime
    {
      CorrectedTimeMonotone(ev.beats[a].eventTime, ev.beats[b].eventTime, ev.soflans, r.soflans);
    }
  }

  // ---------------------------------------------------------------------
  // Boundaries

  /** An event exactly on a tempo change belongs to that change's segment
      (the `>=` of the scan), or to a later one starting at the same tick,
      and lands on that segment's corrected time. */
  lemma OnBoundary(origs: seq<Soflan>, r: seq<Soflan>, j: nat)
    requires SoflansSorted(origs) && Anchors(origs, r)
    requires j < |origs| && (j + 1 == |origs| || origs[j + 1].eventTime > origs[j].eventTime)
    ensures SegmentOf(origs, origs[j].eventTime) == Some(j)
    ensures CorrectedTime(origs[j].eventTime, origs, r) == r[j].eventTime
  {
    var s := SegmentOf(origs, origs[j].eventTime);
    assert s.Some?;
  }

  /** Two segments at ticks 0 and 480 with 1 ms per tick in the first: the
      second is re-anchored to 480. */
  lemma ReAnchorExample(b0: Bpm, b1: Bpm, t1: real)
    ensures ReAnchor([Soflan(0, b0, 1.0), Soflan(480, b1, t1)])[1].eventTime == 480
  {
    var segs := [Soflan(0, b0, 1.0), Soflan(480, b1, t1)];
    assert Trunc(480.0) == 480;
  }

  // ---------------------------------------------------------------------
  // The pass as the source computes it

  /** The source's copies `tempSoflanList` and friends are copies of the
      list, not of the records: once segment i - 1 is rewritten, the
      "original" time read through the copy is the corrected one. */
  function ReAnchorAliased(segs: seq<Soflan>): (r: seq<Soflan>)
    ensures |r| == |segs|
    ensures forall i :: 0 <= i < |segs| ==> r[i] == segs[i].(eventTime := r[i].eventTime)
    ensures |segs| > 0 ==> r[0] == segs[0]
    ensures forall i :: 1 <= i < |segs| ==> AliasedAnchoredAt(segs, r, i)
    decreases |segs|
  {
    if |segs| <= 1 then segs
    else
      var n := |segs| - 1;
      var p := ReAnchorAliased(segs[..n]);
      var r := p + [segs[n].(eventTime := Offset(segs[n].eventTime - p[n - 1].eventTime, segs[n - 1].tick, p[n - 1].eventTime))];
      assert forall i :: 1 <= i < n ==> AliasedAnchoredAt(segs, r, i) by {
        forall i | 1 <= i < n
          ensures AliasedAnchoredAt(segs, r, i)
        {
          assert AliasedAnchoredAt(segs[..n], p, i);
        }
      }
      assert AliasedAnchoredAt(segs, r, n);
      r
  }

  /** The pass as written: every segment time the note and beat loops read
      through the copy is already corrected. */
  function ModifyEventTimesAliased(ev: TrackEvents): (r: TrackEvents)
    ensures |r.notes| == |ev.notes| && |r.soflans| == |ev.soflans| && |r.beats| == |ev.beats|
    ensures r.soflans == ReAnchorAliased(ev.soflans)
    ensures forall i :: 0 <= i < |ev.notes| ==> r.notes[i] == CorrectNote(ev.notes[i], r.soflans, r.soflans)
    ensures forall i :: 0 <= i < |ev.beats| ==> r.beats[i] == CorrectBeat(ev.beats[i], r.soflans, r.soflans)
  {
    var anchored := ReAnchorAliased(ev.soflans);
    TrackEvents(CorrectNotes(ev.notes, anchored, anchored), anchored, CorrectBeats(ev.beats, anchored, anchored))
  }

  /** With at most one tempo change nothing is rewritten before it is read,
      so the aliasing has no effect. */
  lemma AliasingHarmlessForOneSegment(ev: TrackEvents)
    requires |ev.soflans| <= 1
    ensures ModifyEventTimesAliased(ev) == ModifyEventTimes(ev)
  {
    var r := ModifyEventTimes(ev);
    var a := ModifyEventTimesAliased(ev);
    assert a.soflans == ev.soflans == r.soflans;
    assert a.notes == r.notes;
    assert a.beats == r.beats;
  }

  /** Tempo changes at ticks 0 (0.5 ms per tick) and 480 (1 ms per tick),
      and a note at tick 300. With the snapshot the note is in the first
      segment, at 150 ms; as written it is compared with the corrected
      second segment (240 ms), assigned to it, and placed at 300 ms. */
  lemma AliasingMisplacesNote()
    ensures var ev := TrackEvents([Note(300, 60, 0, true)], [Soflan(0, Tenths(1250), 0.5), Soflan(480, Tenths(625), 1.0)], []);
            && ModifyEventTimes(ev).notes[0] == Note(150, 60, 0, true)
            && ModifyEventTimesAliased(ev).notes[0] == Note(300, 60, 1, true)
  {
    var segs := [Soflan(0, Tenths(1250), 0.5), Soflan(480, Tenths(625), 1.0)];
    var ev := TrackEvents([Note(300, 60, 0, true)], segs, []);
    assert Trunc(240.0) == 240 && Trunc(150.0) == 150 && Trunc(60.0) == 60;
    var r := ReAnchor(segs);
    assert AnchoredAt(segs, r, 1);
    assert r[1].eventTime == 240;
    assert SegmentOf(segs, 300) == Some(0);
    assert SegmentOf(r, 300) == Some(1);
  }
}
