// Silence cuts (`auto_edit_logic.py`, `build_silence_decisions`): a cut is proposed inside every measured silence and
// enabled only when no word overlaps it.
module SilenceCuts {
  import opened Rounding
  import opened Transcripts
  import opened Projection
  import opened ProjectionLaws
  import opened Derivation

  datatype Silence = Silence(start: real, end: real, measuredDb: real)

  /** The request model bounds the paddings and the minimum duration. */
  datatype Request = Request(paddingBefore: real, paddingAfter: real, minimumDuration: real) {
    predicate Valid() {
      0.0 <= paddingBefore <= 2.0 && 0.0 <= paddingAfter <= 2.0 && 0.1 <= minimumDuration <= 10.0
    }
  }

  datatype Why = OverlapsSpokenWord | CutProposed | TooShort

  datatype Decision = Decision(start: real, end: real, enabled: bool, conflicts: bool, reason: Why, raw: Silence)

  function Max(x: real, y: real): real {
    if x < y then y else x
  }

  function Min(x: real, y: real): real {
    if y < x then y else x
  }

  function Overlap(startA: real, endA: real, startB: real, endB: real): real {
    Max(0.0, Min(endA, endB) - Max(startA, startB))
  }

  function Words(segments: seq<Segment>): seq<Word> {
    if segments == [] then [] else Words(segments[..|segments| - 1]) + segments[|segments| - 1].words
  }

  function CutStart(s: Silence, c: Request): real {
    Round6(s.start + c.paddingBefore)
  }

  function CutEnd(s: Silence, c: Request): real {
    Round6(s.end - c.paddingAfter)
  }

  predicate Conflict(words: seq<Word>, start: real, end: real) {
    exists w :: w in words && Overlap(start, end, w.start, w.end) > 0.0
  }

  /** `d` is the decision the request calls for on the silence `s`. */
  predicate Decides(d: Decision, s: Silence, words: seq<Word>, c: Request) {
    var start, end := CutStart(s, c), CutEnd(s, c);
    && d.raw == s
    && (d.conflicts <==> Conflict(words, start, end))
    && (d.enabled <==> c.minimumDuration <= end - start && !d.conflicts)
    && d.reason == (if d.conflicts then OverlapsSpokenWord else if d.enabled then CutProposed else TooShort)
    && d.start == Max(0.0, start)
    && d.end == Max(Max(0.0, start) + 0.000001, end)
  }

  method BuildSilenceDecisions(silences: seq<Silence>, segments: seq<Segment>, c: Request)
    returns (decisions: seq<Decision>)
    ensures |decisions| == |silences|
    ensures forall k :: 0 <= k < |silences| ==> Decides(decisions[k], silences[k], Words(segments), c)
  {
    var words: seq<Word> := [];
    for i := 0 to |segments|
      invariant words == Words(segments[..i])
    {
      assert segments[..i + 1][..i] == segments[..i];
      words := words + segments[i].words;
    }
    assert segments[..|segments|] == segments;
    decisions := [];
    for k := 0 to |silences|
      invariant |decisions| == k
      invariant forall i :: 0 <= i < k ==> Decides(decisions[i], silences[i], Words(segments), c)
    {
      var s := silences[k];
      var start, end := CutStart(s, c), CutEnd(s, c);
      var conflicts := exists w :: w in words && Overlap(start, end, w.start, w.end) > 0.0;
      var longEnough := end - start >= c.minimumDuration;
      var reason := if conflicts then OverlapsSpokenWord else if longEnough then CutProposed else TooShort;
      var enabled := longEnough && !conflicts;
      decisions := decisions +
        [Decision(Max(0.0, start), Max(Max(0.0, start) + 0.000001, end), enabled, conflicts, reason, s)];
    }
  }

  // ----- Cuts and the projection

  predicate AlignedWords(segments: seq<Segment>) {
    forall w :: w in Words(segments) ==> Aligned(w.start) && Aligned(w.end)
  }

  lemma {:induction false} WordsOf(segments: seq<Segment>, w: Word)
    ensures w in Words(segments) <==> exists i :: 0 <= i < |segments| && w in segments[i].words
  {
    if segments != [] {
      WordsOf(segments[..|segments| - 1], w);
    }
  }

  /** An aligned word overlaps a cut exactly when the two share a point. */
  lemma OverlapIsSharedPoint(w: Word, start: real, end: real, t: real)
    requires Aligned(w.start) && Aligned(w.end)
    ensures start <= t < end && w.StartUs() as real <= t * MICROS < w.EndUs() as real ==>
      Overlap(start, end, w.start, w.end) > 0.0
    ensures Overlap(start, end, w.start, w.end) > 0.0 && t == Max(start, w.start) ==>
      start <= t < end && w.StartUs() as real <= t * MICROS < w.EndUs() as real
  {
  }

  lemma ProjectedWordsAreAligned(seg: Segment, out: Segment)
    requires Partitionable(seg) && IsProjection(seg, out)
    requires forall w :: w in seg.words ==> Aligned(w.start) && Aligned(w.end)
    ensures forall w :: w in out.words ==> Aligned(w.start) && Aligned(w.end)
  {
    forall j | 0 <= j < |out.words| ensures Aligned(out.words[j].start) && Aligned(out.words[j].end) {
      ProjectedWordIsAligned(seg, out, j);
    }
  }

  lemma ProjectedWordIsAligned(seg: Segment, out: Segment, j: nat)
    requires Partitionable(seg) && IsProjection(seg, out) && j < |seg.words|
    requires Aligned(seg.words[j].start) && Aligned(seg.words[j].end)
    ensures Aligned(out.words[j].start) && Aligned(out.words[j].end)
  {
    hide Successor, RunBefore, Retimed, Cut, Aligned;
    var a, b := UnitOf(seg, j);
    if a < b {
      RunRetimed(seg.words, a, b, j);
      var anchor, parts := seg.words[a].StartUs(), b - a + 1;
      var span := seg.words[b].EndUs() - anchor;
      WholeMicrosAreAligned(Cut(anchor, span, parts, j - a));
      WholeMicrosAreAligned(Cut(anchor, span, parts, j - a + 1));
    }
  }

  lemma WholeMicrosAreAligned(micros: int)
    ensures Aligned(ToSeconds(micros))
  {
    RoundTrip(micros);
  }

  /** Some word of one segment conflicts with the cut exactly when some word of the other does. */
  lemma ConflictMoves(from: Segment, to: Segment, start: real, end: real)
    requires forall t :: Covered(from.words, t) ==> Covered(to.words, t)
    requires forall w :: w in from.words ==> Aligned(w.start) && Aligned(w.end)
    requires forall w :: w in to.words ==> Aligned(w.start) && Aligned(w.end)
    requires Conflict(from.words, start, end)
    ensures Conflict(to.words, start, end)
  {
    var w :| w in from.words && Overlap(start, end, w.start, w.end) > 0.0;
    var j :| 0 <= j < |from.words| && from.words[j] == w;
    var t := Max(start, w.start);
    OverlapIsSharedPoint(w, start, end, t);
    assert Spans(from.words, j, t * MICROS);
    assert Covered(to.words, t * MICROS);
    var i: nat :| Spans(to.words, i, t * MICROS);
    OverlapIsSharedPoint(to.words[i], start, end, t);
  }

  /** The decisions taken on the projected words are those the raw words call for. */
  lemma DecisionsIgnoreProjection(segments: seq<Segment>, outs: seq<Segment>, d: Decision, s: Silence, c: Request)
    requires AlignedWords(segments) && AreProjections(segments, outs)
    ensures Decides(d, s, Words(outs), c) <==> Decides(d, s, Words(segments), c)
  {
    var start, end := CutStart(s, c), CutEnd(s, c);
    forall i | 0 <= i < |segments|
      ensures Conflict(outs[i].words, start, end) <==> Conflict(segments[i].words, start, end)
    {
      forall w | w in segments[i].words ensures Aligned(w.start) && Aligned(w.end) {
        WordsOf(segments, w);
      }
      ProjectedWordsAreAligned(segments[i], outs[i]);
      forall t ensures Covered(outs[i].words, t) <==> Covered(segments[i].words, t) {
        CoverageKept(segments[i], outs[i], t);
      }
      if Conflict(outs[i].words, start, end) {
        ConflictMoves(outs[i], segments[i], start, end);
      }
      if Conflict(segments[i].words, start, end) {
        ConflictMoves(segments[i], outs[i], start, end);
      }
    }
    ConflictBySegment(segments, start, end);
    ConflictBySegment(outs, start, end);
  }

  lemma ConflictBySegment(segments: seq<Segment>, start: real, end: real)
    ensures Conflict(Words(segments), start, end) <==>
      exists i :: 0 <= i < |segments| && Conflict(segments[i].words, start, end)
  {
    forall w ensures w in Words(segments) <==> exists i :: 0 <= i < |segments| && w in segments[i].words {
      WordsOf(segments, w);
    }
  }

  // ----- What a decision is

  /** The decision on a silence, spelled out: a cut overlaps a word when the two share more than a point. */
  lemma DecisionSpelledOut(d: Decision, s: Silence, words: seq<Word>, c: Request)
    requires Decides(d, s, words, c)
    ensures
      var start, end := Round6(s.start + c.paddingBefore), Round6(s.end - c.paddingAfter);
      && d.raw == s
      && (d.conflicts <==>
            exists w :: w in words && start < end && w.start < w.end && start < w.end && w.start < end)
      && (d.enabled <==> end - start >= c.minimumDuration && !d.conflicts)
      && (d.reason == OverlapsSpokenWord <==> d.conflicts)
      && (d.reason == CutProposed <==> d.enabled)
      && d.start == (if start < 0.0 then 0.0 else start)
      && d.end == (if end < d.start + 0.000001 then d.start + 0.000001 else end)
  {
    hide Round6;
    var start, end := CutStart(s, c), CutEnd(s, c);
    forall w | w in words
      ensures Overlap(start, end, w.start, w.end) > 0.0 <==>
        start < end && w.start < w.end && start < w.end && w.start < end
    {
    }
  }

  // ----- What an enabled cut is

  /** Half a microsecond: as far as rounding can move a time. */
  const HALF := 0.0000005

  /**
   * An enabled cut lies inside the silence it was measured in, is at least the minimum long, and overlaps no word, when
   * each end of the silence is in whole microseconds or padded by at least half a microsecond.
   */
  lemma EnabledCutIsSafe(d: Decision, s: Silence, words: seq<Word>, c: Request)
    requires c.Valid() && Decides(d, s, words, c) && d.enabled && 0.0 <= s.start
    requires Aligned(s.start) || c.paddingBefore >= HALF
    requires Aligned(s.end) || c.paddingAfter >= HALF
    ensures s.start <= d.start < d.end <= s.end
    ensures c.minimumDuration <= d.end - d.start
    ensures forall w :: w in words ==> Overlap(d.start, d.end, w.start, w.end) == 0.0
  {
    hide Round6, Aligned;
    StaysAfter(s.start, c.paddingBefore);
    StaysBefore(s.end, c.paddingAfter);
    EnabledCut(d, s, words, c);
  }

  /** The times of an enabled cut are the rounded ones. */
  lemma EnabledCut(d: Decision, s: Silence, words: seq<Word>, c: Request)
    requires c.Valid() && Decides(d, s, words, c) && d.enabled && 0.0 <= s.start
    ensures d.start == CutStart(s, c) && d.end == CutEnd(s, c) && c.minimumDuration <= d.end - d.start
    ensures !Conflict(words, d.start, d.end)
  {
    hide Round6;
    Round6Monotone(0.0, s.start + c.paddingBefore);
    RoundedZero();
  }

  lemma RoundedZero()
    ensures Round6(0.0) == 0.0
  {
  }

  lemma StaysAfter(t: real, padding: real)
    requires padding >= 0.0 && (Aligned(t) || padding >= HALF)
    ensures t <= Round6(t + padding)
  {
    if Aligned(t) {
      Round6Monotone(t, t + padding);
      Round6Aligned(t);
    } else {
      RoundsNear(t + padding);
    }
  }

  lemma StaysBefore(t: real, padding: real)
    requires padding >= 0.0 && (Aligned(t) || padding >= HALF)
    ensures Round6(t - padding) <= t
  {
    if Aligned(t) {
      Round6Monotone(t - padding, t);
      Round6Aligned(t);
    } else {
      RoundsNear(t - padding);
    }
  }

  lemma RoundsNear(t: real)
    ensures t - HALF <= Round6(t) <= t + HALF
  {
    HalfEvenIsNear(t * MICROS);
  }

  lemma HalfEvenIsNear(x: real)
    ensures x - 0.5 <= HalfEven(x) as real <= x + 0.5
  {
  }

  /** Whatever the silence, rounding moves an enabled cut out of it by at most half a microsecond. */
  lemma CutNearlyInside(d: Decision, s: Silence, words: seq<Word>, c: Request)
    requires c.Valid() && Decides(d, s, words, c) && d.enabled && 0.0 <= s.start
    ensures s.start - HALF <= d.start < d.end <= s.end + HALF
  {
    hide Round6;
    EnabledCut(d, s, words, c);
    RoundsNear(s.start + c.paddingBefore);
    RoundsNear(s.end - c.paddingAfter);
  }

  // ----- Which paddings keep every cut inside

  /** Every enabled cut starts inside its silence exactly when the padding before is at least half a microsecond. */
  lemma PaddingBeforeIff(c: Request)
    requires c.Valid()
    ensures c.paddingBefore >= HALF <==>
      forall d: Decision, s: Silence, words: seq<Word> :: 0.0 <= s.start && Decides(d, s, words, c) && d.enabled ==>
        s.start <= d.start
  {
    hide Decides, Round6, Aligned;
    if c.paddingBefore >= HALF {
      forall d: Decision, s: Silence, words: seq<Word> | 0.0 <= s.start && Decides(d, s, words, c) && d.enabled
        ensures s.start <= d.start {
        EnabledCut(d, s, words, c);
        StaysAfter(s.start, c.paddingBefore);
      }
    } else {
      var s := Silence((HALF - c.paddingBefore) / 2.0, 100.0, -50.0);
      var d := SilentDecision(s, c);
      EnabledCut(d, s, [], c);
      RoundsToZero((HALF + c.paddingBefore) / 2.0);
      assert Decides(d, s, [], c) && d.start < s.start;
    }
  }

  /** Every enabled cut ends inside its silence exactly when the padding after is at least half a microsecond. */
  lemma PaddingAfterIff(c: Request)
    requires c.Valid()
    ensures c.paddingAfter >= HALF <==>
      forall d: Decision, s: Silence, words: seq<Word> :: 0.0 <= s.start && Decides(d, s, words, c) && d.enabled ==>
        d.end <= s.end
  {
    hide Decides, Round6, Aligned;
    if c.paddingAfter >= HALF {
      forall d: Decision, s: Silence, words: seq<Word> | 0.0 <= s.start && Decides(d, s, words, c) && d.enabled
        ensures d.end <= s.end {
        EnabledCut(d, s, words, c);
        StaysBefore(s.end, c.paddingAfter);
      }
    } else {
      var s := Silence(0.0, 100.0 - (HALF - c.paddingAfter) / 2.0, -50.0);
      var d := SilentDecision(s, c);
      EnabledCut(d, s, [], c);
      RoundsToHundred((HALF + c.paddingAfter) / 2.0);
      assert Decides(d, s, [], c) && s.end < d.end;
    }
  }

  /** The decision on a long silence in which nobody speaks. */
  lemma SilentDecision(s: Silence, c: Request) returns (d: Decision)
    requires c.Valid() && 0.0 <= s.start <= 1.0 && 99.0 <= s.end
    ensures Decides(d, s, [], c) && d.enabled
  {
    hide Round6;
    RoundsNear(s.start + c.paddingBefore);
    RoundsNear(s.end - c.paddingAfter);
    var start, end := CutStart(s, c), CutEnd(s, c);
    d := Decision(Max(0.0, start), Max(Max(0.0, start) + 0.000001, end), true, false, CutProposed, s);
  }

  lemma RoundsToZero(t: real)
    requires 0.0 <= t < HALF
    ensures Round6(t) == 0.0
  {
    assert 0.0 <= t * MICROS < 0.5;
    assert (t * MICROS).Floor == 0;
  }

  lemma RoundsToHundred(t: real)
    requires 0.0 <= t < HALF
    ensures Round6(100.0 - t) == 100.0
  {
    var x := (100.0 - t) * MICROS;
    assert 99999999.5 < x <= 100000000.0;
    assert x.Floor == 99999999 || x.Floor == 100000000;
  }

  /** Without padding, a silence that is not in whole microseconds has an enabled cut that leaves it at both ends. */
  lemma UnalignedCutEscapes()
    ensures
      var s, c := Silence(0.0000004, 1.0000006, -50.0), Request(0.0, 0.0, 0.1);
      var d := Decision(0.0, 1.000001, true, false, CutProposed, s);
      c.Valid() && Decides(d, s, [], c) && d.enabled && d.start < s.start && s.end < d.end
  {
    assert 0.0000004 * MICROS == 0.4;
    assert 1.0000006 * MICROS == 1000000.6;
  }
}
