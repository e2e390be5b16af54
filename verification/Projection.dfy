// The adjacent-successor projection of word timings (`asr_derived_timing.py`): every run of zero-length boundary
// points shares out, in whole microseconds, the interval of the word that follows it.
//
// This module says declaratively what the projection accepts, where it puts every word and what it blames, without
// following the loops; those are in `Derivation`, proved against this description.
module Projection {
  import opened Arithmetic
  import opened Wrappers
  import opened Rounding
  import opened Transcripts

  // ----- Failures

  datatype Path = SegmentPath(segment: nat) | WordPath(segment: nat, word: nat)

  datatype Reason =
    | RawWordOverlap
    | ZeroDurationWithoutBoundarySemantics
    | RunHasNoSuccessorInterval
    | RunNotAnchoredToPositiveSuccessor
    | RunOverlapsPreviousInterval
    | InsufficientResolution
    | SegmentNotPositive
    | WordNotPositive
    | WordOutsideSegment
    | WordOverlap

  datatype TimingRequired = TimingRequired(blocked: seq<Path>, reasons: seq<Reason>)

  // ----- Runs

  /** How many boundary points stand immediately before index `b`. */
  function RunBefore(words: seq<Word>, b: nat): (k: nat)
    requires b <= |words|
    ensures k <= b
    ensures forall j :: b - k <= j < b ==> words[j].semantics.BoundaryPoint?
    ensures k < b ==> !words[b - k - 1].semantics.BoundaryPoint?
  {
    if b == 0 || !words[b - 1].semantics.BoundaryPoint? then 0 else 1 + RunBefore(words, b - 1)
  }

  /** The first index from `j` on whose word is not a boundary point. */
  function Successor(words: seq<Word>, j: nat): (b: nat)
    requires j <= |words|
    ensures j <= b <= |words|
    ensures forall i :: j <= i < b ==> words[i].semantics.BoundaryPoint?
    ensures b < |words| ==> !words[b].semantics.BoundaryPoint?
    decreases |words| - j
  {
    if j == |words| || !words[j].semantics.BoundaryPoint? then j else Successor(words, j + 1)
  }

  /** Where the run of boundary points that share the point `anchor` stops, counting from `j`. */
  function RunEnd(words: seq<Word>, j: nat, anchor: int): (e: nat)
    requires j <= |words|
    ensures j <= e <= |words|
    ensures forall i :: j <= i < e ==> SharesPoint(words[i], anchor)
    ensures e < |words| ==> !SharesPoint(words[e], anchor)
    decreases |words| - j
  {
    if j == |words| || !SharesPoint(words[j], anchor) then j else RunEnd(words, j + 1, anchor)
  }

  predicate SharesPoint(w: Word, anchor: int) {
    w.StartUs() == anchor && w.EndUs() == anchor && w.semantics.BoundaryPoint?
  }

  // ----- What is accepted

  /** Where the word before index `j` stops; the segment's start when there is none. */
  function EndBefore(seg: Segment, j: nat): int
    requires j <= |seg.words|
  {
    if j == 0 then seg.StartUs() else seg.words[j - 1].EndUs()
  }

  /**
   * Word `j` can be placed. No word starts before the previous one ends; a boundary point is followed immediately by
   * a boundary point at the same microsecond or by the provider interval that starts there; and an interval that has
   * a run of boundary points before it is at least as many microseconds long as there are words to share it.
   */
  predicate Placeable(seg: Segment, j: nat)
    requires j < |seg.words|
  {
    var w := seg.words[j];
    && EndBefore(seg, j) <= w.StartUs()
    && if w.semantics.BoundaryPoint? then
         && j + 1 < |seg.words|
         && seg.words[j + 1].StartUs() == w.StartUs()
         && (seg.words[j + 1].semantics.BoundaryPoint?
             || (seg.words[j + 1].IsInterval() && seg.words[j + 1].semantics.PositiveInterval?))
       else
         && w.IsInterval()
         && (RunBefore(seg.words, j) > 0 ==> RunBefore(seg.words, j) + 1 <= w.EndUs() - w.StartUs())
  }

  predicate PlaceableBefore(seg: Segment, n: nat)
    requires n <= |seg.words|
  {
    forall j :: 0 <= j < n ==> Placeable(seg, j)
  }

  predicate Partitionable(seg: Segment) {
    PlaceableBefore(seg, |seg.words|)
  }

  /** The segment is positive and no word ends after it. */
  predicate Enclosing(seg: Segment) {
    && seg.StartUs() < seg.EndUs()
    && forall j :: 0 <= j < |seg.words| ==> seg.words[j].EndUs() <= seg.EndUs()
  }

  predicate Projectable(t: Transcript) {
    forall i :: 0 <= i < |t.segments| ==> Partitionable(t.segments[i]) && Enclosing(t.segments[i])
  }

  // ----- Where every word goes

  /** The `i`-th of the boundaries that cut `span` microseconds from `anchor` on into `parts` parts. */
  function Cut(anchor: int, span: int, parts: nat, i: int): int
    requires parts > 0
  {
    anchor + (span * i) / parts
  }

  /** Word `j` after the projection. */
  function Retimed(words: seq<Word>, j: nat): ProviderWord
    requires j < |words|
  {
    var b := Successor(words, j);
    var k := RunBefore(words, b);
    if b == |words| || k == 0 then words[j]
    else
      var anchor := words[b].StartUs();
      var span := words[b].EndUs() - anchor;
      Share(words[j], Cut(anchor, span, k + 1, j - (b - k)), Cut(anchor, span, k + 1, j - (b - k) + 1))
  }

  function Share(w: Word, startUs: int, endUs: int): ProviderWord {
    ProviderWord(ToSeconds(startUs), ToSeconds(endUs), w.text, w.confidence, DerivedInterval)
  }

  /** `out` is the projection of `seg`. */
  predicate IsProjection(seg: Segment, out: Segment) {
    && out == seg.(words := out.words)
    && |out.words| == |seg.words|
    && forall j :: 0 <= j < |seg.words| ==> out.words[j] == Retimed(seg.words, j)
  }

  // ----- Integer partitions

  /** Floor division is monotone, and a step of at least `parts` moves it. */
  lemma CutStep(anchor: int, span: int, parts: nat, i: int)
    requires parts > 0
    ensures span / parts <= Cut(anchor, span, parts, i + 1) - Cut(anchor, span, parts, i) <= span / parts + 1
  {
    var x := span * i;
    assert span * (i + 1) == x + span;
    FloorSum(x, span, parts);
  }

  lemma CutEnds(anchor: int, span: int, parts: nat)
    requires parts > 0
    ensures Cut(anchor, span, parts, 0) == anchor
    ensures Cut(anchor, span, parts, parts) == anchor + span
  {
    var q := (span * parts) / parts;
    assert parts * (span - q) == (span * parts) % parts;
    Scaled(parts, span - q, -1);
    Scaled(parts, span - q, 1);
  }

  lemma AtLeastOne(span: int, parts: nat)
    requires parts > 0
    ensures span >= parts <==> span / parts >= 1
  {
    assert span == parts * (span / parts) + span % parts;
    if span / parts >= 1 {
      assert parts * (span / parts) >= parts;
    } else {
      assert parts * (span / parts) <= 0;
    }
  }

  /** The check of the boundaries finds an empty part exactly when there are fewer microseconds than parts. */
  lemma {:induction false} EmptyPart(anchor: int, span: int, parts: nat)
    requires parts > 0
    ensures (exists i :: 0 <= i < parts && Cut(anchor, span, parts, i + 1) <= Cut(anchor, span, parts, i)) <==>
      span < parts
  {
    AtLeastOne(span, parts);
    if span >= parts {
      forall i | 0 <= i < parts ensures Cut(anchor, span, parts, i) < Cut(anchor, span, parts, i + 1) {
        CutStep(anchor, span, parts, i);
      }
    } else if forall i :: 0 <= i < parts ==> Cut(anchor, span, parts, i) < Cut(anchor, span, parts, i + 1) {
      CutEnds(anchor, span, parts);
      StrictlyRising(anchor, span, parts, parts);
      assert false;
    }
  }

  lemma {:induction false} StrictlyRising(anchor: int, span: int, parts: nat, n: nat)
    requires 0 < parts && n <= parts
    requires forall i :: 0 <= i < parts ==> Cut(anchor, span, parts, i) < Cut(anchor, span, parts, i + 1)
    ensures Cut(anchor, span, parts, n) >= Cut(anchor, span, parts, 0) + n
  {
    if n > 0 {
      StrictlyRising(anchor, span, parts, n - 1);
      assert Cut(anchor, span, parts, n - 1) < Cut(anchor, span, parts, n - 1 + 1);
    }
  }

  lemma {:induction false} CutMonotone(anchor: int, span: int, parts: nat, i: int, j: int)
    requires 0 < parts <= span && i <= j
    ensures Cut(anchor, span, parts, i) <= Cut(anchor, span, parts, j)
    decreases j - i
  {
    if i < j {
      AtLeastOne(span, parts);
      CutStep(anchor, span, parts, i);
      CutMonotone(anchor, span, parts, i + 1, j);
    }
  }

  // ----- Units: a lone interval, or a run with its successor

  predicate UnitStart(words: seq<Word>, a: nat)
    requires a <= |words|
  {
    a == 0 || !words[a - 1].semantics.BoundaryPoint?
  }

  lemma UnitShape(words: seq<Word>, a: nat, b: nat)
    requires a <= b < |words| && UnitStart(words, a)
    requires forall j :: a <= j < b ==> words[j].semantics.BoundaryPoint?
    requires !words[b].semantics.BoundaryPoint?
    ensures RunBefore(words, b) == b - a
    ensures forall j :: a <= j <= b ==> Successor(words, j) == b
  {
  }

  function All(i: nat, a: nat, e: nat, reason: Reason): TimingRequired
    requires a <= e
  {
    TimingRequired(seq(e - a, k requires 0 <= k => WordPath(i, a + k)), seq(e - a, _ => reason))
  }

  function Only(i: nat, a: nat, reason: Reason): TimingRequired {
    TimingRequired([WordPath(i, a)], [reason])
  }

  /** Why the unit that starts at word `a` of segment `i` cannot be projected, if it cannot. */
  function UnitFailure(i: nat, seg: Segment, a: nat): Option<TimingRequired>
    requires a < |seg.words|
  {
    var words := seg.words;
    var anchor := words[a].StartUs();
    if words[a].IsInterval() then
      if anchor < EndBefore(seg, a) then Some(Only(i, a, RawWordOverlap)) else None
    else if !words[a].semantics.BoundaryPoint? then
      Some(Only(i, a, ZeroDurationWithoutBoundarySemantics))
    else
      var e := RunEnd(words, a, anchor);
      if e == |words| then Some(All(i, a, e, RunHasNoSuccessorInterval))
      else if !(words[e].StartUs() == anchor && words[e].IsInterval() && words[e].semantics.PositiveInterval?) then
        Some(All(i, a, e, RunNotAnchoredToPositiveSuccessor))
      else if anchor < EndBefore(seg, a) then Some(Only(i, a, RunOverlapsPreviousInterval))
      else if words[e].EndUs() - anchor < e - a + 1 then Some(All(i, a, e + 1, InsufficientResolution))
      else None
  }

  /** `f` reports the first unit of segment `i` that cannot be projected. */
  ghost predicate Blames(i: nat, seg: Segment, f: TimingRequired) {
    exists a :: BlamesAt(i, seg, f, a)
  }

  ghost predicate BlamesAt(i: nat, seg: Segment, f: TimingRequired, a: nat) {
    && a < |seg.words|
    && UnitStart(seg.words, a)
    && PlaceableBefore(seg, a)
    && UnitFailure(i, seg, a) == Some(f)
  }

  /** A unit whose words can all be placed does not fail. */
  lemma PlaceableUnit(i: nat, seg: Segment, a: nat, m: nat)
    requires a < m <= |seg.words| && UnitStart(seg.words, a) && UnitStart(seg.words, m)
    requires PlaceableBefore(seg, m)
    ensures UnitFailure(i, seg, a).None?
  {
    var words := seg.words;
    assert Placeable(seg, a);
    if words[a].semantics.BoundaryPoint? {
      var e := RunEnd(words, a, words[a].StartUs());
      assert e > a && Placeable(seg, e - 1) && SharesPoint(words[e - 1], words[a].StartUs());
      assert e < m && Placeable(seg, e);
      UnitShape(words, a, e);
    }
  }

  /** A unit that does not fail has words that can all be placed. */
  lemma UnitPlaceable(i: nat, seg: Segment, a: nat)
    requires a < |seg.words| && UnitStart(seg.words, a)
    requires UnitFailure(i, seg, a).None?
    ensures seg.words[a].IsInterval() ==> Placeable(seg, a)
    ensures !seg.words[a].IsInterval() ==>
      var e := RunEnd(seg.words, a, seg.words[a].StartUs());
      e < |seg.words| && forall j :: a <= j <= e ==> Placeable(seg, j)
  {
    var words := seg.words;
    if words[a].IsInterval() {
      UnitShape(words, a, a);
    } else {
      RunPlaceable(seg, a, RunEnd(words, a, words[a].StartUs()));
    }
  }

  lemma RunPlaceable(seg: Segment, a: nat, e: nat)
    requires a < e < |seg.words| && UnitStart(seg.words, a)
    requires EndBefore(seg, a) <= seg.words[a].StartUs()
    requires forall j :: a <= j < e ==> SharesPoint(seg.words[j], seg.words[a].StartUs())
    requires seg.words[e].StartUs() == seg.words[a].StartUs()
    requires seg.words[e].IsInterval() && seg.words[e].semantics.PositiveInterval?
    requires seg.words[e].EndUs() - seg.words[e].StartUs() >= e - a + 1
    ensures forall j :: a <= j <= e ==> Placeable(seg, j)
  {
    var words := seg.words;
    UnitShape(words, a, e);
    forall j | a <= j <= e ensures Placeable(seg, j) {
      assert a < j ==> SharesPoint(words[j - 1], words[a].StartUs());
      if j < e {
        assert SharesPoint(words[j], words[a].StartUs());
        assert j + 1 < e ==> SharesPoint(words[j + 1], words[a].StartUs());
      }
    }
  }

  /** A segment is blamed only when it cannot be projected, and for one thing only. */
  lemma BlameIsExact(i: nat, seg: Segment, f: TimingRequired)
    requires Blames(i, seg, f)
    ensures !Partitionable(seg)
    ensures forall g :: Blames(i, seg, g) ==> g == f
  {
    var a: nat :| BlamesAt(i, seg, f, a);
    var n := |seg.words|;
    if Partitionable(seg) {
      assert Placeable(seg, n - 1) && UnitStart(seg.words, n);
      PlaceableUnit(i, seg, a, n);
    }
    forall g | Blames(i, seg, g) ensures g == f {
      var c: nat :| BlamesAt(i, seg, g, c);
      if a < c {
        PlaceableUnit(i, seg, a, c);
      } else if c < a {
        PlaceableUnit(i, seg, c, a);
      }
    }
  }

  // ----- What a failure says

  /** Words `a..e` are zero-length boundary points at one and the same microsecond. */
  predicate ArePoints(words: seq<Word>, a: nat, e: nat)
    requires a < e <= |words|
  {
    forall j :: a <= j < e ==>
      && words[j].semantics.BoundaryPoint?
      && words[j].StartUs() == words[j].EndUs() == words[a].StartUs()
  }

  /** What the reason given for the blocked words `a..e` says of the words. */
  predicate Explains(seg: Segment, a: nat, e: nat, reason: Reason)
    requires a < e <= |seg.words|
  {
    var words := seg.words;
    var start := words[a].StartUs();
    match reason
    case RawWordOverlap =>
      && e == a + 1
      && start < words[a].EndUs()
      && start < (if a == 0 then seg.StartUs() else words[a - 1].EndUs())
    case ZeroDurationWithoutBoundarySemantics =>
      e == a + 1 && words[a].EndUs() <= start && !words[a].semantics.BoundaryPoint?
    case RunHasNoSuccessorInterval =>
      ArePoints(words, a, e) && e == |words|
    case RunNotAnchoredToPositiveSuccessor =>
      && ArePoints(words, a, e)
      && e < |words|
      && !(words[e].semantics.BoundaryPoint? && words[e].StartUs() == words[e].EndUs() == start)
      && (words[e].StartUs() != start || words[e].EndUs() <= start || !words[e].semantics.PositiveInterval?)
    case RunOverlapsPreviousInterval =>
      && e == a + 1
      && ArePoints(words, a, e)
      && start < (if a == 0 then seg.StartUs() else words[a - 1].EndUs())
      && exists b :: a < b < |words| && ArePoints(words, a, b) && StartsInterval(words[b], start)
    case InsufficientResolution =>
      && a + 1 < e
      && ArePoints(words, a, e - 1)
      && StartsInterval(words[e - 1], start)
      && words[e - 1].EndUs() - start < e - a
      && (if a == 0 then seg.StartUs() else words[a - 1].EndUs()) <= start
    case _ => false
  }

  predicate StartsInterval(w: Word, startUs: int) {
    w.StartUs() == startUs && startUs < w.EndUs() && w.semantics.PositiveInterval?
  }

  /** `f` blocks exactly the words `a..e` of segment `i`, in order, all for one reason. */
  predicate Blocks(f: TimingRequired, i: nat, a: nat, e: nat, reason: Reason) {
    && |f.blocked| == |f.reasons| == e - a
    && forall k :: 0 <= k < e - a ==> f.blocked[k] == WordPath(i, a + k) && f.reasons[k] == reason
  }

  /**
   * A failure blocks consecutive words, for one reason that says what is wrong with them. The first of them starts a
   * unit: all words before it can be placed, no run goes on there, and some word of its unit cannot be placed.
   */
  lemma BlameIsExplained(i: nat, seg: Segment, f: TimingRequired) returns (a: nat, e: nat, reason: Reason)
    requires Blames(i, seg, f)
    ensures a < e <= |seg.words| && Blocks(f, i, a, e, reason) && Explains(seg, a, e, reason)
    ensures a == 0 || !seg.words[a - 1].semantics.BoundaryPoint?
    ensures forall j :: 0 <= j < a ==> Placeable(seg, j)
    ensures
      var b := Successor(seg.words, a);
      b == |seg.words| || exists j :: a <= j <= b && !Placeable(seg, j)
  {
    hide Placeable, ToMicros;
    a :| BlamesAt(i, seg, f, a);
    e, reason := UnitExplained(i, seg, a);
    var b := Successor(seg.words, a);
    if b < |seg.words| && forall j :: a <= j <= b ==> Placeable(seg, j) {
      NothingToBlame(i, seg, a);
    }
  }

  lemma UnitExplained(i: nat, seg: Segment, a: nat) returns (e: nat, reason: Reason)
    requires a < |seg.words| && UnitFailure(i, seg, a).Some?
    ensures a < e <= |seg.words|
    ensures Blocks(UnitFailure(i, seg, a).value, i, a, e, reason) && Explains(seg, a, e, reason)
  {
    hide ToMicros;
    var words := seg.words;
    var f := UnitFailure(i, seg, a).value;
    e, reason := a + |f.blocked|, f.reasons[0];
    if !words[a].IsInterval() && words[a].semantics.BoundaryPoint? {
      StartIsEnd(words[a]);
      var b := RunEnd(words, a, words[a].StartUs());
      assert b > a;
      assert ArePoints(words, a, b);
    }
  }

  lemma StartIsEnd(w: Word)
    requires w.semantics.BoundaryPoint?
    ensures w.StartUs() == w.EndUs()
  {
  }

  lemma NothingToBlame(i: nat, seg: Segment, a: nat)
    requires a < |seg.words| && UnitStart(seg.words, a) && PlaceableBefore(seg, a)
    requires
      var b := Successor(seg.words, a);
      b < |seg.words| && forall j :: a <= j <= b ==> Placeable(seg, j)
    ensures UnitFailure(i, seg, a).None?
  {
    hide Placeable;
    PlaceableUnit(i, seg, a, Successor(seg.words, a) + 1);
  }
}
