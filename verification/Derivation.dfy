// The loops of `asr_derived_timing.py`: the projection of a segment, the validator that re-checks every projected
// segment, and the two together over a whole transcript.
module Derivation {
  import opened Wrappers
  import opened Rounding
  import opened Transcripts
  import opened Projection
  import opened ProjectionLaws

  // ----- The record kept of every word

  datatype Action = PreservedProviderInterval | PartitionedBoundaryPoint | RepartitionedSuccessorInterval

  datatype Timing = Timing(
    globalIndex: nat,
    segmentIndex: nat,
    wordIndex: nat,
    text: string,
    rawStart: real,
    rawEnd: real,
    derivedStart: real,
    derivedEnd: real,
    action: Action,
    sourceSemantics: Semantics)

  /** The record of word `j`, when `g` words came before its segment `i`. */
  function TimingOf(g: nat, i: nat, words: seq<Word>, j: nat): Timing
    requires j < |words|
  {
    Recorded(g + j, i, j, words[j], Retimed(words, j),
      if words[j].semantics.BoundaryPoint? then PartitionedBoundaryPoint
      else if RunBefore(words, j) > 0 then RepartitionedSuccessorInterval
      else PreservedProviderInterval)
  }

  function Recorded(global: nat, i: nat, j: nat, raw: Word, out: ProviderWord, action: Action): Timing {
    Timing(global, i, j, raw.text, raw.start, raw.end, out.start, out.end, action, raw.semantics)
  }

  /** `timings` holds one record for every word of segment `i`, in order. */
  predicate AreTimings(g: nat, i: nat, words: seq<Word>, timings: seq<Timing>) {
    && |timings| == |words|
    && forall j :: 0 <= j < |words| ==> timings[j] == TimingOf(g, i, words, j)
  }

  /** The lists the loops append to, once the first `n` words are done. */
  predicate Built(g: nat, i: nat, words: seq<Word>, n: nat, derived: seq<Word>, timings: seq<Timing>)
    requires n <= |words|
  {
    && |derived| == |timings| == n
    && (forall j :: 0 <= j < n ==> derived[j] == Retimed(words, j))
    && (forall j :: 0 <= j < n ==> timings[j] == TimingOf(g, i, words, j))
  }

  lemma BuiltOneMore(g: nat, i: nat, words: seq<Word>, n: nat, derived: seq<Word>, timings: seq<Timing>, w: Word,
      t: Timing)
    requires n < |words| && Built(g, i, words, n, derived, timings)
    requires w == Retimed(words, n) && t == TimingOf(g, i, words, n)
    ensures Built(g, i, words, n + 1, derived + [w], timings + [t])
  {
  }

  /** A lone interval is kept. */
  lemma LoneBuilt(g: nat, i: nat, words: seq<Word>, a: nat, derived: seq<Word>, timings: seq<Timing>, t: Timing)
    requires a < |words| && UnitStart(words, a) && words[a].IsInterval() && Built(g, i, words, a, derived, timings)
    requires t == Recorded(g + a, i, a, words[a], words[a], PreservedProviderInterval)
    ensures Built(g, i, words, a + 1, derived + [words[a]], timings + [t])
    ensures UnitStart(words, a + 1)
  {
    hide Retimed, RunBefore, ToMicros, Built;
    LoneRetimed(words, a);
    BuiltOneMore(g, i, words, a, derived, timings, words[a], t);
  }

  lemma CutsBuilt(anchor: int, span: int, parts: nat, boundaries: seq<int>)
    requires 0 < parts && |boundaries| == parts + 1
    requires forall k :: 0 <= k <= parts ==> boundaries[k] == anchor + (span * k) / parts
    ensures AreCuts(anchor, span, parts, boundaries)
  {
  }

  predicate AreCuts(anchor: int, span: int, parts: nat, boundaries: seq<int>)
    requires 0 < parts
  {
    && |boundaries| == parts + 1
    && forall k :: 0 <= k <= parts ==> boundaries[k] == Cut(anchor, span, parts, k)
  }

  // ----- One segment

  method DeriveSegment(i: nat, g: nat, seg: Segment) returns (r: Result<(Segment, seq<Timing>), TimingRequired>)
    ensures r.Success? <==> Partitionable(seg)
    ensures r.Success? ==> IsProjection(seg, r.value.0) && AreTimings(g, i, seg.words, r.value.1)
    ensures r.Failure? ==> Blames(i, seg, r.error)
  {
    var words := seg.words;
    var derived: seq<Word> := [];
    var timings: seq<Timing> := [];
    var wordIndex := 0;
    var previousEnd := seg.StartUs();
    while wordIndex < |words|
      invariant wordIndex <= |words| && UnitStart(words, wordIndex)
      invariant PlaceableBefore(seg, wordIndex)
      invariant previousEnd == EndBefore(seg, wordIndex)
      invariant Built(g, i, words, wordIndex, derived, timings)
    {
      var failure: Option<TimingRequired>;
      ghost var a := wordIndex;
      failure, wordIndex, derived, timings, previousEnd := DeriveUnit(i, g, seg, wordIndex, derived, timings,
        previousEnd);
      if failure.Some? {
        assert BlamesAt(i, seg, failure.value, a);
        BlameIsExact(i, seg, failure.value);
        return Failure(failure.value);
      }
    }
    r := Success((seg.(words := derived), timings));
  }

  /** The loop body: a lone interval, or a run of boundary points with its successor. */
  method DeriveUnit(i: nat, g: nat, seg: Segment, a: nat, derived: seq<Word>, timings: seq<Timing>, previousEnd: int)
    returns (failure: Option<TimingRequired>, next: nat, derived': seq<Word>, timings': seq<Timing>, end: int)
    requires a < |seg.words| && UnitStart(seg.words, a)
    requires PlaceableBefore(seg, a)
    requires previousEnd == EndBefore(seg, a)
    requires Built(g, i, seg.words, a, derived, timings)
    ensures failure == UnitFailure(i, seg, a)
    ensures failure.None? ==>
      && a < next <= |seg.words|
      && UnitStart(seg.words, next)
      && PlaceableBefore(seg, next)
      && Built(g, i, seg.words, next, derived', timings')
      && end == EndBefore(seg, next)
  {
    hide Retimed, RunBefore, Successor, Cut, Placeable, Built, TimingOf, ToMicros;
    var words := seg.words;
    failure, next, derived', timings', end := None, a, derived, timings, previousEnd;
    var word := words[a];
    StartsLate(word);
    var anchor := word.StartUs();
    if word.EndUs() > anchor {
      if anchor < previousEnd {
        failure := Some(Only(i, a, RawWordOverlap));
        return;
      }
      UnitPlaceable(i, seg, a);
      var record := Recorded(g + a, i, a, word, word, PreservedProviderInterval);
      LoneBuilt(g, i, words, a, derived, timings, record);
      derived', timings', next, end := derived + [word], timings + [record], a + 1, word.EndUs();
      return;
    }
    if !word.semantics.BoundaryPoint? {
      failure := Some(Only(i, a, ZeroDurationWithoutBoundarySemantics));
      return;
    }
    var e := FindRunEnd(words, a, anchor);
    if e >= |words| {
      failure := Some(All(i, a, e, RunHasNoSuccessorInterval));
      return;
    }
    var successor := words[e];
    if successor.StartUs() != anchor || successor.EndUs() <= anchor || !successor.semantics.PositiveInterval? {
      failure := Some(All(i, a, e, RunNotAnchoredToPositiveSuccessor));
      return;
    }
    if anchor < previousEnd {
      failure := Some(Only(i, a, RunOverlapsPreviousInterval));
      return;
    }
    var parts := e - a + 1;
    var span := successor.EndUs() - anchor;
    var boundaries := seq(parts + 1, k => anchor + (span * k) / parts);
    CutsBuilt(anchor, span, parts, boundaries);
    var tooFine := HasEmptyPart(anchor, span, parts, boundaries);
    if tooFine {
      failure := Some(All(i, a, e + 1, InsufficientResolution));
      return;
    }
    UnitPlaceable(i, seg, a);
    derived', timings' := ShareOut(i, g, words, a, e, boundaries, derived, timings);
    next, end := e + 1, boundaries[parts];
    CutEnds(anchor, span, parts);
  }

  method FindRunEnd(words: seq<Word>, a: nat, anchor: int) returns (e: nat)
    requires a <= |words|
    ensures e == RunEnd(words, a, anchor)
  {
    e := a;
    while e < |words| && words[e].StartUs() == anchor && words[e].EndUs() == anchor && words[e].semantics.BoundaryPoint?
      invariant a <= e <= |words|
      invariant RunEnd(words, a, anchor) == RunEnd(words, e, anchor)
    {
      e := e + 1;
    }
  }

  method HasEmptyPart(ghost anchor: int, ghost span: int, parts: nat, boundaries: seq<int>) returns (found: bool)
    requires 0 < parts && AreCuts(anchor, span, parts, boundaries)
    ensures found <==> span < parts
  {
    EmptyPart(anchor, span, parts);
    found := exists k :: 0 <= k < parts && boundaries[k + 1] <= boundaries[k];
    if found {
      var k :| 0 <= k < parts && boundaries[k + 1] <= boundaries[k];
      assert Cut(anchor, span, parts, k + 1) <= Cut(anchor, span, parts, k);
    } else {
      forall k | 0 <= k < parts ensures Cut(anchor, span, parts, k) < Cut(anchor, span, parts, k + 1) {
        assert boundaries[k] < boundaries[k + 1];
      }
    }
  }

  /** Appends the words of a run and of its successor, each between two neighbouring boundaries. */
  method ShareOut(i: nat, g: nat, words: seq<Word>, a: nat, e: nat, boundaries: seq<int>,
                  derived: seq<Word>, timings: seq<Timing>)
    returns (derived': seq<Word>, timings': seq<Timing>)
    requires IsRun(words, a, e)
    requires AreCuts(words[a].StartUs(), words[e].EndUs() - words[a].StartUs(), e - a + 1, boundaries)
    requires Built(g, i, words, a, derived, timings)
    ensures Built(g, i, words, e + 1, derived', timings')
  {
    derived', timings' := derived, timings;
    for source := a to e
      invariant Built(g, i, words, source, derived', timings')
    {
      RunRetimed(words, a, e, source);
      var share: Word := Share(words[source], boundaries[source - a], boundaries[source - a + 1]);
      var record := Recorded(g + source, i, source, words[source], share, PartitionedBoundaryPoint);
      BuiltOneMore(g, i, words, source, derived', timings', share, record);
      derived', timings' := derived' + [share], timings' + [record];
    }
    RunRetimed(words, a, e, e);
    var last: Word := Share(words[e], boundaries[e - a], boundaries[e - a + 1]);
    var record := Recorded(g + e, i, e, words[e], last, RepartitionedSuccessorInterval);
    BuiltOneMore(g, i, words, e, derived', timings', last, record);
    derived', timings' := derived' + [last], timings' + [record];
  }

  // ----- The validator

  /** The latest end among the segment's start and the words before index `n`. */
  function LatestEnd(seg: Segment, n: nat): int
    requires n <= |seg.words|
  {
    if n == 0 then seg.StartUs()
    else
      var before := LatestEnd(seg, n - 1);
      if before < seg.words[n - 1].EndUs() then seg.words[n - 1].EndUs() else before
  }

  function WordReason(seg: Segment, j: nat): Option<Reason>
    requires j < |seg.words|
  {
    var w := seg.words[j];
    if w.EndUs() <= w.StartUs() then Some(WordNotPositive)
    else if w.StartUs() < seg.StartUs() || w.EndUs() > seg.EndUs() then Some(WordOutsideSegment)
    else if w.StartUs() < LatestEnd(seg, j) then Some(WordOverlap)
    else None
  }

  const NO_ISSUES := TimingRequired([], [])

  function And(f: TimingRequired, path: Path, reason: Reason): TimingRequired {
    TimingRequired(f.blocked + [path], f.reasons + [reason])
  }

  /** Everything wrong with the first `n` words of segment `i`, after the issues `f`. */
  function WordIssues(f: TimingRequired, i: nat, seg: Segment, n: nat): TimingRequired
    requires n <= |seg.words|
  {
    if n == 0 then f
    else
      var before := WordIssues(f, i, seg, n - 1);
      match WordReason(seg, n - 1)
      case None => before
      case Some(reason) => And(before, WordPath(i, n - 1), reason)
  }

  /** Everything wrong with the first `n` segments. */
  function Issues(segments: seq<Segment>, n: nat): TimingRequired
    requires n <= |segments|
  {
    if n == 0 then NO_ISSUES
    else
      var before := Issues(segments, n - 1);
      var seg := segments[n - 1];
      if seg.EndUs() <= seg.StartUs() then And(before, SegmentPath(n - 1), SegmentNotPositive)
      else WordIssues(before, n - 1, seg, |seg.words|)
  }

  method ValidatePositiveProjection(segments: seq<Segment>) returns (failure: Option<TimingRequired>)
    ensures failure.None? <==> forall i :: 0 <= i < |segments| ==> Sequential(segments[i]) && Enclosing(segments[i])
    ensures failure.Some? ==> failure.value == Issues(segments, |segments|)
  {
    var f := NO_ISSUES;
    for i := 0 to |segments|
      invariant f == Issues(segments, i)
    {
      var seg := segments[i];
      var previousEnd := seg.StartUs();
      if seg.EndUs() <= seg.StartUs() {
        f := And(f, SegmentPath(i), SegmentNotPositive);
      } else {
        ghost var before := f;
        for j := 0 to |seg.words|
          invariant previousEnd == LatestEnd(seg, j)
          invariant f == WordIssues(before, i, seg, j)
        {
          var w := seg.words[j];
          if w.EndUs() <= w.StartUs() {
            f := And(f, WordPath(i, j), WordNotPositive);
          } else if w.StartUs() < seg.StartUs() || w.EndUs() > seg.EndUs() {
            f := And(f, WordPath(i, j), WordOutsideSegment);
          } else if w.StartUs() < previousEnd {
            f := And(f, WordPath(i, j), WordOverlap);
          }
          previousEnd := if previousEnd < w.EndUs() then w.EndUs() else previousEnd;
        }
      }
    }
    IssuesMeaning(segments, |segments|);
    failure := if f.blocked != [] then Some(f) else None;
  }

  lemma {:induction false} SequentialEnds(seg: Segment, n: nat)
    requires n <= |seg.words|
    requires SequentialBefore(seg, n)
    ensures LatestEnd(seg, n) == EndBefore(seg, n)
    ensures seg.StartUs() <= EndBefore(seg, n)
  {
    if n > 0 {
      SequentialEnds(seg, n - 1);
      assert InOrder(seg, n - 1);
    }
  }

  /** Nothing is wrong with a segment's words exactly when they are sequential and stay inside. */
  lemma {:induction false} WordIssuesMeaning(f: TimingRequired, i: nat, seg: Segment, n: nat)
    requires n <= |seg.words|
    ensures |WordIssues(f, i, seg, n).blocked| >= |f.blocked|
    ensures |WordIssues(f, i, seg, n).blocked| == |f.blocked| <==>
      SequentialBefore(seg, n) && forall j :: 0 <= j < n ==> seg.words[j].EndUs() <= seg.EndUs()
  {
    if n > 0 {
      WordIssuesMeaning(f, i, seg, n - 1);
      if SequentialBefore(seg, n - 1) {
        SequentialEnds(seg, n - 1);
        assert SequentialBefore(seg, n) <==> InOrder(seg, n - 1);
      }
    }
  }

  lemma {:induction false} IssuesMeaning(segments: seq<Segment>, n: nat)
    requires n <= |segments|
    ensures Issues(segments, n).blocked == [] <==>
      forall i :: 0 <= i < n ==> Sequential(segments[i]) && Enclosing(segments[i])
  {
    if n > 0 {
      IssuesMeaning(segments, n - 1);
      var seg := segments[n - 1];
      WordIssuesMeaning(Issues(segments, n - 1), n - 1, seg, |seg.words|);
    }
  }

  /** What the validator can still find wrong with a projected segment. */
  predicate LeftToFind(segments: seq<Segment>, path: Path, reason: Reason) {
    match path
    case SegmentPath(i) => i < |segments| && reason.SegmentNotPositive? && segments[i].EndUs() <= segments[i].StartUs()
    case WordPath(i, j) =>
      && i < |segments| && j < |segments[i].words|
      && reason.WordOutsideSegment?
      && segments[i].words[j].EndUs() > segments[i].EndUs()
  }

  /** What the validator reports of a segment or word, in plain terms. */
  predicate Reports(segments: seq<Segment>, path: Path, reason: Reason) {
    match path
    case SegmentPath(i) =>
      i < |segments| && segments[i].EndUs() <= segments[i].StartUs() && reason == SegmentNotPositive
    case WordPath(i, j) =>
      && i < |segments| && j < |segments[i].words|
      && segments[i].StartUs() < segments[i].EndUs()
      && var seg, w := segments[i], segments[i].words[j];
         if w.EndUs() <= w.StartUs() then reason == WordNotPositive
         else if w.StartUs() < seg.StartUs() || w.EndUs() > seg.EndUs() then reason == WordOutsideSegment
         else
           && reason == WordOverlap
           && exists k :: 0 <= k < j && w.StartUs() < seg.words[k].EndUs()
  }

  /** The path comes before the segment `i` and word `j` at which the loops are. */
  predicate ComesBefore(path: Path, i: nat, j: nat) {
    match path
    case SegmentPath(x) => x < i
    case WordPath(x, y) => x < i || (x == i && y < j)
  }

  predicate Precedes(p: Path, q: Path) {
    match q
    case SegmentPath(i) => ComesBefore(p, i, 0)
    case WordPath(i, j) => ComesBefore(p, i, j)
  }

  /** Exactly what is to be reported before the word `j` of segment `i`, in order. */
  ghost predicate Lists(f: TimingRequired, segments: seq<Segment>, i: nat, j: nat) {
    && |f.blocked| == |f.reasons|
    && (forall k :: 0 <= k < |f.blocked| ==>
          Reports(segments, f.blocked[k], f.reasons[k]) && ComesBefore(f.blocked[k], i, j))
    && (forall k, l :: 0 <= k < l < |f.blocked| ==> Precedes(f.blocked[k], f.blocked[l]))
    && (forall path, reason :: Reports(segments, path, reason) && ComesBefore(path, i, j) ==> path in f.blocked)
  }

  /** The validator's list holds exactly the segments and words to be reported, each once, in order, with its reason. */
  lemma {:induction false} IssuesAreListed(segments: seq<Segment>, n: nat)
    requires n <= |segments|
    ensures Lists(Issues(segments, n), segments, n, 0)
  {
    hide WordIssues, WordReason, Reports;
    if n > 0 {
      var seg := segments[n - 1];
      var before := Issues(segments, n - 1);
      IssuesAreListed(segments, n - 1);
      if seg.EndUs() <= seg.StartUs() {
        SegmentListed(segments, before, n - 1);
      } else {
        WordsListed(segments, before, n - 1, |seg.words|);
        SegmentDone(segments, WordIssues(before, n - 1, seg, |seg.words|), n - 1);
      }
    }
  }

  lemma SegmentListed(segments: seq<Segment>, f: TimingRequired, i: nat)
    requires i < |segments| && segments[i].EndUs() <= segments[i].StartUs() && Lists(f, segments, i, 0)
    ensures Lists(And(f, SegmentPath(i), SegmentNotPositive), segments, i + 1, 0)
  {
    var g := And(f, SegmentPath(i), SegmentNotPositive);
    forall path, reason | Reports(segments, path, reason) && ComesBefore(path, i + 1, 0) ensures path in g.blocked {
      if ComesBefore(path, i, 0) {
        assert path in f.blocked;
      }
    }
  }

  lemma SegmentDone(segments: seq<Segment>, f: TimingRequired, i: nat)
    requires i < |segments| && segments[i].StartUs() < segments[i].EndUs()
    requires Lists(f, segments, i, |segments[i].words|)
    ensures Lists(f, segments, i + 1, 0)
  {
    forall path, reason | Reports(segments, path, reason) && ComesBefore(path, i + 1, 0) ensures path in f.blocked {
      assert ComesBefore(path, i, |segments[i].words|);
    }
  }

  lemma {:induction false} WordsListed(segments: seq<Segment>, f: TimingRequired, i: nat, n: nat)
    requires i < |segments| && n <= |segments[i].words| && segments[i].StartUs() < segments[i].EndUs()
    requires Lists(f, segments, i, 0)
    ensures Lists(WordIssues(f, i, segments[i], n), segments, i, n)
  {
    hide WordReason, Reports, Lists;
    if n > 0 {
      WordsListed(segments, f, i, n - 1);
      WordListed(segments, WordIssues(f, i, segments[i], n - 1), i, n - 1);
    }
  }

  lemma WordListed(segments: seq<Segment>, f: TimingRequired, i: nat, j: nat)
    requires i < |segments| && j < |segments[i].words| && segments[i].StartUs() < segments[i].EndUs()
    requires Lists(f, segments, i, j)
    ensures
      var reason := WordReason(segments[i], j);
      Lists(if reason.Some? then And(f, WordPath(i, j), reason.value) else f, segments, i, j + 1)
  {
    hide Reports, WordReason;
    var reason := WordReason(segments[i], j);
    var g := if reason.Some? then And(f, WordPath(i, j), reason.value) else f;
    WordReasonIsExact(segments, i, j);
    forall path, r | Reports(segments, path, r) && ComesBefore(path, i, j + 1) ensures path in g.blocked {
      if ComesBefore(path, i, j) {
        assert path in f.blocked;
      } else {
        assert path == WordPath(i, j);
      }
    }
  }

  lemma WordReasonIsExact(segments: seq<Segment>, i: nat, j: nat)
    requires i < |segments| && j < |segments[i].words| && segments[i].StartUs() < segments[i].EndUs()
    ensures forall reason :: Reports(segments, WordPath(i, j), reason) <==> WordReason(segments[i], j) == Some(reason)
  {
    LatestEndIs(segments[i], j, segments[i].words[j].StartUs());
  }

  lemma {:induction false} LatestEndIs(seg: Segment, n: nat, x: int)
    requires n <= |seg.words|
    ensures x < LatestEnd(seg, n) <==> x < seg.StartUs() || exists k :: 0 <= k < n && x < seg.words[k].EndUs()
  {
    if n > 0 {
      LatestEndIs(seg, n - 1, x);
    }
  }

  lemma {:induction false} SequentialWordIssues(segments: seq<Segment>, f: TimingRequired, i: nat, n: nat)
    requires i < |segments| && n <= |segments[i].words| && Sequential(segments[i])
    requires |f.blocked| == |f.reasons|
    requires forall k :: 0 <= k < |f.blocked| ==> LeftToFind(segments, f.blocked[k], f.reasons[k])
    ensures
      var g := WordIssues(f, i, segments[i], n);
      |g.blocked| == |g.reasons| &&
      forall k :: 0 <= k < |g.blocked| ==> LeftToFind(segments, g.blocked[k], g.reasons[k])
  {
    if n > 0 {
      SequentialWordIssues(segments, f, i, n - 1);
      SequentialEnds(segments[i], n - 1);
      assert InOrder(segments[i], n - 1);
    }
  }

  /**
   * Of sequential segments the validator can reject only one that is not positive, or a word past its segment's end.
   */
  lemma {:induction false} SequentialIssues(segments: seq<Segment>, n: nat)
    requires n <= |segments|
    requires forall i :: 0 <= i < n ==> Sequential(segments[i])
    ensures
      var f := Issues(segments, n);
      |f.blocked| == |f.reasons| && forall k :: 0 <= k < |f.blocked| ==>
        LeftToFind(segments, f.blocked[k], f.reasons[k])
  {
    if n > 0 {
      SequentialIssues(segments, n - 1);
      SequentialWordIssues(segments, Issues(segments, n - 1), n - 1, |segments[n - 1].words|);
    }
  }

  // ----- A whole transcript

  datatype Derived = Derived(value: Transcript, timings: seq<Timing>)

  /** The records of the words of the first `n` segments, numbered across the transcript. */
  function Manifest(segments: seq<Segment>, n: nat): seq<Timing>
    requires n <= |segments|
  {
    if n == 0 then []
    else
      var before := Manifest(segments, n - 1);
      var words := segments[n - 1].words;
      before + seq(|words|, j requires 0 <= j < |words| => TimingOf(|before|, n - 1, words, j))
  }

  predicate AreProjections(segments: seq<Segment>, outs: seq<Segment>) {
    && |outs| == |segments|
    && forall i :: 0 <= i < |segments| ==> Partitionable(segments[i]) && IsProjection(segments[i], outs[i])
  }

  /** `f` blames the first segment that cannot be projected. */
  ghost predicate BlamesFirst(segments: seq<Segment>, f: TimingRequired) {
    exists i: nat ::
      i < |segments| && Blames(i, segments[i], f) && forall k :: 0 <= k < i ==> Partitionable(segments[k])
  }

  /** Every segment could be projected, and `f` is what the validator finds in the projections. */
  ghost predicate ValidatorRejects(segments: seq<Segment>, f: TimingRequired) {
    exists outs :: AreProjections(segments, outs) && f == Issues(outs, |outs|)
  }

  method Derive(t: Transcript) returns (r: Result<Derived, TimingRequired>)
    ensures r.Success? <==> Projectable(t)
    ensures r.Success? ==>
      && r.value.value == t.(segments := r.value.value.segments)
      && AreProjections(t.segments, r.value.value.segments)
      && r.value.timings == Manifest(t.segments, |t.segments|)
    ensures r.Failure? ==> BlamesFirst(t.segments, r.error) || ValidatorRejects(t.segments, r.error)
  {
    hide Issues, TimingOf, Partitionable, IsProjection, Sequential, Enclosing, Blames;
    var outs: seq<Segment> := [];
    var timings: seq<Timing> := [];
    for i := 0 to |t.segments|
      invariant |outs| == i
      invariant forall k :: 0 <= k < i ==> Partitionable(t.segments[k]) && IsProjection(t.segments[k], outs[k])
      invariant timings == Manifest(t.segments, i)
    {
      var derived := DeriveSegment(i, |timings|, t.segments[i]);
      match derived {
        case Failure(f) => return Failure(f);
        case Success(done) =>
          outs := outs + [done.0];
          assert done.1 == seq(|t.segments[i].words|, j requires 0 <= j < |t.segments[i].words| =>
            TimingOf(|timings|, i, t.segments[i].words, j));
          timings := timings + done.1;
      }
    }
    assert AreProjections(t.segments, outs);
    var failure := ValidatePositiveProjection(outs);
    forall i | 0 <= i < |outs| ensures Sequential(outs[i]) && (Enclosing(outs[i]) <==> Enclosing(t.segments[i])) {
      ProjectionIsSequential(t.segments[i], outs[i]);
      ProjectionStaysInside(t.segments[i], outs[i]);
    }
    match failure {
      case Some(f) => r := Failure(f);
      case None => r := Success(Derived(t.(segments := outs), timings));
    }
  }

  /** When the projection succeeds on every segment, the validator finds only two kinds of fault. */
  lemma ValidatorRejectsOnlyBounds(segments: seq<Segment>, outs: seq<Segment>)
    requires AreProjections(segments, outs)
    ensures
      var f := Issues(outs, |outs|);
      |f.blocked| == |f.reasons| && forall k :: 0 <= k < |f.blocked| ==> LeftToFind(outs, f.blocked[k], f.reasons[k])
  {
    forall i | 0 <= i < |outs| ensures Sequential(outs[i]) {
      ProjectionIsSequential(segments[i], outs[i]);
    }
    SequentialIssues(outs, |outs|);
  }

  /**
   * The manifest numbers the words of the transcript without gaps, and binds the raw text and times of each to the
   * times it got; a preserved word kept its own.
   */
  lemma {:induction false} ManifestIsTotal(segments: seq<Segment>, outs: seq<Segment>, n: nat, g: nat)
    requires AreProjections(segments, outs) && n <= |segments|
    requires g < |Manifest(segments, n)|
    ensures
      var m := Manifest(segments, n)[g];
      && m.globalIndex == g
      && m.segmentIndex < n && m.wordIndex < |segments[m.segmentIndex].words|
      && Binds(m, segments[m.segmentIndex].words[m.wordIndex], outs[m.segmentIndex].words[m.wordIndex])
  {
    hide Retimed, RunBefore, Successor, ToMicros, Partitionable;
    if n > 0 {
      var before := |Manifest(segments, n - 1)|;
      if g < before {
        ManifestIsTotal(segments, outs, n - 1, g);
      } else {
        TimingBinds(before, n - 1, segments[n - 1], outs[n - 1], g - before);
      }
    }
  }

  function WordCount(segments: seq<Segment>, n: nat): nat
    requires n <= |segments|
  {
    if n == 0 then 0 else WordCount(segments, n - 1) + |segments[n - 1].words|
  }

  /** Every word has its record, at the place that counting the words before it gives. */
  lemma {:induction false} ManifestListsEvery(segments: seq<Segment>, n: nat, i: nat, j: nat)
    requires i < n <= |segments| && j < |segments[i].words|
    ensures |Manifest(segments, n)| == WordCount(segments, n)
    ensures
      var g := WordCount(segments, i) + j;
      && g < |Manifest(segments, n)|
      && Manifest(segments, n)[g].segmentIndex == i && Manifest(segments, n)[g].wordIndex == j
    decreases n
  {
    hide TimingOf;
    ManifestLength(segments, n - 1);
    if i < n - 1 {
      ManifestListsEvery(segments, n - 1, i, j);
    } else {
      var before := Manifest(segments, n - 1);
      assert Manifest(segments, n)[|before| + j] == TimingOf(|before|, n - 1, segments[n - 1].words, j);
      TimingPlace(|before|, n - 1, segments[n - 1].words, j);
    }
  }

  lemma {:induction false} ManifestLength(segments: seq<Segment>, n: nat)
    requires n <= |segments|
    ensures |Manifest(segments, n)| == WordCount(segments, n)
  {
    if n > 0 {
      ManifestLength(segments, n - 1);
    }
  }

  lemma TimingPlace(g: nat, i: nat, words: seq<Word>, j: nat)
    requires j < |words|
    ensures TimingOf(g, i, words, j).segmentIndex == i && TimingOf(g, i, words, j).wordIndex == j
  {
  }

  lemma TimingBinds(g: nat, i: nat, seg: Segment, out: Segment, j: nat)
    requires Partitionable(seg) && IsProjection(seg, out) && j < |seg.words|
    ensures Binds(TimingOf(g, i, seg.words, j), seg.words[j], out.words[j])
  {
    hide RunBefore, Successor, ToMicros, Partitionable;
    ProjectionKeepsWords(seg, out);
    assert out.words[j] == Retimed(seg.words, j);
  }

  predicate Binds(m: Timing, raw: Word, out: Word) {
    && m.text == raw.text == out.text
    && m.rawStart == raw.start && m.rawEnd == raw.end && m.sourceSemantics == raw.semantics
    && m.derivedStart == out.start && m.derivedEnd == out.end
    && (m.action.PartitionedBoundaryPoint? <==> raw.semantics.BoundaryPoint?)
    && (m.action.PreservedProviderInterval? ==> out == raw)
    && (!m.action.PreservedProviderInterval? ==> out.semantics.DerivedInterval?)
  }

  /** A projected transcript is projectable and projects to itself. */
  lemma DerivedIsFixed(t: Transcript, outs: seq<Segment>, again: seq<Segment>)
    requires Projectable(t) && AreProjections(t.segments, outs)
    ensures Projectable(t.(segments := outs))
    ensures AreProjections(outs, again) <==> again == outs
  {
    forall i | 0 <= i < |outs|
      ensures Partitionable(outs[i]) && Enclosing(outs[i])
      ensures i < |again| ==> (IsProjection(outs[i], again[i]) <==> again[i] == outs[i])
    {
      ProjectionIsIdempotent(t.segments[i], outs[i], if i < |again| then again[i] else outs[i]);
      ProjectionStaysInside(t.segments[i], outs[i]);
    }
  }
}
