// The strict gate of `auto_edit_providers.py`, which accepts a transcript without rewriting it, and how it compares
// with the projection.
module StrictGate {
  import opened Wrappers
  import opened Rounding
  import opened Transcripts
  import opened Projection
  import opened ProjectionLaws

  const SEGMENT_SLACK := 0.05
  const OVERLAP_SLACK := 0.000001

  // ----- What the gate accepts

  predicate PositiveSegment(seg: Segment) {
    0.0 <= seg.start < seg.end
  }

  /** Word `j` claims a provider interval inside the segment and starts after every earlier word, up to the slacks. */
  predicate StrictWord(seg: Segment, j: nat)
    requires j < |seg.words|
  {
    var w := seg.words[j];
    && w.semantics.PositiveInterval?
    && seg.start - SEGMENT_SLACK <= w.start
    && w.end <= seg.end + SEGMENT_SLACK
    && seg.start - OVERLAP_SLACK <= w.start
    && forall i :: 0 <= i < j ==> seg.words[i].end - OVERLAP_SLACK <= w.start
  }

  predicate Strict(seg: Segment) {
    PositiveSegment(seg) && forall j :: 0 <= j < |seg.words| ==> StrictWord(seg, j)
  }

  predicate StrictTranscript(t: Transcript) {
    forall i :: 0 <= i < |t.segments| ==> Strict(t.segments[i])
  }

  // ----- The loop

  /** The latest end among the segment's start and the provider intervals before word `n`. */
  function LatestInterval(seg: Segment, n: nat): real
    requires n <= |seg.words|
  {
    if n == 0 then seg.start
    else
      var before := LatestInterval(seg, n - 1);
      if seg.words[n - 1].semantics.PositiveInterval? && before < seg.words[n - 1].end then seg.words[n - 1].end
      else before
  }

  predicate Faulty(seg: Segment, j: nat)
    requires j < |seg.words|
  {
    var w := seg.words[j];
    || !w.semantics.PositiveInterval?
    || w.start < seg.start - SEGMENT_SLACK
    || w.end > seg.end + SEGMENT_SLACK
    || w.start < LatestInterval(seg, j) - OVERLAP_SLACK
  }

  /** The paths of the faulty words among the first `n` of segment `i`. */
  function FaultyWords(i: nat, seg: Segment, n: nat): seq<Path>
    requires n <= |seg.words|
  {
    if n == 0 then [] else FaultyWords(i, seg, n - 1) + if Faulty(seg, n - 1) then [WordPath(i, n - 1)] else []
  }

  function FaultyPaths(segments: seq<Segment>, n: nat): seq<Path>
    requires n <= |segments|
  {
    if n == 0 then []
    else FaultyPaths(segments, n - 1) + FaultyWords(n - 1, segments[n - 1], |segments[n - 1].words|)
  }

  method RequirePositiveDuration(t: Transcript) returns (r: Result<Transcript, seq<Path>>)
    ensures r.Success? <==> StrictTranscript(t)
    ensures r.Success? ==> r.value == t
    ensures r.Failure? ==>
      || (r.error == FaultyPaths(t.segments, |t.segments|)
          && forall i :: 0 <= i < |t.segments| ==> PositiveSegment(t.segments[i]))
      || exists i :: && 0 <= i < |t.segments| && r.error == [SegmentPath(i)]
                     && !PositiveSegment(t.segments[i]) && forall k :: 0 <= k < i ==> PositiveSegment(t.segments[k])
  {
    hide StrictTranscript, Faulty, FaultyWords, LatestInterval;
    AllStrict(t);
    var blocked: seq<Path> := [];
    for i := 0 to |t.segments|
      invariant blocked == FaultyPaths(t.segments, i)
      invariant forall k :: 0 <= k < i ==> PositiveSegment(t.segments[k])
    {
      var seg := t.segments[i];
      if seg.start < 0.0 || seg.end <= seg.start {
        return Failure([SegmentPath(i)]);
      }
      var previousEnd := seg.start;
      ghost var before := blocked;
      NoWords(i, seg);
      for j := 0 to |seg.words|
        invariant previousEnd == LatestInterval(seg, j)
        invariant blocked == before + FaultyWords(i, seg, j)
      {
        hide PositiveSegment;
        OneMoreWord(i, seg, j);
        var w := seg.words[j];
        if !w.semantics.PositiveInterval? || w.end <= w.start {
          blocked := blocked + [WordPath(i, j)];
        } else {
          if w.start < seg.start - SEGMENT_SLACK ||
            w.end > seg.end + SEGMENT_SLACK || w.start < previousEnd - OVERLAP_SLACK {
            blocked := blocked + [WordPath(i, j)];
          }
          previousEnd := if previousEnd < w.end then w.end else previousEnd;
        }
      }
    }
    FaultlessIsStrict(t.segments, |t.segments|);
    r := if blocked != [] then Failure(blocked) else Success(t);
  }

  /** What the gate asks of a segment, in numbers. */
  lemma StrictSpelledOut(seg: Segment)
    ensures Strict(seg) <==>
      && 0.0 <= seg.start < seg.end
      && forall j :: 0 <= j < |seg.words| ==>
           && seg.words[j].semantics.PositiveInterval?
           && seg.start - 0.000001 <= seg.words[j].start
           && seg.words[j].end <= seg.end + 0.05
           && forall i :: 0 <= i < j ==> seg.words[i].end - 0.000001 <= seg.words[j].start
  {
    forall j | 0 <= j < |seg.words|
      ensures StrictWord(seg, j) <==>
        && seg.words[j].semantics.PositiveInterval?
        && seg.start - 0.000001 <= seg.words[j].start
        && seg.words[j].end <= seg.end + 0.05
        && forall i :: 0 <= i < j ==> seg.words[i].end - 0.000001 <= seg.words[j].start
    {
    }
  }

  /** Exactly the words at fault are blocked, in order. */
  lemma {:induction false} FaultyPathsAreListed(segments: seq<Segment>, n: nat)
    requires n <= |segments|
    ensures
      var paths := FaultyPaths(segments, n);
      && (forall path :: path in paths <==> IsBlocked(segments, path) && Comes(path, n, 0))
      && (forall k, l :: 0 <= k < l < |paths| ==>
            paths[l].WordPath? && Comes(paths[k], paths[l].segment, paths[l].word))
  {
    hide AtFault, FaultyWords;
    if n > 0 {
      var before, words := FaultyPaths(segments, n - 1), FaultyWords(n - 1, segments[n - 1], |segments[n - 1].words|);
      FaultyPathsAreListed(segments, n - 1);
      FaultyWordsAreListed(n - 1, segments[n - 1], |segments[n - 1].words|);
      assert forall k :: 0 <= k < |before| ==> before[k] in before;
      assert forall l :: 0 <= l < |words| ==> words[l] in words;
    }
  }

  predicate IsBlocked(segments: seq<Segment>, path: Path) {
    && path.WordPath? && path.segment < |segments| && path.word < |segments[path.segment].words|
    && AtFault(segments[path.segment], path.word)
  }

  /** The path is of a word before word `j` of segment `i`. */
  predicate Comes(path: Path, i: nat, j: nat) {
    path.WordPath? && (path.segment < i || (path.segment == i && path.word < j))
  }

  /** What is wrong with a word: it is compared with the segment and with every provider interval before it. */
  predicate AtFault(seg: Segment, j: nat)
    requires j < |seg.words|
  {
    var w := seg.words[j];
    || !w.semantics.PositiveInterval?
    || w.start < seg.start - 0.000001
    || w.end > seg.end + 0.05
    || exists k :: 0 <= k < j && seg.words[k].semantics.PositiveInterval? && w.start < seg.words[k].end - 0.000001
  }

  lemma {:induction false} FaultyWordsAreListed(i: nat, seg: Segment, n: nat)
    requires n <= |seg.words|
    ensures
      var paths := FaultyWords(i, seg, n);
      && (forall path :: path in paths <==>
            path.WordPath? && path.segment == i && path.word < n && AtFault(seg, path.word))
      && (forall k, l :: 0 <= k < l < |paths| ==>
            paths[k].WordPath? && paths[l].WordPath? && paths[k].word < paths[l].word)
  {
    hide AtFault, Faulty;
    if n > 0 {
      var before := FaultyWords(i, seg, n - 1);
      FaultyWordsAreListed(i, seg, n - 1);
      FaultyIsAtFault(seg, n - 1);
      assert forall k :: 0 <= k < |before| ==> before[k] in before;
    }
  }

  lemma FaultyIsAtFault(seg: Segment, j: nat)
    requires j < |seg.words|
    ensures Faulty(seg, j) <==> AtFault(seg, j)
  {
    LatestIs(seg, j, seg.words[j].start + OVERLAP_SLACK);
  }

  lemma {:induction false} LatestIs(seg: Segment, n: nat, x: real)
    requires n <= |seg.words|
    ensures x < LatestInterval(seg, n) <==>
      x < seg.start || exists k :: 0 <= k < n && seg.words[k].semantics.PositiveInterval? && x < seg.words[k].end
  {
    if n > 0 {
      LatestIs(seg, n - 1, x);
    }
  }

  lemma AllStrict(t: Transcript)
    ensures StrictTranscript(t) <==> forall i :: 0 <= i < |t.segments| ==> Strict(t.segments[i])
  {
  }

  lemma NoWords(i: nat, seg: Segment)
    ensures LatestInterval(seg, 0) == seg.start && FaultyWords(i, seg, 0) == []
  {
  }

  /** What the loop body does with word `j`. */
  lemma OneMoreWord(i: nat, seg: Segment, j: nat)
    requires j < |seg.words|
    ensures
      var w, latest := seg.words[j], LatestInterval(seg, j);
      && (w.semantics.PositiveInterval? ==> w.start < w.end)
      && LatestInterval(seg, j + 1) == (if w.semantics.PositiveInterval? && latest < w.end then w.end else latest)
      && FaultyWords(i, seg, j + 1) == FaultyWords(i, seg, j) +
           if !w.semantics.PositiveInterval? || w.start < seg.start - SEGMENT_SLACK
              || w.end > seg.end + SEGMENT_SLACK || w.start < latest - OVERLAP_SLACK
           then [WordPath(i, j)] else []
  {
  }

  lemma {:induction false} LatestBounds(seg: Segment, n: nat, x: real)
    requires n <= |seg.words|
    requires forall j :: 0 <= j < n ==> seg.words[j].semantics.PositiveInterval?
    ensures LatestInterval(seg, n) <= x <==> seg.start <= x && forall i :: 0 <= i < n ==> seg.words[i].end <= x
  {
    if n > 0 {
      LatestBounds(seg, n - 1, x);
    }
  }

  lemma {:induction false} FaultlessWords(i: nat, seg: Segment, n: nat)
    requires n <= |seg.words|
    ensures FaultyWords(i, seg, n) == [] <==> forall j :: 0 <= j < n ==> StrictWord(seg, j)
  {
    if n > 0 {
      hide LatestInterval, Faulty;
      FaultlessWords(i, seg, n - 1);
      if FaultyWords(i, seg, n - 1) == [] {
        forall j | 0 <= j < n - 1 ensures seg.words[j].semantics.PositiveInterval? {
          assert StrictWord(seg, j);
        }
        LatestBounds(seg, n - 1, seg.words[n - 1].start + OVERLAP_SLACK);
        StrictAfter(seg, n - 1);
      }
    }
  }

  lemma StrictAfter(seg: Segment, j: nat)
    requires j < |seg.words|
    requires
      var x := seg.words[j].start + OVERLAP_SLACK;
      LatestInterval(seg, j) <= x <==> seg.start <= x && forall i :: 0 <= i < j ==> seg.words[i].end <= x
    ensures Faulty(seg, j) <==> !StrictWord(seg, j)
  {
    var x := seg.words[j].start + OVERLAP_SLACK;
    assert forall i :: 0 <= i < j ==> (seg.words[i].end <= x <==>
      seg.words[i].end - OVERLAP_SLACK <= seg.words[j].start);
  }

  lemma {:induction false} FaultlessIsStrict(segments: seq<Segment>, n: nat)
    requires n <= |segments|
    requires forall i :: 0 <= i < n ==> PositiveSegment(segments[i])
    ensures FaultyPaths(segments, n) == [] <==> forall i :: 0 <= i < n ==> Strict(segments[i])
  {
    if n > 0 {
      FaultlessIsStrict(segments, n - 1);
      FaultlessWords(n - 1, segments[n - 1], |segments[n - 1].words|);
    }
  }

  // ----- The gate and the projection

  lemma {:induction false} EarlierEnds(seg: Segment, i: nat, j: nat)
    requires Sequential(seg) && i < j < |seg.words|
    ensures seg.words[i].EndUs() <= seg.words[j].StartUs()
    ensures seg.StartUs() <= seg.words[i].StartUs() <= seg.words[j].StartUs()
  {
    assert InOrder(seg, j) && InOrder(seg, j - 1);
    if i < j - 1 {
      EarlierEnds(seg, i, j - 1);
    } else if i > 0 {
      EarlierEnds(seg, i - 1, i);
    }
  }

  /** Times in order to the microsecond are in order up to the gate's slack: rounding costs less than a microsecond. */
  lemma RoundingFitsSlack(earlier: real, later: real)
    requires ToMicros(earlier) <= ToMicros(later)
    ensures earlier - OVERLAP_SLACK <= later
  {
    ToMicrosIsNear(earlier);
    ToMicrosIsNear(later);
  }

  /**
   * Whatever the projection accepts of provider intervals alone, the strict gate accepts: half-up rounding to the
   * microsecond never hides more than the gate's slacks forgive.
   */
  lemma ProjectableIntervalsAreStrict(t: Transcript)
    requires Projectable(t)
    requires forall i :: 0 <= i < |t.segments| ==> t.segments[i].start >= 0.0
    requires forall i, j :: 0 <= i < |t.segments| && 0 <= j < |t.segments[i].words| ==>
      t.segments[i].words[j].semantics.PositiveInterval?
    ensures StrictTranscript(t)
  {
    forall i | 0 <= i < |t.segments| ensures Strict(t.segments[i]) {
      var seg := t.segments[i];
      if seg.end <= seg.start {
        ToMicrosMonotone(seg.end, seg.start);
      }
      forall j | 0 <= j < |seg.words| ensures InOrder(seg, j) {
        assert Placeable(seg, j);
      }
      forall j | 0 <= j < |seg.words| ensures StrictWord(seg, j) {
        ProjectableWordIsStrict(seg, j);
      }
    }
  }

  lemma ProjectableWordIsStrict(seg: Segment, j: nat)
    requires Sequential(seg) && Enclosing(seg) && j < |seg.words|
    requires seg.words[j].semantics.PositiveInterval?
    ensures StrictWord(seg, j)
  {
    assert InOrder(seg, j);
    if j > 0 {
      EarlierEnds(seg, 0, j);
    }
    RoundingFitsSlack(seg.start, seg.words[j].start);
    RoundingFitsSlack(seg.words[j].end, seg.end);
    forall i | 0 <= i < j ensures seg.words[i].end - OVERLAP_SLACK <= seg.words[j].start {
      EarlierEnds(seg, i, j);
      RoundingFitsSlack(seg.words[i].end, seg.words[j].start);
    }
  }

  /**
   * What the strict gate accepts, the projection accepts exactly when, in whole microseconds, the words are positive,
   * in order and inside their segment: without the slacks.
   */
  lemma StrictProjectableIff(t: Transcript)
    requires StrictTranscript(t)
    ensures Projectable(t) <==> forall i :: 0 <= i < |t.segments| ==>
      Sequential(t.segments[i]) && Enclosing(t.segments[i])
  {
    forall i | 0 <= i < |t.segments| ensures Partitionable(t.segments[i]) <==> Sequential(t.segments[i]) {
      StrictPartitionableIff(t.segments[i]);
    }
  }

  lemma StrictPartitionableIff(seg: Segment)
    requires Strict(seg)
    ensures Partitionable(seg) <==> Sequential(seg)
  {
    forall j | 0 <= j < |seg.words| ensures StrictWord(seg, j) && (Placeable(seg, j) ==> InOrder(seg, j)) {
      assert StrictWord(seg, j);
    }
    if Sequential(seg) {
      SequentialIsFixed(seg, seg);
    }
  }

  /** The condition is needed: the gate lets a word run past its segment by a slack the projection does not have. */
  lemma StrictIsNotProjectable()
    ensures
      var seg := Segment(0.0, 1.0, "", None, None, [ProviderWord(0.5, 1.04, "w", None, PositiveInterval)]);
      Strict(seg) && !Enclosing(seg)
  {
    var seg := Segment(0.0, 1.0, "", None, None, [ProviderWord(0.5, 1.04, "w", None, PositiveInterval)]);
    assert seg.words[0].EndUs() == 1040000 > seg.EndUs() == 1000000;
  }
}
