// What the projection guarantees of every segment it accepts.
module ProjectionLaws {
  import opened Rounding
  import opened Transcripts
  import opened Projection

  lemma ShareWellFormed(w: Word, startUs: int, endUs: int)
    requires 0 <= startUs < endUs
    ensures Share(w, startUs, endUs).WellFormed()
  {
    RoundTrip(startUs);
    RoundTrip(endUs);
  }

  lemma StartsLate(w: Word)
    ensures w.StartUs() >= 0
    ensures w.semantics.BoundaryPoint? ==> w.StartUs() == w.EndUs()
  {
    ToMicrosMonotone(0.0, w.start);
  }

  /** A run of boundary points from `a` on, and its successor `e`, long enough to be shared. */
  predicate IsRun(words: seq<Word>, a: nat, e: nat) {
    && a < e < |words|
    && UnitStart(words, a)
    && (forall j :: a <= j < e ==> SharesPoint(words[j], words[a].StartUs()))
    && words[e].StartUs() == words[a].StartUs()
    && words[e].IsInterval()
    && e - a + 1 <= words[e].EndUs() - words[a].StartUs()
  }

  lemma RunShape(words: seq<Word>, a: nat, e: nat)
    requires IsRun(words, a, e)
    ensures words[a].StartUs() >= 0
    ensures RunBefore(words, e) == e - a
    ensures !words[e].semantics.BoundaryPoint?
    ensures forall j :: a <= j < e ==> words[j].semantics.BoundaryPoint?
    ensures forall j :: a <= j <= e ==> Successor(words, j) == e
  {
    StartsLate(words[a]);
    StartsLate(words[e]);
    assert forall j :: a <= j < e ==> SharesPoint(words[j], words[a].StartUs()) && words[j].semantics.BoundaryPoint?;
    UnitShape(words, a, e);
  }

  lemma RunRetimed(words: seq<Word>, a: nat, e: nat, j: nat)
    requires IsRun(words, a, e) && a <= j <= e
    ensures
      var anchor, parts := words[a].StartUs(), e - a + 1;
      var span := words[e].EndUs() - anchor;
      var s, t := Cut(anchor, span, parts, j - a), Cut(anchor, span, parts, j - a + 1);
      Retimed(words, j) == Share(words[j], s, t) && 0 <= s < t && Share(words[j], s, t).WellFormed()
    ensures RunBefore(words, e) == e - a
    ensures !words[e].semantics.BoundaryPoint?
    ensures j < e ==> words[j].semantics.BoundaryPoint?
  {
    hide Successor, RunBefore, Cut, ToMicros;
    RunShape(words, a, e);
    var anchor, parts := words[a].StartUs(), e - a + 1;
    var span := words[e].EndUs() - anchor;
    PartsRise(anchor, span, parts, j - a);
    ShareWellFormed(words[j], Cut(anchor, span, parts, j - a), Cut(anchor, span, parts, j - a + 1));
  }

  lemma LoneRetimed(words: seq<Word>, a: nat)
    requires a < |words| && UnitStart(words, a) && words[a].IsInterval()
    ensures Retimed(words, a) == words[a] && RunBefore(words, a) == 0
    ensures !words[a].semantics.BoundaryPoint?
  {
    StartsLate(words[a]);
    UnitShape(words, a, a);
  }

  /** The parts of a span that is long enough are proper intervals after the epoch. */
  lemma PartsRise(anchor: int, span: int, parts: nat, k: nat)
    requires 0 <= anchor && 0 < parts <= span && k < parts
    ensures 0 <= Cut(anchor, span, parts, k) < Cut(anchor, span, parts, k + 1)
  {
    CutEnds(anchor, span, parts);
    CutMonotone(anchor, span, parts, 0, k);
    AtLeastOne(span, parts);
    CutStep(anchor, span, parts, k);
  }

  // ----- The unit a word belongs to

  lemma {:induction false} SamePoint(seg: Segment, a: nat, j: nat)
    requires Partitionable(seg) && a <= j < |seg.words|
    requires forall i :: a <= i < j ==> seg.words[i].semantics.BoundaryPoint?
    ensures seg.words[j].StartUs() == seg.words[a].StartUs()
    decreases j - a
  {
    if a < j {
      SamePoint(seg, a, j - 1);
      assert Placeable(seg, j - 1);
    }
  }

  /** Every word is a lone interval or belongs to a run that can be shared out. */
  lemma UnitOf(seg: Segment, j: nat) returns (a: nat, b: nat)
    requires Partitionable(seg) && j < |seg.words|
    ensures a <= j <= b < |seg.words| && UnitStart(seg.words, a)
    ensures b == Successor(seg.words, j) && b - a == RunBefore(seg.words, b)
    ensures EndBefore(seg, a) <= seg.words[a].StartUs()
    ensures a == b ==> Retimed(seg.words, j) == seg.words[j] && seg.words[j].IsInterval()
    ensures a < b ==> IsRun(seg.words, a, b)
  {
    var words := seg.words;
    b := Successor(words, j);
    assert Placeable(seg, |words| - 1);
    assert Placeable(seg, b);
    a := b - RunBefore(words, b);
    assert Placeable(seg, a);
    if a < b {
      assert Placeable(seg, b - 1);
      forall i | a <= i < b ensures SharesPoint(words[i], words[a].StartUs()) {
        SamePoint(seg, a, i);
        StartsLate(words[i]);
      }
      SamePoint(seg, a, b);
    }
  }

  /** Boundaries at `q` or `q + 1` microseconds from each other. */
  predicate AreBoundaries(cuts: seq<int>, startUs: int, endUs: int, parts: nat, q: nat) {
    && 0 < parts && |cuts| == parts + 1
    && cuts[0] == startUs && cuts[parts] == endUs
    && q > 0
    && (forall i :: 0 <= i < parts ==> cuts[i] + q <= cuts[i + 1] <= cuts[i] + q + 1)
    && (forall i :: 0 <= i <= parts ==> startUs <= cuts[i] <= endUs)
  }

  lemma CutsAreBoundaries(anchor: int, span: int, parts: nat) returns (q: nat, cuts: seq<int>)
    requires 0 < parts <= span
    ensures AreBoundaries(cuts, anchor, anchor + span, parts, q)
    ensures forall i :: 0 <= i <= parts ==> cuts[i] == Cut(anchor, span, parts, i)
  {
    cuts := seq(parts + 1, i => Cut(anchor, span, parts, i));
    q := span / parts;
    AtLeastOne(span, parts);
    CutEnds(anchor, span, parts);
    forall i | 0 <= i <= parts ensures anchor <= cuts[i] <= anchor + span {
      CutMonotone(anchor, span, parts, 0, i);
      CutMonotone(anchor, span, parts, i, parts);
    }
    forall i | 0 <= i < parts ensures cuts[i] + q <= cuts[i + 1] <= cuts[i] + q + 1 {
      CutStep(anchor, span, parts, i);
    }
  }

  lemma RunTimes(seg: Segment, out: Segment, a: nat, b: nat, j: nat)
    requires IsRun(seg.words, a, b) && a <= j <= b && IsProjection(seg, out)
    ensures
      var anchor := seg.words[b].StartUs();
      var span := seg.words[b].EndUs() - anchor;
      HasTimes(out.words[j], Cut(anchor, span, b - a + 1, j - a), Cut(anchor, span, b - a + 1, j - a + 1))
  {
    hide RunBefore, Successor, Cut, ToMicros;
    var anchor := seg.words[b].StartUs();
    var span := seg.words[b].EndUs() - anchor;
    RunRetimed(seg.words, a, b, j);
    RoundTrip(Cut(anchor, span, b - a + 1, j - a));
    RoundTrip(Cut(anchor, span, b - a + 1, j - a + 1));
  }

  /** The words of the unit that ends at `b` lie between the boundaries of `b`'s interval. */
  lemma UnitCuts(seg: Segment, out: Segment, b: nat) returns (q: nat, cuts: seq<int>)
    requires Partitionable(seg) && IsProjection(seg, out) && |out.words| == |seg.words|
    requires b < |seg.words| && !seg.words[b].semantics.BoundaryPoint?
    ensures
      var k := RunBefore(seg.words, b);
      && AreBoundaries(cuts, seg.words[b].StartUs(), seg.words[b].EndUs(), k + 1, q)
      && forall i :: 0 <= i <= k ==> HasTimes(out.words[b - k + i], cuts[i], cuts[i + 1])
  {
    hide Retimed, RunBefore, Successor, Cut, IsRun, Partitionable, IsProjection, ToMicros, HasTimes;
    var k := RunBefore(seg.words, b);
    var a, b' := UnitOf(seg, b);
    var anchor := seg.words[b].StartUs();
    q, cuts := CutsAreBoundaries(anchor, seg.words[b].EndUs() - anchor, k + 1);
    hide AreBoundaries;
    if k > 0 {
      forall i | 0 <= i <= k ensures HasTimes(out.words[b - k + i], cuts[i], cuts[i + 1]) {
        assert a + i == b - k + i;
        RunTimes(seg, out, a, b, a + i);
      }
    } else {
      LoneTimes(seg, out, b);
      CutEnds(anchor, seg.words[b].EndUs() - anchor, 1);
    }
  }

  lemma LoneTimes(seg: Segment, out: Segment, b: nat)
    requires IsProjection(seg, out) && b < |seg.words| && Retimed(seg.words, b) == seg.words[b]
    ensures HasTimes(out.words[b], seg.words[b].StartUs(), seg.words[b].EndUs())
  {
  }

  predicate HasTimes(w: Word, startUs: int, endUs: int) {
    w.StartUs() == startUs && w.EndUs() == endUs
  }

  // ----- Theorems about one segment

  /** Every word is a proper interval that starts no earlier than the previous word ends. */
  predicate Sequential(seg: Segment) {
    SequentialBefore(seg, |seg.words|)
  }

  predicate SequentialBefore(seg: Segment, n: nat)
    requires n <= |seg.words|
  {
    forall j :: 0 <= j < n ==> InOrder(seg, j)
  }

  predicate InOrder(seg: Segment, j: nat)
    requires j < |seg.words|
  {
    seg.words[j].IsInterval() && EndBefore(seg, j) <= seg.words[j].StartUs()
  }

  /** No word is lost, renamed or reordered, and words outside the runs are the provider's own. */
  lemma ProjectionKeepsWords(seg: Segment, out: Segment)
    requires Partitionable(seg) && IsProjection(seg, out)
    ensures |out.words| == |seg.words|
    ensures forall j :: 0 <= j < |seg.words| ==>
      out.words[j].text == seg.words[j].text && out.words[j].confidence == seg.words[j].confidence
    ensures forall j | 0 <= j < |seg.words| ::
      !seg.words[j].semantics.BoundaryPoint? && RunBefore(seg.words, j) == 0 ==>
      out.words[j] == seg.words[j]
    ensures forall j | 0 <= j < |seg.words| ::
      seg.words[j].semantics.BoundaryPoint? || RunBefore(seg.words, j) > 0 ==>
      out.words[j].semantics.DerivedInterval?
  {
    forall j | 0 <= j < |seg.words| && (seg.words[j].semantics.BoundaryPoint? || RunBefore(seg.words, j) > 0)
      ensures out.words[j].semantics.DerivedInterval?
    {
      var a, b := UnitOf(seg, j);
    }
  }

  /** The projected words are proper intervals in order. */
  lemma ProjectionIsSequential(seg: Segment, out: Segment)
    requires Partitionable(seg) && IsProjection(seg, out)
    ensures Sequential(out)
  {
    hide Retimed, RunBefore, Successor, ToMicros;
    forall j | 0 <= j < |seg.words| ensures InOrder(out, j)
    {
      var a, b := UnitOf(seg, j);
      var q, cuts := UnitCuts(seg, out, b);
      assert HasTimes(out.words[b - (b - a) + (j - a)], cuts[j - a], cuts[j - a + 1]);
      if a < j {
        assert HasTimes(out.words[b - (b - a) + (j - a - 1)], cuts[j - a - 1], cuts[j - a]);
      } else {
        if j > 0 {
          LastOfUnit(seg, out, j - 1);
        }
        SamePoint(seg, a, b);
      }
    }
  }

  /** No word leaves the segment that did not leave it before. */
  lemma ProjectionStaysInside(seg: Segment, out: Segment)
    requires Partitionable(seg) && IsProjection(seg, out)
    ensures Enclosing(out) <==> Enclosing(seg)
  {
    hide Retimed, RunBefore, Successor, ToMicros;
    forall j | 0 <= j < |seg.words|
      ensures Enclosing(seg) ==> out.words[j].EndUs() <= seg.EndUs()
      ensures Enclosing(out) ==> seg.words[j].EndUs() <= seg.EndUs()
    {
      var a, b := UnitOf(seg, j);
      var q, cuts := UnitCuts(seg, out, b);
      assert HasTimes(out.words[b - (b - a) + (j - a)], cuts[j - a], cuts[j - a + 1]);
      LastOfUnit(seg, out, b);
      SamePoint(seg, a, j);
      SamePoint(seg, a, b);
      StartsLate(seg.words[j]);
    }
  }

  /** The last word of a unit ends where the provider said. */
  lemma LastOfUnit(seg: Segment, out: Segment, b: nat)
    requires Partitionable(seg) && IsProjection(seg, out)
    requires b < |seg.words| && !seg.words[b].semantics.BoundaryPoint?
    ensures out.words[b].EndUs() == seg.words[b].EndUs()
  {
    hide Retimed, RunBefore, Successor, ToMicros;
    var q, cuts := UnitCuts(seg, out, b);
    var k := RunBefore(seg.words, b);
    assert HasTimes(out.words[b - k + k], cuts[k], cuts[k + 1]);
  }

  /**
   * A run of `k` boundary points and its successor `b` tile the successor's raw interval exactly: the first part
   * starts at the anchor, neighbours meet, the last part ends at the raw end, and no two parts differ by more than
   * one microsecond.
   */
  lemma RunTiles(seg: Segment, out: Segment, b: nat)
    requires Partitionable(seg) && IsProjection(seg, out)
    requires b < |seg.words| && !seg.words[b].semantics.BoundaryPoint?
    ensures
      var k := RunBefore(seg.words, b);
      && out.words[b - k].StartUs() == seg.words[b].StartUs()
      && out.words[b].EndUs() == seg.words[b].EndUs()
      && (forall j :: b - k <= j < b ==> out.words[j].EndUs() == out.words[j + 1].StartUs())
      && (forall i, j :: b - k <= i <= b && b - k <= j <= b ==>
            LengthUs(out.words[i]) <= LengthUs(out.words[j]) + 1)
  {
    hide Retimed, RunBefore, Successor, ToMicros, Partitionable, HasTimes, AreBoundaries;
    var k := RunBefore(seg.words, b);
    var q, cuts := UnitCuts(seg, out, b);
    CutsTile(out.words, b - k, b, cuts, seg.words[b].StartUs(), seg.words[b].EndUs(), q);
  }

  /** The boundaries are floors. */
  lemma CutIsFloor(anchor: int, span: int, parts: nat, i: nat)
    requires parts > 0
    ensures Cut(anchor, span, parts, i) == anchor + (span * i) / parts
  {
  }

  /** The words of the unit that ends at `b`, and begins at `a`, start at its boundaries, in order. */
  lemma StartsAtCut(seg: Segment, out: Segment, b: nat) returns (a: nat)
    requires Partitionable(seg) && IsProjection(seg, out) && |out.words| == |seg.words|
    requires b < |seg.words| && !seg.words[b].semantics.BoundaryPoint?
    ensures a == b - RunBefore(seg.words, b)
    ensures
      var anchor := seg.words[b].StartUs();
      forall j :: a <= j <= b ==>
        out.words[j].StartUs() == Cut(anchor, seg.words[b].EndUs() - anchor, b - a + 1, j - a)
  {
    hide Retimed, ToMicros, Cut, IsRun, Partitionable, IsProjection;
    a := UnitAt(seg, b);
    if a == b {
      LoneStart(seg, out, b);
    } else {
      var anchor := seg.words[b].StartUs();
      forall j | a <= j <= b
        ensures out.words[j].StartUs() == Cut(anchor, seg.words[b].EndUs() - anchor, b - a + 1, j - a)
      {
        RunStart(seg, out, a, b, j);
      }
    }
  }

  /** Where the unit starts that ends at `b`. */
  lemma UnitAt(seg: Segment, b: nat) returns (a: nat)
    requires Partitionable(seg) && b < |seg.words| && !seg.words[b].semantics.BoundaryPoint?
    ensures a == b - RunBefore(seg.words, b)
    ensures a == b ==> Retimed(seg.words, b) == seg.words[b]
    ensures a < b ==> IsRun(seg.words, a, b)
  {
    hide Retimed, RunBefore, Successor, IsRun, Partitionable;
    var b';
    a, b' := UnitOf(seg, b);
  }

  lemma LoneStart(seg: Segment, out: Segment, b: nat)
    requires IsProjection(seg, out) && b < |seg.words| && |out.words| == |seg.words|
    requires Retimed(seg.words, b) == seg.words[b]
    ensures
      var anchor := seg.words[b].StartUs();
      out.words[b].StartUs() == Cut(anchor, seg.words[b].EndUs() - anchor, 1, 0)
  {
    hide Retimed, ToMicros, Cut;
    var anchor := seg.words[b].StartUs();
    LoneTimes(seg, out, b);
    CutEnds(anchor, seg.words[b].EndUs() - anchor, 1);
  }

  lemma RunStart(seg: Segment, out: Segment, a: nat, b: nat, j: nat)
    requires IsRun(seg.words, a, b) && IsProjection(seg, out) && |out.words| == |seg.words| && a <= j <= b
    ensures
      var anchor := seg.words[b].StartUs();
      out.words[j].StartUs() == Cut(anchor, seg.words[b].EndUs() - anchor, b - a + 1, j - a)
  {
    hide Retimed, ToMicros, Cut, IsProjection, HasTimes;
    var anchor := seg.words[b].StartUs();
    var span := seg.words[b].EndUs() - anchor;
    RunTimes(seg, out, a, b, j);
    StartOf(out.words[j], Cut(anchor, span, b - a + 1, j - a), Cut(anchor, span, b - a + 1, j - a + 1));
  }

  lemma StartOf(w: Word, startUs: int, endUs: int)
    requires HasTimes(w, startUs, endUs)
    ensures w.StartUs() == startUs
  {
  }

  /** Words between neighbouring boundaries tile what lies between the first and the last. */
  lemma CutsTile(words: seq<Word>, a: nat, b: nat, cuts: seq<int>, startUs: int, endUs: int, q: nat)
    requires a <= b < |words| && AreBoundaries(cuts, startUs, endUs, b - a + 1, q)
    requires forall i :: 0 <= i <= b - a ==> HasTimes(words[a + i], cuts[i], cuts[i + 1])
    ensures words[a].StartUs() == startUs && words[b].EndUs() == endUs
    ensures forall j :: a <= j < b ==> words[j].EndUs() == words[j + 1].StartUs()
    ensures forall i, j :: a <= i <= b && a <= j <= b ==> LengthUs(words[i]) <= LengthUs(words[j]) + 1
  {
    hide ToMicros;
    forall j | a <= j <= b
      ensures HasTimes(words[j], cuts[j - a], cuts[j - a + 1]) && q <= LengthUs(words[j]) <= q + 1
    {
      assert words[j] == words[a + (j - a)];
    }
    forall j | a <= j < b ensures words[j].EndUs() == words[j + 1].StartUs() {
      assert HasTimes(words[j + 1], cuts[j + 1 - a], cuts[j + 1 - a + 1]);
    }
  }

  function LengthUs(w: Word): int {
    w.EndUs() - w.StartUs()
  }

  // ----- Coverage

  /** Some word is being spoken at `t` microseconds. */
  ghost predicate Covered(words: seq<Word>, t: real) {
    exists j :: Spans(words, j, t)
  }

  predicate Spans(words: seq<Word>, j: nat, t: real) {
    j < |words| && words[j].StartUs() as real <= t < words[j].EndUs() as real
  }

  /** Every point between the first and the last boundary lies between two neighbouring ones. */
  lemma {:induction false} FindPart(cuts: seq<int>, n: nat, t: real) returns (i: nat)
    requires 0 < n < |cuts|
    requires cuts[0] as real <= t < cuts[n] as real
    ensures i < n && cuts[i] as real <= t < cuts[i + 1] as real
  {
    if cuts[n - 1] as real <= t {
      i := n - 1;
    } else {
      i := FindPart(cuts, n - 1, t);
    }
  }

  /** The projection covers exactly the time that the raw positive intervals cover. */
  lemma CoverageKept(seg: Segment, out: Segment, t: real)
    requires Partitionable(seg) && IsProjection(seg, out)
    ensures Covered(out.words, t) <==> Covered(seg.words, t)
  {
    hide Retimed, RunBefore, Successor, ToMicros;
    if Covered(out.words, t) {
      var j: nat :| Spans(out.words, j, t);
      var a, b := UnitOf(seg, j);
      var q, cuts := UnitCuts(seg, out, b);
      assert HasTimes(out.words[b - (b - a) + (j - a)], cuts[j - a], cuts[j - a + 1]);
      assert Spans(seg.words, b, t);
    }
    if Covered(seg.words, t) {
      var b: nat :| Spans(seg.words, b, t);
      StartsLate(seg.words[b]);
      var k := RunBefore(seg.words, b);
      var q, cuts := UnitCuts(seg, out, b);
      var i := FindPart(cuts, k + 1, t);
      assert HasTimes(out.words[b - k + i], cuts[i], cuts[i + 1]);
      assert Spans(out.words, b - k + i, t);
    }
  }

  // ----- Fixed points

  /** A segment whose words are already sequential intervals is projected to itself, and to nothing else. */
  lemma SequentialIsFixed(seg: Segment, out: Segment)
    requires Sequential(seg)
    ensures Partitionable(seg)
    ensures IsProjection(seg, out) <==> out == seg
  {
    forall j | 0 <= j < |seg.words| ensures Placeable(seg, j) && Retimed(seg.words, j) == seg.words[j] {
      assert InOrder(seg, j);
      StartsLate(seg.words[j]);
      if j > 0 {
        assert InOrder(seg, j - 1);
        StartsLate(seg.words[j - 1]);
      }
    }
    if IsProjection(seg, out) {
      assert out.words == seg.words;
    }
  }

  /** Projecting a projection changes nothing. */
  lemma ProjectionIsIdempotent(seg: Segment, out: Segment, again: Segment)
    requires Partitionable(seg) && IsProjection(seg, out)
    ensures Partitionable(out)
    ensures IsProjection(out, again) <==> again == out
  {
    ProjectionIsSequential(seg, out);
    SequentialIsFixed(out, again);
  }
}
