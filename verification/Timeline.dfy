// The duplicated timeline checks of a video manifest, in Python (`manifest.py`) and TypeScript
// (`renderer/src/contract.ts`), and the frames the renderer gives to its cues (`VerticalShort.tsx`).
module Timeline {
  import opened Wrappers
  import opened Rounding

  datatype Scene = Scene(start: real, duration: real)

  datatype Cue = Cue(start: real, end: real)

  datatype Manifest = Manifest(duration: real, fps: nat, scenes: seq<Scene>, cues: seq<Cue>) {
    function Tolerance(): real
      requires fps > 0
    {
      1.0 / fps as real
    }
  }

  function Abs(x: real): real {
    if x < 0.0 then -x else x
  }

  function TotalDuration(scenes: seq<Scene>): real {
    if scenes == [] then 0.0 else TotalDuration(scenes[..|scenes| - 1]) + scenes[|scenes| - 1].duration
  }

  // ----- What the checks ask for

  predicate DurationFits(m: Manifest) {
    Abs(TotalDuration(m.scenes) - m.duration) <= 0.1
  }

  /** Where the scene before scene `i` ends; the start of the composition when there is none. */
  function ExpectedStart(m: Manifest, i: nat): real
    requires i <= |m.scenes|
  {
    if i == 0 then 0.0 else m.scenes[i - 1].start + m.scenes[i - 1].duration
  }

  predicate SceneFits(m: Manifest, i: nat)
    requires m.fps > 0 && i < |m.scenes|
  {
    Abs(m.scenes[i].start - ExpectedStart(m, i)) <= m.Tolerance()
  }

  function PreviousEnd(m: Manifest, j: nat): real
    requires j <= |m.cues|
  {
    if j == 0 then 0.0 else m.cues[j - 1].end
  }

  predicate CueFollows(m: Manifest, j: nat)
    requires m.fps > 0 && j < |m.cues|
  {
    PreviousEnd(m, j) - m.Tolerance() <= m.cues[j].start
  }

  predicate CueFits(m: Manifest, j: nat)
    requires m.fps > 0 && j < |m.cues|
  {
    m.cues[j].end <= m.duration + m.Tolerance()
  }

  predicate Contiguous(m: Manifest)
    requires m.fps > 0
  {
    forall i :: 0 <= i < |m.scenes| ==> SceneFits(m, i)
  }

  predicate PythonAccepts(m: Manifest)
    requires m.fps > 0
  {
    DurationFits(m) && Contiguous(m) && forall j :: 0 <= j < |m.cues| ==> CueFollows(m, j) && CueFits(m, j)
  }

  // ----- The Python checks stop at the first error

  datatype ManifestError = DurationTotal | NotContiguous | CuesOverlap | CueTooLate

  method ValidateManifest(m: Manifest) returns (error: Option<ManifestError>)
    requires m.fps > 0
    ensures error.None? <==> PythonAccepts(m)
    ensures error == Some(DurationTotal) <==> !DurationFits(m)
    ensures error == Some(NotContiguous) <==> DurationFits(m) && !Contiguous(m)
    ensures error == Some(CuesOverlap) || error == Some(CueTooLate) ==>
      exists j :: && 0 <= j < |m.cues|
                  && (if error == Some(CuesOverlap) then !CueFollows(m, j) else CueFollows(m, j) && !CueFits(m, j))
                  && forall i :: 0 <= i < j ==> CueFollows(m, i) && CueFits(m, i)
  {
    var total := SumDurations(m.scenes);
    if Abs(total - m.duration) > 0.1 {
      return Some(DurationTotal);
    }
    var tolerance := 1.0 / m.fps as real;
    var expectedStart := 0.0;
    for i := 0 to |m.scenes|
      invariant expectedStart == ExpectedStart(m, i)
      invariant forall k :: 0 <= k < i ==> SceneFits(m, k)
    {
      var start := m.scenes[i].start;
      if Abs(start - expectedStart) > tolerance {
        assert !SceneFits(m, i);
        return Some(NotContiguous);
      }
      expectedStart := start + m.scenes[i].duration;
    }
    var previousEnd := 0.0;
    for j := 0 to |m.cues|
      invariant previousEnd == PreviousEnd(m, j)
      invariant forall k :: 0 <= k < j ==> CueFollows(m, k) && CueFits(m, k)
    {
      if m.cues[j].start < previousEnd - tolerance {
        assert !CueFollows(m, j);
        return Some(CuesOverlap);
      }
      if m.cues[j].end > m.duration + tolerance {
        assert CueFollows(m, j) && !CueFits(m, j);
        return Some(CueTooLate);
      }
      previousEnd := m.cues[j].end;
    }
    error := None;
  }

  method SumDurations(scenes: seq<Scene>) returns (total: real)
    ensures total == TotalDuration(scenes)
  {
    total := 0.0;
    for i := 0 to |scenes|
      invariant total == TotalDuration(scenes[..i])
    {
      assert scenes[..i + 1][..i] == scenes[..i];
      total := total + scenes[i].duration;
    }
    assert scenes[..|scenes|] == scenes;
  }

  /** Scene `i` starts within a frame of where the scene before it ends. */
  predicate SceneIsContiguous(m: Manifest, i: nat)
    requires m.fps > 0 && i < |m.scenes|
  {
    var frame := 1.0 / m.fps as real;
    var end := if i == 0 then 0.0 else m.scenes[i - 1].start + m.scenes[i - 1].duration;
    end - frame <= m.scenes[i].start <= end + frame
  }

  /** Cue `j` starts at most a frame before the cue before it ends, and ends at most a frame after the composition. */
  predicate CueIsInPlace(m: Manifest, j: nat)
    requires m.fps > 0 && j < |m.cues|
  {
    var frame := 1.0 / m.fps as real;
    && (if j == 0 then 0.0 else m.cues[j - 1].end) - frame <= m.cues[j].start
    && m.cues[j].end <= m.duration + frame
  }

  /** What the Python checks ask for, in numbers. */
  lemma PythonAcceptsSpelledOut(m: Manifest)
    requires m.fps > 0
    ensures PythonAccepts(m) <==>
      && -0.1 <= TotalDuration(m.scenes) - m.duration <= 0.1
      && (forall i :: 0 <= i < |m.scenes| ==> SceneIsContiguous(m, i))
      && (forall j :: 0 <= j < |m.cues| ==> CueIsInPlace(m, j))
  {
    hide TotalDuration, SceneIsContiguous, CueIsInPlace, SceneFits, CueFits, CueFollows;
    forall i | 0 <= i < |m.scenes| ensures SceneFits(m, i) <==> SceneIsContiguous(m, i) {
      SceneFitsSpelledOut(m, i);
    }
    forall j | 0 <= j < |m.cues| ensures CueFollows(m, j) && CueFits(m, j) <==> CueIsInPlace(m, j) {
      CueFitsSpelledOut(m, j);
    }
  }

  lemma SceneFitsSpelledOut(m: Manifest, i: nat)
    requires m.fps > 0 && i < |m.scenes|
    ensures SceneFits(m, i) <==> SceneIsContiguous(m, i)
  {
  }

  lemma CueFitsSpelledOut(m: Manifest, j: nat)
    requires m.fps > 0 && j < |m.cues|
    ensures CueFollows(m, j) && CueFits(m, j) <==> CueIsInPlace(m, j)
    ensures CueFollows(m, j) <==> (if j == 0 then 0.0 else m.cues[j - 1].end) - 1.0 / m.fps as real <= m.cues[j].start
    ensures CueFits(m, j) <==> m.cues[j].end <= m.duration + 1.0 / m.fps as real
  {
  }

  // ----- The TypeScript checks collect every issue

  datatype Issue =
    | ScenesIssue | SceneStartIssue(scene: nat)
    | CueEndIssue(cue: nat) | CueStartIssue(cue: nat) | CueLateIssue(cue: nat)

  /** The issue is justified. */
  predicate Holds(m: Manifest, issue: Issue)
    requires m.fps > 0
  {
    match issue
    case ScenesIssue => !DurationFits(m)
    case SceneStartIssue(i) => i < |m.scenes| && !SceneFits(m, i)
    case CueEndIssue(j) => j < |m.cues| && m.cues[j].end <= m.cues[j].start
    case CueStartIssue(j) => j < |m.cues| && !CueFollows(m, j)
    case CueLateIssue(j) => j < |m.cues| && !CueFits(m, j)
  }

  /** Each issue, in numbers. */
  lemma IssuesSpelledOut(m: Manifest, k: nat)
    requires m.fps > 0
    ensures Holds(m, ScenesIssue) <==> !(-0.1 <= TotalDuration(m.scenes) - m.duration <= 0.1)
    ensures Holds(m, SceneStartIssue(k)) <==> k < |m.scenes| && !SceneIsContiguous(m, k)
    ensures Holds(m, CueEndIssue(k)) <==> k < |m.cues| && m.cues[k].end <= m.cues[k].start
    ensures Holds(m, CueStartIssue(k)) <==>
      k < |m.cues| && m.cues[k].start < (if k == 0 then 0.0 else m.cues[k - 1].end) - 1.0 / m.fps as real
    ensures Holds(m, CueLateIssue(k)) <==> k < |m.cues| && m.duration + 1.0 / m.fps as real < m.cues[k].end
  {
    hide TotalDuration;
    if k < |m.scenes| {
      SceneFitsSpelledOut(m, k);
    }
    if k < |m.cues| {
      CueFitsSpelledOut(m, k);
    }
  }

  /** The issue is about the part of the manifest that is checked before cue `j`, or before scene `i`. */
  predicate Before(issue: Issue, i: nat, j: nat) {
    match issue
    case ScenesIssue => true
    case SceneStartIssue(k) => k < i
    case CueEndIssue(k) => k < j
    case CueStartIssue(k) => k < j
    case CueLateIssue(k) => k < j
  }

  method CollectIssues(m: Manifest) returns (issues: seq<Issue>)
    requires m.fps > 0
    ensures forall issue :: issue in issues <==> Holds(m, issue)
  {
    var tolerance := 1.0 / m.fps as real;
    var total := SumDurations(m.scenes);
    issues := if Abs(total - m.duration) > 0.1 then [ScenesIssue] else [];
    var expectedStart := 0.0;
    for i := 0 to |m.scenes|
      invariant expectedStart == ExpectedStart(m, i)
      invariant forall issue :: issue in issues <==> Holds(m, issue) && Before(issue, i, 0)
    {
      if Abs(m.scenes[i].start - expectedStart) > tolerance {
        issues := issues + [SceneStartIssue(i)];
      }
      expectedStart := m.scenes[i].start + m.scenes[i].duration;
    }
    var previousEnd := 0.0;
    for j := 0 to |m.cues|
      invariant previousEnd == PreviousEnd(m, j)
      invariant forall issue :: issue in issues <==> Holds(m, issue) && Before(issue, |m.scenes|, j)
    {
      var cue := m.cues[j];
      if cue.end <= cue.start {
        issues := issues + [CueEndIssue(j)];
      }
      if cue.start < previousEnd - tolerance {
        issues := issues + [CueStartIssue(j)];
      }
      if cue.end > m.duration + tolerance {
        issues := issues + [CueLateIssue(j)];
      }
      previousEnd := cue.end;
    }
  }

  ghost predicate TypeScriptAccepts(m: Manifest)
    requires m.fps > 0
  {
    forall issue :: !Holds(m, issue)
  }

  /** The two validators agree up to one check: TypeScript also wants every cue to end after it starts. */
  lemma ValidatorsAgree(m: Manifest)
    requires m.fps > 0
    ensures TypeScriptAccepts(m) <==>
      PythonAccepts(m) && forall j :: 0 <= j < |m.cues| ==> m.cues[j].start < m.cues[j].end
  {
    if TypeScriptAccepts(m) {
      assert !Holds(m, ScenesIssue);
      forall i | 0 <= i < |m.scenes| ensures SceneFits(m, i) {
        assert !Holds(m, SceneStartIssue(i));
      }
      forall j | 0 <= j < |m.cues| ensures CueFollows(m, j) && CueFits(m, j) && m.cues[j].start < m.cues[j].end {
        assert !Holds(m, CueEndIssue(j)) && !Holds(m, CueStartIssue(j)) && !Holds(m, CueLateIssue(j));
      }
    }
  }

  // ----- What acceptance guarantees

  /** A scene starts within a frame per scene of where the durations before it add up to. */
  lemma {:induction false} DriftIsBounded(m: Manifest, i: nat)
    requires m.fps > 0 && PythonAccepts(m) && i < |m.scenes|
    ensures Abs(m.scenes[i].start - TotalDuration(m.scenes[..i])) <= (i + 1) as real * m.Tolerance()
  {
    hide DurationFits, CueFollows, CueFits, Abs;
    assert SceneFits(m, i);
    if i > 0 {
      DriftIsBounded(m, i - 1);
      assert m.scenes[..i][..i - 1] == m.scenes[..i - 1];
      var before := m.scenes[i - 1];
      DriftStep(m.scenes[i].start, before.start, before.duration, TotalDuration(m.scenes[..i - 1]), m.Tolerance(), i);
    } else {
      assert 1.0 * m.Tolerance() == m.Tolerance();
    }
  }

  lemma DriftStep(start: real, before: real, duration: real, total: real, t: real, n: nat)
    requires Abs(before - total) <= n as real * t && Abs(start - (before + duration)) <= t
    ensures Abs(start - (total + duration)) <= (n + 1) as real * t
  {
    assert (n + 1) as real * t == n as real * t + t;
  }

  /** Cue `j` starts at most a frame per cue between them before cue `i` ends. */
  predicate CuesApart(m: Manifest, i: nat, j: nat)
    requires m.fps > 0 && i < j < |m.cues|
  {
    m.cues[i].end - (j - i) as real * m.Tolerance() <= m.cues[j].start
  }

  /** Two cues are apart when none of the cues between them ends before it starts. */
  lemma {:induction false} CueOverlapIsBounded(m: Manifest, i: nat, j: nat)
    requires m.fps > 0 && PythonAccepts(m) && i < j < |m.cues|
    requires forall k :: i < k < j ==> m.cues[k].start <= m.cues[k].end
    ensures CuesApart(m, i, j)
    decreases j - i
  {
    assert CueFollows(m, j);
    var t := m.Tolerance();
    if i < j - 1 {
      CueOverlapIsBounded(m, i, j - 1);
      assert (j - i) as real * t == (j - 1 - i) as real * t + t;
    }
  }

  /** In a manifest the renderer accepts, all cues are apart. */
  lemma RendererCuesAreApart(m: Manifest, i: nat, j: nat)
    requires m.fps > 0 && TypeScriptAccepts(m) && i < j < |m.cues|
    ensures CuesApart(m, i, j)
  {
    ValidatorsAgree(m);
    CueOverlapIsBounded(m, i, j);
  }

  /** The Python validator keeps apart only neighbouring cues. */
  lemma PythonCuesApartIff(i: nat, j: nat)
    requires i < j
    ensures j == i + 1 <==> forall m: Manifest :: m.fps > 0 && PythonAccepts(m) && j < |m.cues| ==> CuesApart(m, i, j)
  {
    if j == i + 1 {
      forall m: Manifest | m.fps > 0 && PythonAccepts(m) && j < |m.cues| ensures CuesApart(m, i, j) {
        CueOverlapIsBounded(m, i, j);
      }
    } else {
      var m := Backwards(i, j);
      BackwardsOverlaps(i, j);
      assert !CuesApart(m, i, j);
    }
  }

  /** Cue `i` lasts to the end, and the cue after it starts there and ends at once near the beginning. */
  function Backwards(i: nat, j: nat): (m: Manifest)
    requires i + 1 < j
    ensures m.fps > 0 && |m.cues| == j + 1
  {
    var duration := (j - i) as real;
    Manifest(duration, 30, [Scene(0.0, duration)],
      seq(j + 1, k => Cue(if k == i + 1 then duration else 0.0, if k == i then duration else 0.01)))
  }

  lemma BackwardsOverlaps(i: nat, j: nat)
    requires i + 1 < j
    ensures PythonAccepts(Backwards(i, j)) && !CuesApart(Backwards(i, j), i, j)
  {
    var m := Backwards(i, j);
    assert m.scenes[..0] == [];
    assert TotalDuration(m.scenes) == m.duration;
    assert (j - i) as real * m.Tolerance() == m.duration / 30.0;
  }

  /** A cue that ends before it starts lets the next one start almost ten seconds before an earlier one ends. */
  lemma PythonCuesOverlap()
    ensures
      var m := Manifest(10.0, 30, [Scene(0.0, 10.0)], [Cue(0.0, 10.0), Cue(9.97, 0.1), Cue(0.1, 0.2)]);
      PythonAccepts(m) && m.cues[2].start < m.cues[0].end - 9.8 && !CuesApart(m, 0, 2)
  {
    var m := Manifest(10.0, 30, [Scene(0.0, 10.0)], [Cue(0.0, 10.0), Cue(9.97, 0.1), Cue(0.1, 0.2)]);
    assert m.scenes[..0] == [];
    assert TotalDuration(m.scenes) == 10.0;
  }

  // ----- Frames

  datatype FrameRange = FrameRange(from: int, durationInFrames: int)

  function Frame(seconds: real, fps: nat): int {
    MathRound(seconds * fps as real)
  }

  function SecondsToFrameRange(start: real, end: real, fps: nat): FrameRange {
    Range(Frame(start, fps), Frame(end, fps))
  }

  predicate Shows(r: FrameRange, frame: int) {
    r.from <= frame < r.from + r.durationInFrames
  }

  /** A cue is shown from the frame of its start up to that of its end, and for one frame at least. */
  lemma ShownFrames(start: real, end: real, fps: nat, frame: int)
    ensures Shows(SecondsToFrameRange(start, end, fps), frame) <==>
      Frame(start, fps) <= frame && (frame < Frame(end, fps) || frame == Frame(start, fps))
    ensures Frame(start, fps) as real - 0.5 <= start * fps as real < Frame(start, fps) as real + 0.5
  {
  }

  /** Consecutive cues share at most one frame. */
  lemma CuesShareOneFrame(m: Manifest, j: nat, f: int, g: int)
    requires m.fps > 0 && PythonAccepts(m) && j + 1 < |m.cues|
    requires
      var a := SecondsToFrameRange(m.cues[j].start, m.cues[j].end, m.fps);
      var b := SecondsToFrameRange(m.cues[j + 1].start, m.cues[j + 1].end, m.fps);
      Shows(a, f) && Shows(b, f) && Shows(a, g) && Shows(b, g)
    ensures f == g
  {
    hide SecondsToFrameRange, DurationFits, SceneFits;
    assert CueFollows(m, j + 1);
    CloseCuesShareOneFrame(m.cues[j], m.cues[j + 1], m.fps, f, g);
  }

  lemma CloseCuesShareOneFrame(c: Cue, d: Cue, fps: nat, f: int, g: int)
    requires fps > 0 && c.end - 1.0 / fps as real <= d.start
    requires
      var a, b := SecondsToFrameRange(c.start, c.end, fps), SecondsToFrameRange(d.start, d.end, fps);
      Shows(a, f) && Shows(b, f) && Shows(a, g) && Shows(b, g)
    ensures f == g
  {
    hide Frame;
    FrameApart(c.end, d.start, fps);
    RangesShareOne(Frame(c.start, fps), Frame(c.end, fps), Frame(d.start, fps), Frame(d.end, fps), f, g);
  }

  function Range(from: int, last: int): FrameRange {
    FrameRange(from, if last - from < 1 then 1 else last - from)
  }

  lemma RangesShareOne(fromA: int, lastA: int, fromB: int, lastB: int, f: int, g: int)
    requires lastA - 1 <= fromB
    requires Shows(Range(fromA, lastA), f) && Shows(Range(fromB, lastB), f)
    requires Shows(Range(fromA, lastA), g) && Shows(Range(fromB, lastB), g)
    ensures f == g
  {
  }

  lemma FrameApart(end: real, start: real, fps: nat)
    requires fps > 0 && end - 1.0 / fps as real <= start
    ensures Frame(end, fps) - 1 <= Frame(start, fps)
  {
    var n := fps as real;
    assert 1.0 / n * n == 1.0;
    Stretch(end - 1.0 / n, start, n);
    assert (end - 1.0 / n) * n == end * n - 1.0;
  }

  lemma Stretch(x: real, y: real, n: real)
    requires x <= y && n > 0.0
    ensures x * n <= y * n
  {
  }
}
