// The scene-boundary score (`flow_a_acceptance.py`, `_scene_boundary_f1`): every reference boundary takes the nearest
// predicted boundary still free, and the matches are scored.
module SceneMatching {
  import opened Wrappers

  function Distance(x: real, y: real): real {
    if x < y then y - x else x - y
  }

  predicate Near(reference: seq<real>, predicted: seq<real>, tolerance: real, i: nat, p: nat) {
    i < |reference| && p < |predicted| && Distance(predicted[p], reference[i]) <= tolerance
  }

  // ----- The greedy choices

  /** The predicted boundaries taken by the choices. */
  function Taken(choices: seq<Option<nat>>): set<nat> {
    if choices == [] then {}
    else
      Taken(choices[..|choices| - 1]) +
      match choices[|choices| - 1] { case None => {} case Some(p) => {p} }
  }

  function Matches(choices: seq<Option<nat>>): nat {
    if choices == [] then 0
    else Matches(choices[..|choices| - 1]) + if choices[|choices| - 1].Some? then 1 else 0
  }

  predicate Free(reference: seq<real>, predicted: seq<real>, tolerance: real, choices: seq<Option<nat>>, i: nat, p: nat)
    requires i < |choices|
  {
    Near(reference, predicted, tolerance, i, p) && p !in Taken(choices[..i])
  }

  /** Boundary `i` takes a nearest free predicted boundary within the tolerance, if there is one. */
  ghost predicate GreedyAt(reference: seq<real>, predicted: seq<real>, tolerance: real, choices: seq<Option<nat>>,
      i: nat)
    requires i < |choices|
  {
    match choices[i]
    case None => forall p: nat :: !Free(reference, predicted, tolerance, choices, i, p)
    case Some(best) =>
      && Free(reference, predicted, tolerance, choices, i, best)
      && forall p: nat :: Free(reference, predicted, tolerance, choices, i, p) ==>
           Distance(predicted[best], reference[i]) <= Distance(predicted[p], reference[i])
  }

  ghost predicate Greedy(reference: seq<real>, predicted: seq<real>, tolerance: real, choices: seq<Option<nat>>) {
    |choices| == |reference| && forall i :: 0 <= i < |choices| ==> GreedyAt(reference, predicted, tolerance, choices, i)
  }

  function Score(matches: nat, references: nat, predictions: nat): real {
    var precision := if predictions > 0 then matches as real / predictions as real else 0.0;
    var recall := if references > 0 then matches as real / references as real else 0.0;
    if precision + recall == 0.0 then 0.0 else 2.0 * precision * recall / (precision + recall)
  }

  /** Scores some greedy choices: of boundaries equally near any may be taken. */
  method SceneBoundaryF1(reference: seq<real>, predicted: seq<real>, tolerance: real) returns (score: real)
    ensures exists choices ::
      && Greedy(reference, predicted, tolerance, choices)
      && score == Score(Matches(choices), |reference|, |predicted|)
  {
    hide Score, GreedyAt, Taken, Matches;
    NothingTaken();
    var unmatched := Below(|predicted|);
    var matches := 0;
    ghost var choices: seq<Option<nat>> := [];
    for i := 0 to |reference|
      invariant |choices| == i
      invariant forall k :: 0 <= k < i ==> GreedyAt(reference, predicted, tolerance, choices, k)
      invariant unmatched == Below(|predicted|) - Taken(choices)
      invariant matches == Matches(choices)
    {
      var choice := Choose(reference, predicted, tolerance, choices, unmatched, i);
      forall k | 0 <= k < i ensures GreedyAt(reference, predicted, tolerance, choices + [choice], k) {
        EarlierChoice(reference, predicted, tolerance, choices, choice, k);
      }
      OneMoreTaken(choices, choice);
      choices := choices + [choice];
      if choice.Some? {
        unmatched := unmatched - {choice.value};
        matches := matches + 1;
      }
    }
    score := Score(matches, |reference|, |predicted|);
    assert Greedy(reference, predicted, tolerance, choices);
  }

  method Choose(reference: seq<real>, predicted: seq<real>, tolerance: real,
                ghost choices: seq<Option<nat>>, unmatched: set<nat>, i: nat)
    returns (choice: Option<nat>)
    requires i == |choices| < |reference|
    requires unmatched == Below(|predicted|) - Taken(choices)
    ensures GreedyAt(reference, predicted, tolerance, choices + [choice], i)
    ensures choice.Some? ==> choice.value in unmatched
  {
    var target := reference[i];
    var candidates := set p | p in unmatched && Distance(predicted[p], target) <= tolerance;
    if candidates == {} {
      choice := None;
    } else {
      NearestExists(candidates, predicted, target);
      var best: nat :| Nearest(candidates, predicted, target, best);
      choice := Some(best);
    }
    assert (choices + [choice])[..i] == choices;
    assert forall p: nat :: Free(reference, predicted, tolerance, choices + [choice], i, p) <==> p in candidates;
  }

  lemma NothingTaken()
    ensures Taken([]) == {} && Matches([]) == 0 && Pairs([]) == {}
  {
  }

  lemma OneMoreTaken(choices: seq<Option<nat>>, choice: Option<nat>)
    ensures Taken(choices + [choice]) == if choice.Some? then Taken(choices) + {choice.value} else Taken(choices)
    ensures Matches(choices + [choice]) == Matches(choices) + if choice.Some? then 1 else 0
  {
    assert (choices + [choice])[..|choices|] == choices;
  }

  lemma EarlierChoice(
      reference: seq<real>, predicted: seq<real>, tolerance: real, choices: seq<Option<nat>>, next: Option<nat>, k: nat)
    requires k < |choices| <= |reference| && GreedyAt(reference, predicted, tolerance, choices, k)
    ensures GreedyAt(reference, predicted, tolerance, choices + [next], k)
  {
    assert (choices + [next])[..k] == choices[..k];
    assert forall p: nat ::
      Free(reference, predicted, tolerance, choices + [next], k, p) <==>
        Free(reference, predicted, tolerance, choices, k, p);
  }

  predicate Nearest(candidates: set<nat>, predicted: seq<real>, target: real, best: nat)
    requires forall p :: p in candidates ==> p < |predicted|
  {
    best in candidates &&
    forall p :: p in candidates ==> Distance(predicted[best], target) <= Distance(predicted[p], target)
  }

  lemma {:induction false} NearestExists(candidates: set<nat>, predicted: seq<real>, target: real)
    requires candidates != {} && forall p :: p in candidates ==> p < |predicted|
    ensures exists best :: Nearest(candidates, predicted, target, best)
    decreases |candidates|
  {
    var q :| q in candidates;
    var rest := candidates - {q};
    if rest == {} {
      assert forall p :: p in candidates ==> p == q || p in rest;
      assert Nearest(candidates, predicted, target, q);
    } else {
      NearestExists(rest, predicted, target);
      var best: nat :| Nearest(rest, predicted, target, best);
      var winner := if Distance(predicted[q], target) < Distance(predicted[best], target) then q else best;
      assert forall p :: p in candidates ==> p == q || p in rest;
      assert Nearest(candidates, predicted, target, winner);
    }
  }

  // ----- Matchings

  /** Pairs of a reference and a predicted boundary within the tolerance, no boundary in two pairs. */
  ghost predicate Matching(reference: seq<real>, predicted: seq<real>, tolerance: real, pairs: set<(nat, nat)>) {
    && (forall e :: e in pairs ==> Near(reference, predicted, tolerance, e.0, e.1))
    && forall e, f :: e in pairs && f in pairs && (e.0 == f.0 || e.1 == f.1) ==> e == f
  }

  function Pairs(choices: seq<Option<nat>>): set<(nat, nat)> {
    if choices == [] then {}
    else
      Pairs(choices[..|choices| - 1]) +
      match choices[|choices| - 1] { case None => {} case Some(p) => {(|choices| - 1, p)} }
  }

  lemma {:induction false} PairsOf(choices: seq<Option<nat>>, i: nat, p: nat)
    ensures (i, p) in Pairs(choices) <==> i < |choices| && choices[i] == Some(p)
  {
    if choices != [] {
      PairsOf(choices[..|choices| - 1], i, p);
    }
  }

  lemma {:induction false} TakenOf(choices: seq<Option<nat>>, p: nat)
    ensures p in Taken(choices) <==> exists i :: 0 <= i < |choices| && choices[i] == Some(p)
  {
    if choices != [] {
      TakenOf(choices[..|choices| - 1], p);
    }
  }

  /** The greedy choices form a matching with one pair a match. */
  lemma {:induction false} GreedyIsMatching(
      reference: seq<real>, predicted: seq<real>, tolerance: real, choices: seq<Option<nat>>)
    requires Greedy(reference, predicted, tolerance, choices)
    ensures Matching(reference, predicted, tolerance, Pairs(choices))
    ensures |Pairs(choices)| == Matches(choices) == |Taken(choices)|
  {
    forall e | e in Pairs(choices)
      ensures Near(reference, predicted, tolerance, e.0, e.1) && e.0 < |choices| && choices[e.0] == Some(e.1)
    {
      PairsOf(choices, e.0, e.1);
      assert GreedyAt(reference, predicted, tolerance, choices, e.0);
    }
    forall e, f | e in Pairs(choices) && f in Pairs(choices) && e.1 == f.1 ensures e == f {
      if e.0 < f.0 {
        OneTaker(reference, predicted, tolerance, choices, e.0, f.0);
      } else if f.0 < e.0 {
        OneTaker(reference, predicted, tolerance, choices, f.0, e.0);
      }
    }
    CountChoices(reference, predicted, tolerance, choices, |choices|);
    assert choices[..|choices|] == choices;
  }

  lemma OneTaker(reference: seq<real>, predicted: seq<real>, tolerance: real, choices: seq<Option<nat>>, i: nat, j: nat)
    requires Greedy(reference, predicted, tolerance, choices)
    requires i < j < |choices| && choices[i].Some?
    ensures choices[i] != choices[j]
  {
    assert GreedyAt(reference, predicted, tolerance, choices, j);
    TakenOf(choices[..j], choices[i].value);
    assert choices[..j][i] == choices[i];
  }

  lemma {:induction false} CountChoices(
      reference: seq<real>, predicted: seq<real>, tolerance: real, choices: seq<Option<nat>>, n: nat)
    requires Greedy(reference, predicted, tolerance, choices) && n <= |choices|
    ensures |Pairs(choices[..n])| == Matches(choices[..n]) == |Taken(choices[..n])|
  {
    hide Greedy, Pairs, Matches, Taken;
    if n == 0 {
      NothingTaken();
    } else {
      var before, last := choices[..n - 1], choices[n - 1];
      CountChoices(reference, predicted, tolerance, choices, n - 1);
      assert choices[..n] == before + [last];
      OneMoreTaken(before, last);
      OneMorePair(before, last);
      if last.Some? {
        NotTaken(reference, predicted, tolerance, choices, n - 1);
      }
    }
  }

  lemma OneMorePair(choices: seq<Option<nat>>, choice: Option<nat>)
    ensures Pairs(choices + [choice]) ==
      if choice.Some? then Pairs(choices) + {(|choices|, choice.value)} else Pairs(choices)
    ensures choice.Some? ==> (|choices|, choice.value) !in Pairs(choices)
  {
    assert (choices + [choice])[..|choices|] == choices;
    if choice.Some? {
      PairsOf(choices, |choices|, choice.value);
    }
  }

  lemma NotTaken(reference: seq<real>, predicted: seq<real>, tolerance: real, choices: seq<Option<nat>>, i: nat)
    requires Greedy(reference, predicted, tolerance, choices) && i < |choices| && choices[i].Some?
    ensures choices[i].value !in Taken(choices[..i])
  {
    assert GreedyAt(reference, predicted, tolerance, choices, i);
  }

  /**
   * A boundary that is matched takes one no farther away than any other that is left, and one that is not matched has
   * none within the tolerance.
   */
  lemma GreedyTakesNearest(
      reference: seq<real>, predicted: seq<real>, tolerance: real, choices: seq<Option<nat>>, i: nat, p: nat)
    requires Greedy(reference, predicted, tolerance, choices) && i < |reference| && p < |predicted|
    requires -tolerance <= predicted[p] - reference[i] <= tolerance
    requires forall k :: 0 <= k < i ==> choices[k] != Some(p)
    ensures choices[i].Some? && choices[i].value < |predicted|
    ensures
      var best, other := predicted[choices[i].value] - reference[i], predicted[p] - reference[i];
      (if best < 0.0 then -best else best) <= (if other < 0.0 then -other else other)
  {
    assert GreedyAt(reference, predicted, tolerance, choices, i);
    TakenOf(choices[..i], p);
    assert Free(reference, predicted, tolerance, choices, i, p);
  }

  /** No pair can be added: every pair within the tolerance touches a boundary already matched. */
  lemma GreedyIsMaximal(
      reference: seq<real>, predicted: seq<real>, tolerance: real, choices: seq<Option<nat>>, i: nat, p: nat)
    requires Greedy(reference, predicted, tolerance, choices)
    requires Near(reference, predicted, tolerance, i, p)
    ensures choices[i].Some? || p in Taken(choices)
  {
    assert GreedyAt(reference, predicted, tolerance, choices, i);
    if choices[i].None? {
      assert !Free(reference, predicted, tolerance, choices, i, p);
      TakenOf(choices[..i], p);
      TakenOf(choices, p);
      var k :| 0 <= k < i && choices[..i][k] == Some(p);
      assert choices[k] == Some(p);
    }
  }

  lemma {:induction false} CountFirst(pairs: set<(nat, nat)>, firsts: set<nat>)
    requires forall e :: e in pairs ==> e.0 in firsts
    requires forall e, f :: e in pairs && f in pairs && e.0 == f.0 ==> e == f
    ensures |pairs| <= |firsts|
    decreases pairs
  {
    if pairs != {} {
      var e :| e in pairs;
      CountFirst(pairs - {e}, firsts - {e.0});
    }
  }

  lemma {:induction false} CountSecond(pairs: set<(nat, nat)>, seconds: set<nat>)
    requires forall e :: e in pairs ==> e.1 in seconds
    requires forall e, f :: e in pairs && f in pairs && e.1 == f.1 ==> e == f
    ensures |pairs| <= |seconds|
    decreases pairs
  {
    if pairs != {} {
      var e :| e in pairs;
      CountSecond(pairs - {e}, seconds - {e.1});
    }
  }

  /** The reference boundaries that found a match. */
  function Served(choices: seq<Option<nat>>): set<nat> {
    set i: nat | 0 <= i < |choices| && choices[i].Some?
  }

  lemma {:induction false} ServedCount(choices: seq<Option<nat>>)
    ensures |Served(choices)| == Matches(choices)
  {
    if choices != [] {
      var before := choices[..|choices| - 1];
      ServedCount(before);
      if choices[|choices| - 1].Some? {
        assert Served(choices) == Served(before) + {|choices| - 1};
      } else {
        assert Served(choices) == Served(before);
      }
    } else {
      assert Served(choices) == {};
    }
  }

  /** No matching at all has more than twice as many pairs as the greedy one. */
  lemma GreedyIsHalfOptimal(
      reference: seq<real>, predicted: seq<real>, tolerance: real, choices: seq<Option<nat>>, pairs: set<(nat, nat)>)
    requires Greedy(reference, predicted, tolerance, choices)
    requires Matching(reference, predicted, tolerance, pairs)
    ensures |pairs| <= 2 * Matches(choices)
  {
    var served := set e | e in pairs && choices[e.0].Some?;
    var taken := set e | e in pairs && e.1 in Taken(choices);
    forall e | e in pairs ensures e in served + taken {
      GreedyIsMaximal(reference, predicted, tolerance, choices, e.0, e.1);
    }
    assert pairs == served + taken;
    ServedCount(choices);
    CountFirst(served, Served(choices));
    GreedyIsMatching(reference, predicted, tolerance, choices);
    CountSecond(taken, Taken(choices));
  }

  /** The factor two is met: the first boundary can take the only match of the second. */
  lemma GreedyCanLoseHalf(choices: seq<Option<nat>>)
    requires Greedy([0.0, 0.8], [0.4, -0.5], 0.5, choices)
    ensures Matches(choices) == 1
    ensures Matching([0.0, 0.8], [0.4, -0.5], 0.5, {(0, 1), (1, 0)})
  {
    var reference, predicted := [0.0, 0.8], [0.4, -0.5];
    assert GreedyAt(reference, predicted, 0.5, choices, 0) && GreedyAt(reference, predicted, 0.5, choices, 1);
    assert choices[..0] == [] && choices[..1] == [choices[0]] && choices[..2][..1] == choices[..1] &&
      choices[..2] == choices;
    assert Free(reference, predicted, 0.5, choices, 0, 0);
    assert choices[0] == Some(0);
    assert choices[..1][..0] == choices[..0];
    assert Taken(choices[..1]) == {0} && Matches(choices[..1]) == 1;
    assert choices[1] == None;
  }

  // ----- The score

  lemma {:induction false} MatchesBounded(
      reference: seq<real>, predicted: seq<real>, tolerance: real, choices: seq<Option<nat>>)
    requires Greedy(reference, predicted, tolerance, choices)
    ensures Matches(choices) <= |reference| && Matches(choices) <= |predicted|
  {
    GreedyIsMatching(reference, predicted, tolerance, choices);
    CountFirst(Pairs(choices), Below(|reference|));
    CountSecond(Pairs(choices), Below(|predicted|));
  }

  function Below(n: nat): (s: set<nat>)
    ensures |s| == n && forall k :: k in s <==> 0 <= k < n
  {
    if n == 0 then {} else Below(n - 1) + {n - 1}
  }

  /** The score is the harmonic mean in closed form, a proportion, and one only when everything is matched. */
  lemma ScoreMeaning(matches: nat, references: nat, predictions: nat)
    requires matches <= references && matches <= predictions
    ensures references + predictions > 0 ==>
      Score(matches, references, predictions) == 2.0 * matches as real / (references + predictions) as real
    ensures 0.0 <= Score(matches, references, predictions) <= 1.0
    ensures Score(matches, references, predictions) == 1.0 <==> 0 < matches == references == predictions
  {
    if matches > 0 {
      HarmonicMean(matches as real, references as real, predictions as real);
    } else {
      ZeroScore(references, predictions);
    }
  }

  lemma ZeroScore(references: nat, predictions: nat)
    ensures Score(0, references, predictions) == 0.0
    ensures references + predictions > 0 ==> 2.0 * 0.0 / (references + predictions) as real == 0.0
  {
  }

  lemma HarmonicMean(m: real, r: real, p: real)
    requires 0.0 < m <= r && m <= p
    ensures m / p + m / r > 0.0
    ensures 2.0 * (m / p) * (m / r) / (m / p + m / r) == 2.0 * m / (p + r)
    ensures 0.0 < 2.0 * m / (p + r) <= 1.0
    ensures 2.0 * m / (p + r) == 1.0 <==> m == r == p
  {
    var x, y := m / p, m / r;
    assert x * p == m && y * r == m;
    assert x * y * (p + r) == m * (x + y) by {
      assert x * y * p == m * y && x * y * r == x * m;
    }
    var q := 2.0 * m / (p + r);
    assert q * (p + r) == 2.0 * m;
    assert q * (x + y) * (p + r) == 2.0 * m * (x + y) == 2.0 * x * y * (p + r);
  }

  /**
   * The score of the greedy choices is a proportion, and at least half the score that any matching at all would be
   * given.
   */
  lemma ScoreIsHalfOptimal(
      reference: seq<real>, predicted: seq<real>, tolerance: real, choices: seq<Option<nat>>, pairs: set<(nat, nat)>)
    requires Greedy(reference, predicted, tolerance, choices)
    requires Matching(reference, predicted, tolerance, pairs)
    ensures
      var score := Score(Matches(choices), |reference|, |predicted|);
      && 0.0 <= score <= 1.0
      && Score(|pairs|, |reference|, |predicted|) <= 2.0 * score
  {
    hide Score, Matches, Greedy;
    MatchesBounded(reference, predicted, tolerance, choices);
    CountFirst(pairs, Below(|reference|));
    CountSecond(pairs, Below(|predicted|));
    GreedyIsHalfOptimal(reference, predicted, tolerance, choices, pairs);
    ScoreMeaning(Matches(choices), |reference|, |predicted|);
    ScoreHalved(|pairs|, Matches(choices), |reference|, |predicted|);
  }

  lemma ScoreHalved(x: nat, y: nat, references: nat, predictions: nat)
    requires x <= 2 * y && x <= references && x <= predictions && y <= references && y <= predictions
    ensures Score(x, references, predictions) <= 2.0 * Score(y, references, predictions)
  {
    hide Score;
    ScoreMeaning(x, references, predictions);
    ScoreMeaning(y, references, predictions);
    if references + predictions > 0 {
      Halved(x, y, references + predictions);
    } else {
      ZeroScore(0, 0);
    }
  }

  lemma Halved(x: nat, y: nat, n: nat)
    requires n > 0 && x <= 2 * y
    ensures 2.0 * x as real / n as real <= 2.0 * (2.0 * y as real / n as real)
  {
    var d := n as real;
    assert 2.0 * (2.0 * y as real / d) == 4.0 * y as real / d;
    assert 4.0 * y as real / d - 2.0 * x as real / d == (4.0 * y as real - 2.0 * x as real) / d;
  }
}
