// Transcript quality: the two word-error-rate loops (`asr_quality_guards.py`, `flow_a_acceptance.py`), the
// insertion guard and the two ways critical terms are looked for.
module AsrQuality {
  import opened EditDistance

  /** Unicode normalisation, case folding and splitting into words, which both files share. */
  type Tokenizer = string -> seq<string>

  // ----- The two dynamic programs

  /** `row` holds the distances from `a` to every prefix of `b` up to `n`. */
  predicate IsRow<T(==)>(row: seq<nat>, a: seq<T>, b: seq<T>, n: nat)
    requires n <= |b|
  {
    |row| == n + 1 && forall j :: 0 <= j <= n ==> row[j] == Distance(a, b[..j])
  }

  lemma RowStep<T>(previous: seq<nat>, current: seq<nat>, a: seq<T>, b: seq<T>, i: nat, j: nat)
    requires i < |a| && j < |b|
    requires IsRow(previous, a[..i], b, |b|) && IsRow(current, a[..i + 1], b, j)
    ensures
      Distance(a[..i + 1], b[..j + 1]) ==
      Min(Min(current[j] + 1, previous[j + 1] + 1), previous[j] + if a[i] != b[j] then 1 else 0)
  {
    assert Init(a[..i + 1]) == a[..i] && Init(b[..j + 1]) == b[..j];
  }

  lemma FirstRow<T>(row: seq<nat>, a: seq<T>, b: seq<T>)
    requires |row| == |b| + 1 && forall j :: 0 <= j <= |b| ==> row[j] == j
    ensures IsRow(row, a[..0], b, |b|)
  {
  }

  lemma FirstEntry<T>(a: seq<T>, b: seq<T>, i: nat)
    requires i < |a|
    ensures IsRow([i + 1], a[..i + 1], b, 0)
  {
  }

  method LevenshteinRows<T(==)>(reference: seq<T>, hypothesis: seq<T>) returns (d: nat)
    ensures d == Distance(reference, hypothesis)
  {
    hide Distance;
    var previous: seq<nat> := seq(|hypothesis| + 1, j requires 0 <= j => j);
    FirstRow(previous, reference, hypothesis);
    for i := 0 to |reference|
      invariant IsRow(previous, reference[..i], hypothesis, |hypothesis|)
    {
      var current: seq<nat> := [i + 1];
      FirstEntry(reference, hypothesis, i);
      for j := 0 to |hypothesis|
        invariant IsRow(current, reference[..i + 1], hypothesis, j)
      {
        RowStep(previous, current, reference, hypothesis, i, j);
        current := current +
          [Min(Min(current[j] + 1, previous[j + 1] + 1),
               previous[j] + if reference[i] != hypothesis[j] then 1 else 0)];
      }
      previous := current;
    }
    assert reference[..|reference|] == reference && hypothesis[..|hypothesis|] == hypothesis;
    d := previous[|hypothesis|];
  }

  function DirectWer(reference: seq<string>, hypothesis: seq<string>): real {
    Distance(reference, hypothesis) as real / (if |reference| == 0 then 1 else |reference|) as real
  }

  function FlowWer(reference: seq<string>, hypothesis: seq<string>): real {
    if reference == [] then if hypothesis == [] then 0.0 else 1.0
    else Distance(reference, hypothesis) as real / |reference| as real
  }

  /** The second copy of the loops, inside the rate. */
  method WordErrorRate(reference: string, hypothesis: string, tokens: Tokenizer) returns (wer: real)
    ensures wer == FlowWer(tokens(reference), tokens(hypothesis))
  {
    hide Distance;
    var expected, actual := tokens(reference), tokens(hypothesis);
    if expected == [] {
      return if actual == [] then 0.0 else 1.0;
    }
    var previous: seq<nat> := seq(|actual| + 1, j requires 0 <= j => j);
    FirstRow(previous, expected, actual);
    for i := 0 to |expected|
      invariant IsRow(previous, expected[..i], actual, |actual|)
    {
      var current: seq<nat> := [i + 1];
      FirstEntry(expected, actual, i);
      for j := 0 to |actual|
        invariant IsRow(current, expected[..i + 1], actual, j)
      {
        RowStep(previous, current, expected, actual, i, j);
        current := current +
          [Min(Min(current[j] + 1, previous[j + 1] + 1), previous[j] + if expected[i] != actual[j] then 1 else 0)];
      }
      previous := current;
    }
    assert expected[..|expected|] == expected && actual[..|actual|] == actual;
    wer := previous[|actual|] as real / |expected| as real;
  }

  /** The two rates agree unless there is no reference and more than one spurious word. */
  lemma RatesAgree(reference: seq<string>, hypothesis: seq<string>)
    ensures DirectWer(reference, hypothesis) == FlowWer(reference, hypothesis) <==> reference != [] || |hypothesis| <= 1
  {
  }

  /** Without a reference any word at all is an error rate of one, or in the other copy of the number of words. */
  lemma RateWithoutReference(hypothesis: seq<string>)
    ensures FlowWer([], hypothesis) == if hypothesis == [] then 0.0 else 1.0
    ensures DirectWer([], hypothesis) == |hypothesis| as real
  {
  }

  lemma DirectRate(reference: seq<string>, hypothesis: seq<string>)
    requires reference != []
    ensures DirectWer(reference, hypothesis) * |reference| as real == Distance(reference, hypothesis) as real
  {
    hide Distance;
    Quotient(Distance(reference, hypothesis), |reference|);
  }

  /**
   * The rate is the number of errors for each word of the reference: zero means the same words, and the errors never
   * exceed the longer text.
   */
  lemma RateMeaning(reference: seq<string>, hypothesis: seq<string>)
    requires reference != []
    ensures FlowWer(reference, hypothesis) * |reference| as real == Distance(reference, hypothesis) as real
    ensures FlowWer(reference, hypothesis) == 0.0 <==> reference == hypothesis
    ensures FlowWer(reference, hypothesis) * |reference| as real <=
      (if |reference| < |hypothesis| then |hypothesis| else |reference|) as real
  {
    hide Distance, FlowWer;
    ZeroMeansEqual(reference, hypothesis);
    DistanceBounds(reference, hypothesis);
    FlowRate(reference, hypothesis);
  }

  lemma FlowRate(reference: seq<string>, hypothesis: seq<string>)
    requires reference != []
    ensures FlowWer(reference, hypothesis) * |reference| as real == Distance(reference, hypothesis) as real
    ensures FlowWer(reference, hypothesis) == 0.0 <==> Distance(reference, hypothesis) == 0
  {
    hide Distance;
    Quotient(Distance(reference, hypothesis), |reference|);
  }

  lemma Quotient(x: nat, n: nat)
    requires n > 0
    ensures x as real / n as real * n as real == x as real
    ensures x as real / n as real == 0.0 <==> x == 0
    ensures x as real / n as real == 1.0 <==> x == n
  {
  }

  // ----- Occurrences of a phrase

  predicate OccursAt<T(==)>(text: seq<T>, phrase: seq<T>, k: nat) {
    k + |phrase| <= |text| && text[k..k + |phrase|] == phrase
  }

  function Occurrences<T(==)>(text: seq<T>, phrase: seq<T>): nat {
    if phrase == [] then 0 else |set k | 0 <= k <= |text| && OccursAt(text, phrase, k)|
  }

  lemma OccursSomewhere<T>(text: seq<T>, phrase: seq<T>)
    ensures Occurrences(text, phrase) > 0 <==> phrase != [] && exists k :: OccursAt(text, phrase, k)
  {
    var ks := set k | 0 <= k <= |text| && OccursAt(text, phrase, k);
    if k: nat :| OccursAt(text, phrase, k) {
      assert k in ks;
    } else {
      assert ks == {};
    }
  }

  /** There is no occurrence in a text shorter than the phrase, and none of the empty phrase. */
  lemma NoOccurrence<T>(text: seq<T>, phrase: seq<T>)
    requires |text| < |phrase| || phrase == []
    ensures Occurrences(text, phrase) == 0
  {
    OccursSomewhere(text, phrase);
  }

  /** One more word makes one more occurrence exactly when the phrase is at the end: overlapping ones count as well. */
  lemma OneMoreOccurrence<T>(text: seq<T>, w: T, phrase: seq<T>)
    requires phrase != []
    ensures
      var longer := text + [w];
      Occurrences(longer, phrase) == Occurrences(text, phrase) +
        if |phrase| <= |longer| && longer[|longer| - |phrase|..] == phrase then 1 else 0
  {
    var longer := text + [w];
    var before := set k | 0 <= k <= |text| && OccursAt(text, phrase, k);
    var after := set k | 0 <= k <= |longer| && OccursAt(longer, phrase, k);
    var last := |longer| - |phrase|;
    hide OccursAt;
    forall k: nat
      ensures OccursAt(longer, phrase, k) <==> OccursAt(text, phrase, k) || (k == last && longer[k..] == phrase)
      ensures OccursAt(longer, phrase, k) ==> k <= |longer|
      ensures OccursAt(text, phrase, k) ==> k <= |text| && k != last
    {
      OccurrenceInLonger(text, w, phrase, k);
    }
    if 0 <= last && longer[last..] == phrase {
      assert after == before + {last};
    } else {
      assert after == before;
    }
  }

  lemma OccurrenceInLonger<T>(text: seq<T>, w: T, phrase: seq<T>, k: nat)
    requires phrase != []
    ensures
      var longer := text + [w];
      OccursAt(longer, phrase, k) <==>
        OccursAt(text, phrase, k) || (k == |longer| - |phrase| && longer[k..] == phrase)
    ensures OccursAt(text + [w], phrase, k) ==> k <= |text| + 1
    ensures OccursAt(text, phrase, k) ==> k <= |text| && k != |text| + 1 - |phrase|
  {
    var longer := text + [w];
    if k + |phrase| <= |text| {
      assert longer[k..k + |phrase|] == text[k..k + |phrase|];
    } else if k + |phrase| == |longer| {
      assert longer[k..] == longer[k..k + |phrase|];
    }
  }

  datatype Guard = Guard(
    referenceCounts: map<string, nat>, providerCounts: map<string, nat>, excess: map<string, nat>, passed: bool)

  function Excess(reference: seq<string>, transcript: seq<string>, term: seq<string>): nat {
    if Occurrences(transcript, term) <= Occurrences(reference, term) then 0
    else Occurrences(transcript, term) - Occurrences(reference, term)
  }

  function InsertionGuard(reference: string, transcript: string, prompted: seq<string>, tokens: Tokenizer): Guard {
    var excess := map term | term in prompted :: Excess(tokens(reference), tokens(transcript), tokens(term));
    Guard(map term | term in prompted :: Occurrences(tokens(reference), tokens(term)),
          map term | term in prompted :: Occurrences(tokens(transcript), tokens(term)),
          excess, forall term :: term in prompted ==> excess[term] == 0)
  }

  datatype Quality = Quality(wer: real, recall: real, termsPassed: nat, termsRequired: nat, guard: Guard, passed: bool)

  function TermsFound(transcript: seq<string>, terms: seq<string>, tokens: Tokenizer): nat {
    if terms == [] then 0
    else
      TermsFound(transcript, Init(terms), tokens) + if Occurrences(transcript, tokens(Last(terms))) > 0 then 1 else 0
  }

  method EvaluateDirectAsrQuality(
      reference: string, transcript: string, critical: seq<string>, prompted: seq<string>, tokens: Tokenizer)
    returns (q: Quality)
    ensures q.passed <==> Passes(tokens(reference), tokens(transcript), critical, prompted, tokens)
    ensures q.passed <==>
      && 20 * Distance(tokens(reference), tokens(transcript)) <= 3 * Greatest(1, |tokens(reference)|)
      && critical != []
      && (forall term :: term in critical ==> Occurrences(tokens(transcript), tokens(term)) > 0)
      && forall term :: term in prompted ==>
           Occurrences(tokens(transcript), tokens(term)) <= Occurrences(tokens(reference), tokens(term))
    ensures q.wer == DirectWer(tokens(reference), tokens(transcript))
    ensures q.recall == 1.0 <==> critical != [] && forall term :: term in critical ==>
      Spoken(tokens(transcript), tokens(term))
    ensures q.termsPassed == |SpokenTerms(tokens(transcript), critical, tokens, |critical|)|
    ensures q.termsRequired == |critical|
    ensures q.recall == q.termsPassed as real / Greatest(1, |critical|) as real
    ensures q.guard.excess.Keys == q.guard.referenceCounts.Keys == q.guard.providerCounts.Keys
    ensures q.guard.excess.Keys == set term | term in prompted
    ensures forall term :: term in prompted ==>
      && q.guard.referenceCounts[term] == Occurrences(tokens(reference), tokens(term))
      && q.guard.providerCounts[term] == Occurrences(tokens(transcript), tokens(term))
      && q.guard.excess[term] == Greatest(0, q.guard.providerCounts[term] as int - q.guard.referenceCounts[term])
    ensures q.guard.passed <==> forall term :: term in prompted ==> q.guard.excess[term] == 0
  {
    hide Distance, Occurrences, Spoken, SpokenTerms;
    var expected, actual := tokens(reference), tokens(transcript);
    var distance := LevenshteinRows(expected, actual);
    var wer := distance as real / (if |expected| == 0 then 1 else |expected|) as real;
    var found := TermsFound(actual, critical, tokens);
    var required := if |critical| == 0 then 1 else |critical|;
    var recall := found as real / required as real;
    var guard := InsertionGuard(reference, transcript, prompted, tokens);
    q := Quality(wer, recall, found, |critical|, guard, wer <= 0.15 && recall == 1.0 && guard.passed);
    AllTermsFound(actual, critical, tokens);
    TermsCounted(actual, critical, tokens, |critical|);
    assert critical[..|critical|] == critical;
    Quotient(found, required);
    RateWithinLimit(distance, if |expected| == 0 then 1 else |expected|);
    forall term | term in critical ensures Occurrences(actual, tokens(term)) > 0 <==> Spoken(actual, tokens(term)) {
      PhraseSpoken(actual, tokens(term));
    }
  }

  /**
   * What the quality gate asks for, in whole numbers: at most three edits per twenty reference words, at least one
   * critical term and every one of them spoken, and no prompted term spoken more often than in the reference.
   */
  ghost predicate Passes(
      reference: seq<string>, transcript: seq<string>, critical: seq<string>, prompted: seq<string>, tokens: Tokenizer)
  {
    && 20 * Distance(reference, transcript) <= 3 * (if |reference| == 0 then 1 else |reference|)
    && critical != []
    && (forall term :: term in critical ==> Spoken(transcript, tokens(term)))
    && forall term :: term in prompted ==>
         Occurrences(transcript, tokens(term)) <= Occurrences(reference, tokens(term))
  }

  ghost predicate Spoken(transcript: seq<string>, phrase: seq<string>) {
    phrase != [] && exists k :: OccursAt(transcript, phrase, k)
  }

  function Greatest(x: int, y: int): int {
    if x < y then y else x
  }

  /** Which of the first `n` terms are spoken. */
  ghost function SpokenTerms(transcript: seq<string>, terms: seq<string>, tokens: Tokenizer, n: nat): set<nat>
    requires n <= |terms|
  {
    set k: nat | k < n && Spoken(transcript, tokens(terms[k]))
  }

  lemma {:induction false} TermsCounted(transcript: seq<string>, terms: seq<string>, tokens: Tokenizer, n: nat)
    requires n <= |terms|
    ensures TermsFound(transcript, terms[..n], tokens) == |SpokenTerms(transcript, terms, tokens, n)|
  {
    hide Spoken, Occurrences;
    if n > 0 {
      TermsCounted(transcript, terms, tokens, n - 1);
      PhraseSpoken(transcript, tokens(terms[n - 1]));
      assert Init(terms[..n]) == terms[..n - 1] && Last(terms[..n]) == terms[n - 1];
      var before := SpokenTerms(transcript, terms, tokens, n - 1);
      assert SpokenTerms(transcript, terms, tokens, n) ==
        if Spoken(transcript, tokens(terms[n - 1])) then before + {n - 1} else before;
    }
  }

  lemma PhraseSpoken(transcript: seq<string>, phrase: seq<string>)
    ensures Occurrences(transcript, phrase) > 0 <==> Spoken(transcript, phrase)
  {
    OccursSomewhere(transcript, phrase);
  }

  lemma {:induction false} AllTermsFound(transcript: seq<string>, terms: seq<string>, tokens: Tokenizer)
    ensures TermsFound(transcript, terms, tokens) <= |terms|
    ensures TermsFound(transcript, terms, tokens) == |terms| <==>
      forall term :: term in terms ==> Spoken(transcript, tokens(term))
  {
    if terms != [] {
      AllTermsFound(transcript, Init(terms), tokens);
      OccursSomewhere(transcript, tokens(Last(terms)));
      assert terms == Init(terms) + [Last(terms)];
    }
  }

  lemma RateWithinLimit(d: nat, n: nat)
    requires n > 0
    ensures d as real / n as real <= 0.15 <==> 20 * d <= 3 * n
  {
    var q := d as real / n as real;
    Quotient(d, n);
    Scaled(0.15 - q, n as real);
  }

  lemma Scaled(x: real, y: real)
    requires y > 0.0
    ensures x * y >= 0.0 <==> x >= 0.0
  {
  }

  /** Repeating the reference word for word passes as soon as it speaks the critical terms. */
  lemma FaithfulTranscriptPasses(reference: seq<string>, critical: seq<string>, prompted: seq<string>,
      tokens: Tokenizer)
    requires critical != [] && forall term :: term in critical ==> Spoken(reference, tokens(term))
    ensures Passes(reference, reference, critical, prompted, tokens)
  {
    ZeroMeansEqual(reference, reference);
  }

  // ----- Critical terms as substrings

  /** Words joined by single spaces. */
  function Joined(words: seq<string>): string {
    if words == [] then "" else if |words| == 1 then words[0] else Joined(Init(words)) + " " + Last(words)
  }

  /** Python `phrase in text`. */
  predicate Contains(text: string, phrase: string) {
    exists k :: 0 <= k <= |text| && OccursAt(text, phrase, k)
  }

  /** The words with a blank before, between and after them. */
  function Framed(words: seq<string>): (s: string)
    ensures s != "" && s[|s| - 1] == ' '
  {
    if words == [] then " " else Framed(Init(words)) + Last(words) + " "
  }

  lemma {:induction false} FramedIsJoined(words: seq<string>)
    requires words != []
    ensures Framed(words) == " " + Joined(words) + " "
  {
    if |words| > 1 {
      FramedIsJoined(Init(words));
      Regroup(" ", Joined(Init(words)) + " ", Last(words), " ");
      assert " " + (Joined(Init(words)) + " ") == " " + Joined(Init(words)) + " ";
    } else {
      assert Framed(Init(words)) == " " && Last(words) == words[0];
    }
  }

  lemma Regroup(x: string, y: string, z: string, end: string)
    ensures (x + y) + z + end == x + (y + z + end) == x + (y + z) + end
  {
  }

  lemma {:induction false} FramedAppend(a: seq<string>, b: seq<string>)
    ensures Framed(a + b) == Init(Framed(a)) + Framed(b)
  {
    if b == [] {
      assert a + b == a;
    } else {
      assert Init(a + b) == a + Init(b) && Last(a + b) == Last(b);
      FramedAppend(a, Init(b));
      Regroup(Init(Framed(a)), Framed(Init(b)), Last(b), " ");
    }
  }

  /** A phrase that occurs word for word occurs between blanks. */
  lemma SpokenIsFramed(text: seq<string>, phrase: seq<string>)
    requires Spoken(text, phrase)
    ensures Contains(Framed(text), Framed(phrase))
  {
    hide Framed;
    var k: nat :| OccursAt(text, phrase, k);
    var before, after := text[..k], text[k + |phrase|..];
    assert text == (before + phrase) + after;
    FramedAppend(before + phrase, after);
    FramedAppend(before, phrase);
    var left, right := Init(Framed(before)), Framed(after)[1..];
    FirstIsBlank(after);
    assert Framed(text) == left + Framed(phrase) + right;
    ContainsMiddle(left, Framed(phrase), right);
  }

  lemma {:induction false} FirstIsBlank(words: seq<string>)
    ensures Framed(words)[0] == ' '
  {
    if words != [] {
      FirstIsBlank(Init(words));
    }
  }

  lemma ContainsMiddle(before: string, middle: string, after: string)
    ensures Contains(before + middle + after, middle)
  {
    var text := before + middle + after;
    assert OccursAt(text, middle, |before|);
  }

  /** A phrase that occurs word for word also occurs as a substring of the joined words. */
  lemma OccurrenceIsSubstring(text: seq<string>, phrase: seq<string>)
    requires Spoken(text, phrase)
    ensures Contains(Joined(text), Joined(phrase))
  {
    hide Framed, Joined;
    SpokenIsFramed(text, phrase);
    FramedIsJoined(text);
    FramedIsJoined(phrase);
    Unframed(Joined(text), Joined(phrase));
  }

  lemma Unframed(text: string, phrase: string)
    requires Contains(" " + text + " ", " " + phrase + " ")
    ensures Contains(text, phrase)
  {
    var framed, inner, n := " " + text + " ", " " + phrase + " ", |phrase|;
    assert Contains(framed, inner);
    var k :| 0 <= k <= |framed| && OccursAt(framed, inner, k);
    assert |inner| == n + 2 && k + n <= |text|;
    forall i | 0 <= i < n ensures text[k + i] == phrase[i] {
      assert framed[k + 1 + i] == framed[k..k + |inner|][1 + i] == inner[1 + i];
    }
    assert text[k..k + n] == phrase;
    assert OccursAt(text, phrase, k);
  }

  // ----- When a substring is a spoken phrase

  /** What a tokenizer yields: words that are not empty and hold no blank. */
  predicate Clean(words: seq<string>) {
    forall w :: w in words ==> w != "" && ' ' !in w
  }

  /** A text can be cut at its last blank in one way only. */
  lemma LastBlank(x: string, a: string, y: string, b: string)
    requires ' ' !in a && ' ' !in b
    requires x != "" && x[|x| - 1] == ' ' && y != "" && y[|y| - 1] == ' '
    requires x + a == y + b
    ensures x == y && a == b
  {
    var t := x + a;
    assert t[|x| - 1] == ' ' && t[|y| - 1] == ' ';
    assert forall i :: |x| <= i < |t| ==> t[i] == a[i - |x|];
    assert forall i :: |y| <= i < |t| ==> t[i] == b[i - |y|];
    assert |x| == |y|;
    assert x == t[..|x|] && a == t[|x|..];
  }

  /** A text that ends with the framed phrase ends with the phrase. */
  lemma {:induction false} FramedSuffix(text: seq<string>, phrase: seq<string>, left: string)
    requires Clean(text) && Clean(phrase)
    requires Framed(text) == left + Framed(phrase)
    ensures |phrase| <= |text| && text[|text| - |phrase|..] == phrase
  {
    hide Framed;
    FramedLength(phrase);
    FramedLength(text);
    if phrase != [] {
      CleanParts(text);
      CleanParts(phrase);
      FramedParts(text);
      FramedParts(phrase);
      var t, p := Framed(Init(text)), Framed(Init(phrase));
      CutBlank(t, Last(text), left, p, Last(phrase));
      LastBlank(t, Last(text), left + p, Last(phrase));
      FramedSuffix(Init(text), Init(phrase), left);
      assert text == Init(text) + [Last(text)] && phrase == Init(phrase) + [Last(phrase)];
    }
  }

  lemma FramedParts(words: seq<string>)
    requires words != []
    ensures Framed(words) == Framed(Init(words)) + Last(words) + " "
  {
  }

  lemma CutBlank(x: string, a: string, left: string, y: string, b: string)
    requires x + a + " " == left + (y + b + " ")
    ensures x + a == (left + y) + b
  {
    Regroup(left, y, b, " ");
    assert Init(x + a + " ") == x + a && Init((left + y) + b + " ") == (left + y) + b;
  }

  lemma FramedLength(words: seq<string>)
    requires Clean(words)
    ensures words == [] ==> |Framed(words)| == 1
    ensures words != [] ==> |Framed(words)| > 2
  {
    if words != [] {
      CleanParts(words);
    }
  }

  lemma CleanParts(words: seq<string>)
    requires Clean(words) && words != []
    ensures Clean(Init(words)) && Last(words) != "" && ' ' !in Last(words)
  {
    assert forall w :: w in Init(words) ==> w in words;
    assert Last(words) in words;
  }

  /** A phrase that occurs between blanks occurs word for word. */
  lemma {:induction false} FramedIsSpoken(text: seq<string>, phrase: seq<string>, k: nat)
    requires Clean(text) && Clean(phrase) && phrase != []
    requires OccursAt(Framed(text), Framed(phrase), k)
    ensures Spoken(text, phrase)
  {
    hide Framed;
    if k + |Framed(phrase)| == |Framed(text)| {
      assert Framed(text) == Framed(text)[..k] + Framed(phrase);
      FramedSuffix(text, phrase, Framed(text)[..k]);
      assert OccursAt(text, phrase, |text| - |phrase|);
    } else {
      FramedEarlier(text, Framed(phrase), k);
      assert Clean(Init(text)) by {
        CleanParts(text);
      }
      FramedIsSpoken(Init(text), phrase, k);
      var j: nat :| OccursAt(Init(text), phrase, j);
      assert text[j..j + |phrase|] == Init(text)[j..j + |phrase|];
      assert OccursAt(text, phrase, j);
    }
  }

  /** What ends with a blank before the end of a framed text, ends before its last word. */
  lemma FramedEarlier(text: seq<string>, part: string, k: nat)
    requires Clean(text) && part != "" && part[|part| - 1] == ' '
    requires OccursAt(Framed(text), part, k) && k + |part| < |Framed(text)|
    ensures text != [] && OccursAt(Framed(Init(text)), part, k)
  {
    FramedLength(text);
    if text != [] {
      CleanParts(text);
      var framed, before, stop := Framed(text), Framed(Init(text)), k + |part|;
      assert framed == before + Last(text) + " ";
      assert framed[stop - 1] == part[|part| - 1];
      assert forall i :: |before| <= i < |framed| - 1 ==> framed[i] == Last(text)[i - |before|];
      assert stop <= |before|;
      assert before[k..stop] == framed[k..stop];
    }
  }

  /**
   * A phrase is spoken exactly when it occurs in the joined words between two blanks, counting the ends of the text.
   */
  lemma SpokenIff(text: seq<string>, phrase: seq<string>)
    requires Clean(text) && Clean(phrase)
    ensures Spoken(text, phrase) <==> phrase != [] && BetweenBlanks(text, phrase)
  {
    if Spoken(text, phrase) {
      SpokenIsFramed(text, phrase);
      FramedIsJoined(text);
      FramedIsJoined(phrase);
    }
    if phrase != [] && BetweenBlanks(text, phrase) {
      FramedIsJoined(phrase);
      FramedLength(phrase);
      FramedIsJoined(text);
      var k: nat :| OccursAt(Framed(text), Framed(phrase), k);
      FramedIsSpoken(text, phrase, k);
    }
  }

  predicate BetweenBlanks(text: seq<string>, phrase: seq<string>) {
    Contains(" " + Joined(text) + " ", " " + Joined(phrase) + " ")
  }

  /** The share of the critical terms that occur as substrings, when the reference has them all. */
  function CriticalTermAccuracy(reference: seq<string>, hypothesis: seq<string>, terms: seq<seq<string>>): real {
    if terms == [] || exists term :: term in terms && (Joined(term) == "" || !Contains(Joined(reference), Joined(term)))
    then 0.0
    else SubstringsFound(hypothesis, terms) as real / |terms| as real
  }

  function SubstringsFound(hypothesis: seq<string>, terms: seq<seq<string>>): nat {
    if terms == [] then 0
    else
      SubstringsFound(hypothesis, Init(terms)) + if Contains(Joined(hypothesis), Joined(Last(terms))) then 1 else 0
  }

  lemma {:induction false} AllSubstringsFound(hypothesis: seq<string>, terms: seq<seq<string>>)
    ensures SubstringsFound(hypothesis, terms) <= |terms|
    ensures SubstringsFound(hypothesis, terms) == |terms| <==>
      forall term :: term in terms ==> Contains(Joined(hypothesis), Joined(term))
  {
    hide Contains, Joined;
    if terms != [] {
      var before := SubstringsFound(hypothesis, Init(terms));
      AllSubstringsFound(hypothesis, Init(terms));
      assert terms == Init(terms) + [Last(terms)];
      if before < |Init(terms)| {
        var term :| term in Init(terms) && !Contains(Joined(hypothesis), Joined(term));
        assert term in terms;
      } else if Contains(Joined(hypothesis), Joined(Last(terms))) {
        forall term | term in terms ensures Contains(Joined(hypothesis), Joined(term)) {
          assert term in Init(terms) || term == Last(terms);
        }
      } else {
        assert Last(terms) in terms;
      }
    }
  }

  /** Full accuracy means that there are terms, and that each is a substring of both texts, and not blank. */
  lemma AccuracyMeaning(reference: seq<string>, hypothesis: seq<string>, terms: seq<seq<string>>)
    ensures CriticalTermAccuracy(reference, hypothesis, terms) == 1.0 <==>
      && terms != []
      && forall term :: term in terms ==>
           Joined(term) != "" && Contains(Joined(reference), Joined(term)) && Contains(Joined(hypothesis), Joined(term))
  {
    hide Contains, Joined;
    if terms != [] {
      AllSubstringsFound(hypothesis, terms);
      Quotient(SubstringsFound(hypothesis, terms), |terms|);
    }
  }

  /** Which of the first `n` terms are substrings of the hypothesis. */
  function HeldTerms(hypothesis: seq<string>, terms: seq<seq<string>>, n: nat): set<nat>
    requires n <= |terms|
  {
    set k: nat | k < n && Contains(Joined(hypothesis), Joined(terms[k]))
  }

  lemma {:induction false} TermsHeld(hypothesis: seq<string>, terms: seq<seq<string>>, n: nat)
    requires n <= |terms|
    ensures SubstringsFound(hypothesis, terms[..n]) == |HeldTerms(hypothesis, terms, n)|
  {
    hide Contains, Joined, HeldTerms;
    if n == 0 {
      NoneHeld(hypothesis, terms);
    } else {
      TermsHeld(hypothesis, terms, n - 1);
      OneMoreHeld(hypothesis, terms, n - 1);
      assert Init(terms[..n]) == terms[..n - 1] && Last(terms[..n]) == terms[n - 1];
    }
  }

  lemma NoneHeld(hypothesis: seq<string>, terms: seq<seq<string>>)
    ensures HeldTerms(hypothesis, terms, 0) == {}
  {
  }

  lemma OneMoreHeld(hypothesis: seq<string>, terms: seq<seq<string>>, n: nat)
    requires n < |terms|
    ensures |HeldTerms(hypothesis, terms, n + 1)| ==
      |HeldTerms(hypothesis, terms, n)| + if Contains(Joined(hypothesis), Joined(terms[n])) then 1 else 0
  {
    hide Contains, Joined;
    var before := HeldTerms(hypothesis, terms, n);
    assert HeldTerms(hypothesis, terms, n + 1) ==
      if Contains(Joined(hypothesis), Joined(terms[n])) then before + {n} else before;
  }

  /** The score is the share of the terms that the hypothesis holds, as long as the reference holds them all. */
  lemma AccuracyCounts(reference: seq<string>, hypothesis: seq<string>, terms: seq<seq<string>>)
    requires terms != []
    requires forall term :: term in terms ==> Joined(term) != "" && Contains(Joined(reference), Joined(term))
    ensures CriticalTermAccuracy(reference, hypothesis, terms) * |terms| as real ==
      |HeldTerms(hypothesis, terms, |terms|)| as real
  {
    hide Contains, Joined, HeldTerms, SubstringsFound;
    TermsHeld(hypothesis, terms, |terms|);
    assert terms[..|terms|] == terms;
    var found := SubstringsFound(hypothesis, terms);
    ShareOfTerms(reference, hypothesis, terms);
    Quotient(found, |terms|);
  }

  lemma ShareOfTerms(reference: seq<string>, hypothesis: seq<string>, terms: seq<seq<string>>)
    requires terms != []
    requires forall term :: term in terms ==> Joined(term) != "" && Contains(Joined(reference), Joined(term))
    ensures CriticalTermAccuracy(reference, hypothesis, terms) ==
      SubstringsFound(hypothesis, terms) as real / |terms| as real
  {
    hide Contains, Joined, SubstringsFound;
  }

  lemma NoAccuracy(reference: seq<string>, hypothesis: seq<string>, terms: seq<seq<string>>)
    requires terms == [] ||
      exists term :: term in terms && (Joined(term) == "" || !Contains(Joined(reference), Joined(term)))
    ensures CriticalTermAccuracy(reference, hypothesis, terms) == 0.0
  {
  }

  /** Terms spoken word for word in both texts score full accuracy. */
  lemma SpokenTermsAreAccurate(reference: seq<string>, hypothesis: seq<string>, terms: seq<seq<string>>)
    requires terms != []
    requires forall term :: term in terms ==> Spoken(reference, term) && Spoken(hypothesis, term) && Joined(term) != ""
    ensures CriticalTermAccuracy(reference, hypothesis, terms) == 1.0
  {
    hide Contains, Joined, CriticalTermAccuracy;
    AccuracyMeaning(reference, hypothesis, terms);
    forall term | term in terms
      ensures Contains(Joined(reference), Joined(term)) && Contains(Joined(hypothesis), Joined(term))
    {
      OccurrenceIsSubstring(reference, term);
      OccurrenceIsSubstring(hypothesis, term);
    }
  }

  /** The terms are spoken in both texts exactly when they score full accuracy and occur between blanks in both. */
  lemma SpokenTermsIff(reference: seq<string>, hypothesis: seq<string>, terms: seq<seq<string>>)
    requires Clean(reference) && Clean(hypothesis) && forall term :: term in terms ==> Clean(term)
    ensures (terms != [] && forall term :: term in terms ==> Spoken(reference, term) && Spoken(hypothesis, term)) <==>
      && CriticalTermAccuracy(reference, hypothesis, terms) == 1.0
      && forall term :: term in terms ==> BetweenBlanks(reference, term) && BetweenBlanks(hypothesis, term)
  {
    hide Contains, BetweenBlanks, Spoken, CriticalTermAccuracy;
    AccuracyMeaning(reference, hypothesis, terms);
    forall term | term in terms
      ensures Spoken(reference, term) <==> Joined(term) != "" && BetweenBlanks(reference, term)
      ensures Spoken(hypothesis, term) <==> Joined(term) != "" && BetweenBlanks(hypothesis, term)
      ensures Spoken(reference, term) ==> Contains(Joined(reference), Joined(term))
      ensures Spoken(hypothesis, term) ==> Contains(Joined(hypothesis), Joined(term))
    {
      SpokenIff(reference, term);
      SpokenIff(hypothesis, term);
      JoinedBlank(term);
      if Spoken(reference, term) {
        OccurrenceIsSubstring(reference, term);
      }
      if Spoken(hypothesis, term) {
        OccurrenceIsSubstring(hypothesis, term);
      }
    }
  }

  lemma JoinedBlank(words: seq<string>)
    requires Clean(words)
    ensures Joined(words) == "" <==> words == []
  {
    if words != [] {
      CleanParts(words);
    }
  }

  /** Full accuracy does not mean the term was spoken: part of another word is enough. */
  lemma AccurateIsNotSpoken()
    ensures
      var text, term := ["sales"], ["sale"];
      CriticalTermAccuracy(text, text, [term]) == 1.0 && !Spoken(text, term)
  {
    var text, term := ["sales"], ["sale"];
    assert Joined(text) == "sales" && Joined(term) == "sale";
    ContainsMiddle("", "sale", "s");
    assert "" + "sale" + "s" == "sales";
    AllSubstringsFound(text, [term]);
    Quotient(SubstringsFound(text, [term]), 1);
    assert |text[0]| == 5 && |term[0]| == 4;
    forall k: nat ensures !OccursAt(text, term, k) {
      assert k == 0 ==> text[k..k + 1] == text && text[0] != term[0];
    }
  }
}
