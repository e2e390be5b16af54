// The word loop of `assemblyai_transcription_provider.py`: millisecond payloads become one segment of provider
// intervals.
module AssemblyAi {
  import opened Wrappers
  import opened Rounding
  import opened Transcripts
  import opened Projection
  import opened ProjectionLaws
  import opened StrictGate

  datatype Confidence = NoConfidence | Number(value: real) | NotANumber

  /** An element of the provider's word list; a field is absent when it is missing or of another JSON type. */
  datatype Item =
    | NotAnObject
    | Item(startMs: Option<int>, endMs: Option<int>, text: Option<string>, confidence: Confidence)

  datatype AssemblyError =
    | CompleteResultIncomplete
    | WordsPayloadInvalid
    | WordIntervalInvalid
    | WordTimingNonMonotonic
    | WordTimingOutOfAudio
    | TranscriptWordCoverageInvalid

  predicate Shaped(item: Item) {
    item.Item? && item.startMs.Some? && item.endMs.Some? && item.text.Some? && item.text.value != ""
  }

  /** What is wrong with item `k`, when the items before it are fine. */
  function ItemFault(items: seq<Item>, k: nat, duration: real): Option<AssemblyError>
    requires k < |items|
  {
    if !Shaped(items[k]) then Some(WordsPayloadInvalid)
    else
      var start, end := items[k].startMs.value, items[k].endMs.value;
      if start < 0 || end <= start then Some(WordIntervalInvalid)
      else if k > 0 && Shaped(items[k - 1]) && start < items[k - 1].endMs.value then Some(WordTimingNonMonotonic)
      else if end > HalfEven(duration * 1000.0) + 1 then Some(WordTimingOutOfAudio)
      else if items[k].confidence.NotANumber? then Some(WordsPayloadInvalid)
      else None
  }

  predicate Faultless(items: seq<Item>, duration: real) {
    forall k :: 0 <= k < |items| ==> ItemFault(items, k, duration).None?
  }

  function Tokens(items: seq<Item>, lexical: string -> seq<string>): seq<string>
    requires forall k :: 0 <= k < |items| ==> Shaped(items[k])
  {
    if items == [] then []
    else
      assert Shaped(items[|items| - 1]);
      Tokens(items[..|items| - 1], lexical) + lexical(items[|items| - 1].text.value)
  }

  predicate Accepts(text: Option<string>, items: seq<Item>, duration: real, lexical: string -> seq<string>) {
    && text.Some? && text.value != "" && items != []
    && Faultless(items, duration)
    && (forall k :: 0 <= k < |items| ==> Shaped(items[k]))
    && Tokens(items, lexical) == lexical(text.value)
  }

  function WordOf(item: Item): ProviderWord
    requires Shaped(item)
  {
    ProviderWord(item.startMs.value as real / 1000.0, item.endMs.value as real / 1000.0, item.text.value,
      if item.confidence.Number? then Some(item.confidence.value) else None, PositiveInterval)
  }

  /** `seg` is the segment built from `items`: one provider interval an item, within the words' own bounds. */
  predicate IsSegmentOf(text: string, items: seq<Item>, seg: Segment) {
    && seg.text == text && seg.speaker.None? && seg.confidence.None?
    && items != [] && |seg.words| == |items|
    && (forall k :: 0 <= k < |items| ==> Shaped(items[k]) && seg.words[k] == WordOf(items[k]))
    && seg.start == seg.words[0].start
    && seg.end == seg.words[|items| - 1].end
  }

  method BuildSegment(text: Option<string>, items: seq<Item>, duration: real, lexical: string -> seq<string>)
    returns (r: Result<Segment, AssemblyError>)
    ensures r.Success? <==> Accepts(text, items, duration, lexical)
    ensures r.Success? <==>
      && text.Some? && text.value != "" && items != []
      && (forall k :: 0 <= k < |items| ==> Shaped(items[k]) && ItemFault(items, k, duration).None?)
      && Tokens(items, lexical) == lexical(text.value)
    ensures r.Success? ==> IsSegmentOf(text.value, items, r.value)
    ensures r.Failure? ==>
      || (r.error == CompleteResultIncomplete && (text.None? || text.value == "" || items == []))
      || (r.error == TranscriptWordCoverageInvalid && Faultless(items, duration))
      || exists k :: && 0 <= k < |items| && ItemFault(items, k, duration) == Some(r.error)
                     && forall i :: 0 <= i < k ==> ItemFault(items, i, duration).None?
  {
    hide ItemFault;
    if text.None? || text.value == "" || items == [] {
      return Failure(CompleteResultIncomplete);
    }
    var words: seq<Word> := [];
    var previousEnd := 0;
    for k := 0 to |items|
      invariant |words| == k
      invariant forall i :: 0 <= i < k ==>
        ItemFault(items, i, duration).None? && Shaped(items[i]) && words[i] == WordOf(items[i])
      invariant k > 0 ==> previousEnd == items[k - 1].endMs.value
    {
      var fault := CheckItem(items, k, previousEnd, duration);
      if fault.Some? {
        return Failure(fault.value);
      }
      words := words + [WordOf(items[k])];
      previousEnd := items[k].endMs.value;
    }
    if Tokens(items, lexical) != lexical(text.value) {
      return Failure(TranscriptWordCoverageInvalid);
    }
    r := Success(Segment(words[0].start, words[|words| - 1].end, text.value, None, None, words));
  }

  /** The checks of the loop body. */
  method CheckItem(items: seq<Item>, k: nat, previousEnd: int, duration: real) returns (fault: Option<AssemblyError>)
    requires k < |items|
    requires k > 0 ==> Shaped(items[k - 1]) && previousEnd == items[k - 1].endMs.value
    ensures fault == ItemFault(items, k, duration)
    ensures fault.None? ==> Shaped(items[k]) && WordOf(items[k]).WellFormed()
  {
    var item := items[k];
    if !Shaped(item) {
      return Some(WordsPayloadInvalid);
    }
    var start, end := item.startMs.value, item.endMs.value;
    if start < 0 || end <= start {
      return Some(WordIntervalInvalid);
    }
    if k > 0 && start < previousEnd {
      return Some(WordTimingNonMonotonic);
    }
    if end > HalfEven(duration * 1000.0) + 1 {
      return Some(WordTimingOutOfAudio);
    }
    if item.confidence.NotANumber? {
      return Some(WordsPayloadInvalid);
    }
    fault := None;
  }

  /** What the loop asks of every item, and which error a faulty one raises: the first check that fails. */
  lemma ItemFaultSpelledOut(items: seq<Item>, k: nat, duration: real)
    requires k < |items| && (k > 0 ==> Shaped(items[k - 1]))
    ensures
      var item := items[k];
      if item.NotAnObject? || item.startMs.None? || item.endMs.None? || item.text.None? || item.text.value == "" then
        ItemFault(items, k, duration) == Some(WordsPayloadInvalid)
      else if item.startMs.value < 0 || item.endMs.value <= item.startMs.value then
        ItemFault(items, k, duration) == Some(WordIntervalInvalid)
      else if k > 0 && item.startMs.value < items[k - 1].endMs.value then
        ItemFault(items, k, duration) == Some(WordTimingNonMonotonic)
      else if item.endMs.value > HalfEven(duration * 1000.0) + 1 then
        ItemFault(items, k, duration) == Some(WordTimingOutOfAudio)
      else if item.confidence.NotANumber? then ItemFault(items, k, duration) == Some(WordsPayloadInvalid)
      else ItemFault(items, k, duration).None?
  {
  }

  /** The words of an accepted segment are the items, in order, in seconds. */
  lemma SegmentSpelledOut(text: string, items: seq<Item>, seg: Segment, k: nat)
    requires IsSegmentOf(text, items, seg) && k < |items|
    ensures items[k].Item? && items[k].startMs.Some? && items[k].endMs.Some?
    ensures |seg.words| == |items| && seg.text == text
    ensures
      var w := seg.words[k];
      && w.start * 1000.0 == items[k].startMs.value as real && w.end * 1000.0 == items[k].endMs.value as real
      && Some(w.text) == items[k].text && w.semantics.PositiveInterval?
      && (w.confidence.Some? <==> items[k].confidence.Number?)
      && (w.confidence.Some? ==> w.confidence.value == items[k].confidence.value)
  {
  }

  /** The words' tokens are those of all their texts, in order. */
  lemma TokensInOrder(items: seq<Item>, item: Item, lexical: string -> seq<string>)
    requires (forall k :: 0 <= k < |items| ==> Shaped(items[k])) && Shaped(item)
    ensures Tokens([], lexical) == []
    ensures Tokens(items + [item], lexical) == Tokens(items, lexical) + lexical(item.text.value)
  {
    assert (items + [item])[..|items|] == items;
  }

  lemma MillisecondsAreExact(ms: int)
    requires ms >= 0
    ensures ToMicros(ms as real / 1000.0) == 1000 * ms
  {
    RoundTrip(1000 * ms);
    assert ms as real / 1000.0 == ToSeconds(1000 * ms);
  }

  lemma {:induction false} LaterEnds(items: seq<Item>, duration: real, i: nat, j: nat)
    requires Faultless(items, duration) && i <= j < |items|
    ensures Shaped(items[i]) && Shaped(items[j])
    ensures items[i].endMs.value <= items[j].endMs.value
    decreases j - i
  {
    assert ItemFault(items, j, duration).None?;
    if i < j {
      LaterEnds(items, duration, i, j - 1);
    }
  }

  /**
   * Every segment the provider's loop accepts passes the strict gate, and is a fixed point of the projection: its
   * times are exact microseconds already in order.
   */
  lemma AcceptedIsStrictAndFixed(
      text: Option<string>, items: seq<Item>, duration: real, lexical: string -> seq<string>,
      seg: Segment, out: Segment)
    requires Accepts(text, items, duration, lexical) && IsSegmentOf(text.value, items, seg)
    ensures Strict(seg)
    ensures Partitionable(seg) && Enclosing(seg)
    ensures IsProjection(seg, out) <==> out == seg
  {
    var n := |items|;
    forall j | 0 <= j < n
      ensures seg.words[j].StartUs() == 1000 * items[j].startMs.value
      ensures seg.words[j].EndUs() == 1000 * items[j].endMs.value
      ensures 0 <= items[j].startMs.value < items[j].endMs.value
    {
      assert ItemFault(items, j, duration).None?;
      MillisecondsAreExact(items[j].startMs.value);
      MillisecondsAreExact(items[j].endMs.value);
    }
    forall j | 0 <= j < n ensures InOrder(seg, j) && seg.words[j].EndUs() <= seg.EndUs() {
      assert ItemFault(items, j, duration).None?;
      LaterEnds(items, duration, j, n - 1);
    }
    LaterEnds(items, duration, 0, n - 1);
    SequentialIsFixed(seg, out);
    forall j | 0 <= j < n ensures StrictWord(seg, j) {
      ProjectableWordIsStrict(seg, j);
    }
  }
}
