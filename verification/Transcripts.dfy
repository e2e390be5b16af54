// Provider transcripts: words with a timing claim, grouped in segments.
module Transcripts {
  import opened Wrappers
  import opened Rounding

  datatype Semantics = PositiveInterval | BoundaryPoint | DerivedInterval

  datatype ProviderWord = ProviderWord(
    start: real,
    end: real,
    text: string,
    confidence: Option<real>,
    semantics: Semantics)
  {
    /** What constructing a provider word checks: ordered nonnegative times, and a timing claim that fits them. */
    predicate WellFormed() {
      && 0.0 <= start <= end
      && (start == end <==> semantics.BoundaryPoint?)
    }

    function StartUs(): int {
      ToMicros(start)
    }

    function EndUs(): int {
      ToMicros(end)
    }

    /** The word still has a positive length once its times are whole microseconds. */
    predicate IsInterval() {
      StartUs() < EndUs()
    }
  }

  type Word = w: ProviderWord | w.WellFormed() witness ProviderWord(0.0, 0.0, "", None, BoundaryPoint)

  datatype Segment = Segment(
    start: real,
    end: real,
    text: string,
    speaker: Option<string>,
    confidence: Option<real>,
    words: seq<Word>)
  {
    function StartUs(): int {
      ToMicros(start)
    }

    function EndUs(): int {
      ToMicros(end)
    }
  }

  datatype Transcript = Transcript(
    language: string,
    confidence: Option<real>,
    segments: seq<Segment>,
    actualCostVnd: Option<real>)
}
