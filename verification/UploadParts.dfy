// The parts of a chunked upload (`auto_edit_service.py`, `auto_edit_repository.py`): their sizes, the list of those
// received, and the file they are assembled into.
module UploadParts {
  import opened Arithmetic
  import opened Wrappers

  type Bytes = seq<bv8>

  // ----- Sizes

  /** `ceil(size / partSize)`. */
  function TotalParts(size: nat, partSize: nat): nat
    requires partSize > 0
  {
    (size + partSize - 1) / partSize
  }

  /** The size that part `n` of `1..total` must have. */
  function ExpectedSize(size: nat, partSize: nat, n: nat): int
    requires partSize > 0
  {
    if n < TotalParts(size, partSize) then partSize else size - partSize * (TotalParts(size, partSize) - 1)
  }

  function SizeUpTo(size: nat, partSize: nat, n: nat): int
    requires partSize > 0
  {
    if n == 0 then 0 else SizeUpTo(size, partSize, n - 1) + ExpectedSize(size, partSize, n)
  }

  lemma TotalPartsBounds(size: nat, partSize: nat)
    requires size > 0 && partSize > 0
    ensures 1 <= TotalParts(size, partSize)
    ensures partSize * (TotalParts(size, partSize) - 1) < size <= partSize * TotalParts(size, partSize)
  {
    var q := TotalParts(size, partSize);
    var x := size + partSize - 1;
    assert x == partSize * q + x % partSize;
    assert partSize * (q - 1) == partSize * q - partSize;
    Scaled(partSize, q, 0);
  }

  /** Every part holds between one byte and the part size, and together they hold the file. */
  lemma {:induction false} PartSizesTile(size: nat, partSize: nat, n: nat)
    requires size > 0 && partSize > 0 && n <= TotalParts(size, partSize)
    ensures n > 0 ==> 1 <= ExpectedSize(size, partSize, n) <= partSize
    ensures SizeUpTo(size, partSize, n) == if n == TotalParts(size, partSize) then size else partSize * n
  {
    TotalPartsBounds(size, partSize);
    if n > 0 {
      PartSizesTile(size, partSize, n - 1);
      assert partSize * n == partSize * (n - 1) + partSize;
    }
  }

  // ----- The list of received parts

  datatype Part = Part(number: nat, size: nat, checksum: string)

  predicate Increasing(parts: seq<Part>) {
    forall i, j :: 0 <= i < j < |parts| ==> parts[i].number < parts[j].number
  }

  function Without(parts: seq<Part>, number: nat): (kept: seq<Part>)
    ensures forall p :: p in kept <==> p in parts && p.number != number
  {
    if parts == [] then []
    else Without(parts[..|parts| - 1], number) + if parts[|parts| - 1].number == number
      then [] else [parts[|parts| - 1]]
  }

  /** Sorting by part number. */
  function Sorted(parts: seq<Part>): (sorted: seq<Part>)
    ensures multiset(sorted) == multiset(parts)
  {
    if parts == [] then []
    else
      assert parts == parts[..|parts| - 1] + [parts[|parts| - 1]];
      Inserted(Sorted(parts[..|parts| - 1]), parts[|parts| - 1])
  }

  function Inserted(parts: seq<Part>, p: Part): (r: seq<Part>)
    ensures multiset(r) == multiset(parts) + multiset{p}
  {
    if parts == [] || parts[|parts| - 1].number <= p.number then parts + [p]
    else
      assert parts == parts[..|parts| - 1] + [parts[|parts| - 1]];
      Inserted(parts[..|parts| - 1], p) + [parts[|parts| - 1]]
  }

  /** What `record_part` leaves: the part replaces any earlier one with its number. */
  function Recorded(parts: seq<Part>, p: Part): seq<Part> {
    Sorted(Without(parts, p.number) + [p])
  }

  function ReceivedBytes(parts: seq<Part>): nat {
    if parts == [] then 0 else ReceivedBytes(parts[..|parts| - 1]) + parts[|parts| - 1].size
  }

  lemma {:induction false} WithoutIncreasing(parts: seq<Part>, number: nat)
    requires Increasing(parts)
    ensures Increasing(Without(parts, number))
  {
    if parts != [] {
      var before := parts[..|parts| - 1];
      WithoutIncreasing(before, number);
      assert forall p :: p in Without(before, number) ==> p in before && p.number < parts[|parts| - 1].number;
    }
  }

  lemma {:induction false} InsertedIncreasing(parts: seq<Part>, p: Part)
    requires Increasing(parts) && forall q :: q in parts ==> q.number != p.number
    ensures Increasing(Inserted(parts, p))
    ensures forall q :: q in Inserted(parts, p) <==> q == p || q in parts
  {
    if parts != [] {
      var before, last := parts[..|parts| - 1], parts[|parts| - 1];
      assert parts == before + [last] && last in parts;
      assert forall q :: q in parts <==> q in before || q == last;
      if last.number > p.number {
        InsertedIncreasing(before, p);
        BeforeLast(parts);
        Appended(Inserted(before, p), last);
      } else {
        BeforeLast(parts);
        Appended(parts, p);
      }
    }
  }

  lemma BeforeLast(parts: seq<Part>)
    requires Increasing(parts) && parts != []
    ensures forall q :: q in parts[..|parts| - 1] ==> q.number < parts[|parts| - 1].number
  {
  }

  lemma Appended(parts: seq<Part>, last: Part)
    requires Increasing(parts) && forall q :: q in parts ==> q.number < last.number
    ensures Increasing(parts + [last])
  {
  }

  lemma WithoutLast(parts: seq<Part>)
    requires Increasing(parts) && parts != []
    ensures
      var before, last := parts[..|parts| - 1], parts[|parts| - 1];
      && parts == before + [last] && Increasing(before)
      && (before != [] ==> before[|before| - 1].number <= last.number)
  {
  }

  lemma {:induction false} SortedIncreasing(parts: seq<Part>)
    requires Increasing(parts)
    ensures Sorted(parts) == parts
  {
    hide Inserted, Increasing;
    if parts != [] {
      WithoutLast(parts);
      SortedIncreasing(parts[..|parts| - 1]);
      InsertedLast(parts[..|parts| - 1], parts[|parts| - 1]);
    }
  }

  lemma InsertedLast(parts: seq<Part>, p: Part)
    requires parts != [] ==> parts[|parts| - 1].number <= p.number
    ensures Inserted(parts, p) == parts + [p]
  {
  }

  /**
   * Whatever the order of the parts and however often one is sent again, the list stays sorted, without duplicates,
   * and holds exactly the last part recorded for every number.
   */
  lemma RecordedParts(parts: seq<Part>, p: Part)
    requires Increasing(parts)
    ensures Increasing(Recorded(parts, p))
    ensures forall q :: q in Recorded(parts, p) <==> q == p || (q in parts && q.number != p.number)
  {
    var kept := Without(parts, p.number);
    WithoutIncreasing(parts, p.number);
    SortedIncreasing(kept);
    assert (kept + [p])[..|kept + [p]| - 1] == kept;
    InsertedIncreasing(kept, p);
  }

  // ----- When everything is in

  predicate Fits(parts: seq<Part>, size: nat, partSize: nat)
    requires partSize > 0
  {
    forall p :: p in parts ==>
      1 <= p.number <= TotalParts(size, partSize) && p.size == ExpectedSize(size, partSize, p.number)
  }

  predicate Has(parts: seq<Part>, number: nat) {
    exists p :: p in parts && p.number == number
  }

  /** The bytes of the parts among `1..n` that have not been received. */
  function Missing(parts: seq<Part>, size: nat, partSize: nat, n: nat): int
    requires partSize > 0
  {
    if n == 0 then 0
    else Missing(parts, size, partSize, n - 1) + if Has(parts, n) then 0 else ExpectedSize(size, partSize, n)
  }

  lemma {:induction false} MissingMeaning(parts: seq<Part>, size: nat, partSize: nat, n: nat)
    requires size > 0 && partSize > 0 && n <= TotalParts(size, partSize)
    ensures Missing(parts, size, partSize, n) >= 0
    ensures Missing(parts, size, partSize, n) == 0 <==> forall k :: 1 <= k <= n ==> Has(parts, k)
  {
    if n > 0 {
      MissingMeaning(parts, size, partSize, n - 1);
      PartSizesTile(size, partSize, n);
    }
  }

  lemma {:induction false} MissingOneLess(parts: seq<Part>, last: Part, size: nat, partSize: nat, n: nat)
    requires partSize > 0 && n < last.number
    ensures Missing(parts + [last], size, partSize, n) == Missing(parts, size, partSize, n)
  {
    if n > 0 {
      MissingOneLess(parts, last, size, partSize, n - 1);
      assert Has(parts + [last], n) <==> Has(parts, n);
    }
  }

  predicate UpTo(parts: seq<Part>, n: nat) {
    forall p :: p in parts ==> 1 <= p.number <= n
  }

  lemma UpToOneLess(parts: seq<Part>, n: nat)
    requires Increasing(parts) && UpTo(parts, n) && n > 0
    ensures parts != [] && parts[|parts| - 1].number == n ==> UpTo(parts[..|parts| - 1], n - 1) && Has(parts, n)
    ensures parts == [] || parts[|parts| - 1].number != n ==> UpTo(parts, n - 1) && !Has(parts, n)
  {
    if parts != [] {
      BeforeLast(parts);
      var before, last := parts[..|parts| - 1], parts[|parts| - 1];
      assert parts == before + [last] && last in parts;
      assert forall p :: p in parts <==> p in before || p == last;
    }
  }

  lemma {:induction false} ReceivedAndMissing(parts: seq<Part>, size: nat, partSize: nat, n: nat)
    requires size > 0 && partSize > 0 && n <= TotalParts(size, partSize)
    requires Increasing(parts) && Fits(parts, size, partSize) && UpTo(parts, n)
    ensures ReceivedBytes(parts) + Missing(parts, size, partSize, n) == SizeUpTo(size, partSize, n)
  {
    hide TotalParts, ExpectedSize, UpTo, Has, Increasing, Fits;
    if n == 0 {
      if parts != [] {
        SomethingAboveZero(parts);
      }
    } else {
      UpToOneLess(parts, n);
      if parts != [] && parts[|parts| - 1].number == n {
        var before, last := parts[..|parts| - 1], parts[|parts| - 1];
        WithoutLast(parts);
        FitsWithoutLast(parts, size, partSize);
        ReceivedAndMissing(before, size, partSize, n - 1);
        MissingOneLess(before, last, size, partSize, n - 1);
      } else {
        ReceivedAndMissing(parts, size, partSize, n - 1);
      }
    }
  }

  lemma FitsWithoutLast(parts: seq<Part>, size: nat, partSize: nat)
    requires partSize > 0 && Fits(parts, size, partSize) && parts != []
    ensures Fits(parts[..|parts| - 1], size, partSize)
    ensures parts[|parts| - 1].size == ExpectedSize(size, partSize, parts[|parts| - 1].number)
  {
    assert parts[|parts| - 1] in parts;
  }

  lemma SomethingAboveZero(parts: seq<Part>)
    requires parts != []
    ensures !UpTo(parts, 0)
  {
    assert parts[0] in parts;
  }

  /** As many bytes as the file has have been received exactly when every part has. */
  lemma AllBytesMeansAllParts(parts: seq<Part>, size: nat, partSize: nat)
    requires size > 0 && partSize > 0 && Increasing(parts) && Fits(parts, size, partSize)
    ensures ReceivedBytes(parts) <= size
    ensures ReceivedBytes(parts) == size <==> forall k :: 1 <= k <= TotalParts(size, partSize) ==> Has(parts, k)
  {
    var n := TotalParts(size, partSize);
    ReceivedAndMissing(parts, size, partSize, n);
    MissingMeaning(parts, size, partSize, n);
    PartSizesTile(size, partSize, n);
  }

  // ----- Bodies and assembly

  function Concat(pieces: seq<Bytes>): Bytes {
    if pieces == [] then [] else Concat(pieces[..|pieces| - 1]) + pieces[|pieces| - 1]
  }

  /** Reads the body of a part, chunk by chunk, and gives up as soon as it is too long. */
  method ReadPart(chunks: seq<Bytes>, expectedSize: int, maxPartSize: nat) returns (body: Option<Bytes>)
    ensures body.Some? <==> |Concat(chunks)| == expectedSize && expectedSize <= maxPartSize
    ensures body.Some? ==> body.value == Concat(chunks)
  {
    var written: Bytes := [];
    for i := 0 to |chunks|
      invariant written == Concat(chunks[..i])
      invariant |written| == 0 || (|written| <= expectedSize && |written| <= maxPartSize)
    {
      assert chunks[..i + 1][..i] == chunks[..i];
      if chunks[i] != [] {
        if |written| + |chunks[i]| > expectedSize || |written| + |chunks[i]| > maxPartSize {
          ConcatGrows(chunks, i + 1);
          return None;
        }
        written := written + chunks[i];
      }
    }
    assert chunks[..|chunks|] == chunks;
    body := if |written| == expectedSize then Some(written) else None;
  }

  lemma {:induction false} ConcatGrows(pieces: seq<Bytes>, i: nat)
    requires i <= |pieces|
    ensures |Concat(pieces[..i])| <= |Concat(pieces)|
    decreases |pieces|
  {
    if i == |pieces| {
      assert pieces[..i] == pieces;
    } else {
      assert pieces[..|pieces| - 1][..i] == pieces[..i];
      ConcatGrows(pieces[..|pieces| - 1], i);
    }
  }

  const CHUNK: nat := 1024 * 1024

  /** Copies the part files one after the other, a chunk at a time, counting the bytes. */
  method Assemble(files: seq<Bytes>) returns (output: Bytes, size: nat)
    ensures output == Concat(files) && size == |output|
  {
    output, size := [], 0;
    for i := 0 to |files|
      invariant output == Concat(files[..i]) && size == |output|
    {
      var read := 0;
      ghost var before := output;
      while read < |files[i]|
        invariant 0 <= read <= |files[i]|
        invariant output == before + files[i][..read] && size == |output|
      {
        var next := if read + CHUNK < |files[i]| then read + CHUNK else |files[i]|;
        output := output + files[i][read..next];
        size := size + (next - read);
        assert files[i][..read] + files[i][read..next] == files[i][..next];
        read := next;
      }
      assert files[i][..read] == files[i] && files[..i + 1][..i] == files[..i];
    }
    assert files[..|files|] == files;
  }

  /** The files of the parts `1..n`. */
  function Files(staged: map<nat, Bytes>, n: nat): seq<Bytes>
    requires forall k :: 1 <= k <= n ==> k in staged
  {
    if n == 0 then [] else Files(staged, n - 1) + [staged[n]]
  }

  predicate StagedFits(staged: map<nat, Bytes>, size: nat, partSize: nat)
    requires partSize > 0
  {
    forall k :: k in staged ==> 1 <= k <= TotalParts(size, partSize) && |staged[k]| == ExpectedSize(size, partSize, k)
  }

  /** Files of the expected sizes always assemble to as many bytes as were announced. */
  lemma {:induction false} AssembledSize(staged: map<nat, Bytes>, size: nat, partSize: nat, n: nat)
    requires size > 0 && partSize > 0 && n <= TotalParts(size, partSize)
    requires StagedFits(staged, size, partSize) && forall k :: 1 <= k <= n ==> k in staged
    ensures |Concat(Files(staged, n))| == SizeUpTo(size, partSize, n)
    ensures n == TotalParts(size, partSize) ==> |Concat(Files(staged, n))| == size
  {
    PartSizesTile(size, partSize, n);
    if n > 0 {
      AssembledSize(staged, size, partSize, n - 1);
      var files := Files(staged, n);
      assert files[..|files| - 1] == Files(staged, n - 1);
    }
  }

  /** The piece of the file that the client sends as part `n`. */
  function Piece(file: Bytes, partSize: nat, n: nat): Bytes
    requires file != [] && partSize > 0 && 1 <= n <= TotalParts(|file|, partSize)
  {
    PieceBounds(|file|, partSize, n);
    file[SizeUpTo(|file|, partSize, n - 1)..SizeUpTo(|file|, partSize, n)]
  }

  lemma PieceBounds(size: nat, partSize: nat, n: nat)
    requires size > 0 && partSize > 0 && 1 <= n <= TotalParts(size, partSize)
    ensures 0 <= SizeUpTo(size, partSize, n - 1) < SizeUpTo(size, partSize, n) <= size
    ensures SizeUpTo(size, partSize, n) - SizeUpTo(size, partSize, n - 1) == ExpectedSize(size, partSize, n)
  {
    var total := TotalParts(size, partSize);
    TotalPartsBounds(size, partSize);
    PartSizesTile(size, partSize, n - 1);
    PartSizesTile(size, partSize, n);
    Scaled(partSize, n - 1, 0);
    Scaled(partSize, n, total - 1);
  }

  /** Cutting a file and assembling its pieces gives the file back. */
  lemma {:induction false} PiecesAssemble(file: Bytes, partSize: nat, staged: map<nat, Bytes>, n: nat)
    requires file != [] && partSize > 0 && n <= TotalParts(|file|, partSize)
    requires forall k :: 1 <= k <= TotalParts(|file|, partSize) ==> k in staged && staged[k] == Piece(file, partSize, k)
    ensures 0 <= SizeUpTo(|file|, partSize, n) <= |file|
    ensures Concat(Files(staged, n)) == file[..SizeUpTo(|file|, partSize, n)]
    ensures n == TotalParts(|file|, partSize) ==> Concat(Files(staged, n)) == file
  {
    hide TotalParts, ExpectedSize;
    if n > 0 {
      PiecesAssemble(file, partSize, staged, n - 1);
      PieceBounds(|file|, partSize, n);
      PartSizesTile(|file|, partSize, n);
      var files := Files(staged, n);
      assert files[..|files| - 1] == Files(staged, n - 1);
      var from, to := SizeUpTo(|file|, partSize, n - 1), SizeUpTo(|file|, partSize, n);
      assert file[..to] == file[..from] + file[from..to];
    } else {
      TotalPartsBounds(|file|, partSize);
    }
  }
}
