// The upload calls themselves (`auto_edit_service.py`, `UploadService`), when nothing stops them: each is a run of the
// steps in `UploadRuns`, and they say exactly when an upload becomes an asset.
module UploadService {
  import opened Wrappers
  import opened UploadParts
  import opened UploadRuns

  /** What the collaborators of `complete` answer, and the checksum that the caller expects. */
  datatype Answers = Answers(
    expected: Option<string>,
    archive: bool,                   // the assembled file is an archive container
    verdict: Verdict,                // the malware scanner; `ScanError` also when it raises
    mediaValid: bool,
    duplicate: Option<AssetId>,      // an asset of the project with the same bytes
    stored: Option<AssetId>)         // the asset registered for the stored object; `None` when that raises

  datatype UploadError =
    | UploadConflict | UploadSize | UnsafeMediaRejected | MediaScanUnavailable | MediaInvalid | StorageFailed
    | MissingEvidence

  datatype Completion = Completion(asset: AssetId, duplicate: bool)

  /** The file has the checksum the caller gives, or else the one announced at first, if there is any. */
  predicate ChecksumFits(u: Upload, a: Answers, h: string) {
    if a.expected.Some? then h == a.expected.value else u.expectedChecksum.None? || h == u.expectedChecksum.value
  }

  /** The body is accepted as part `n`. */
  predicate TakesPart(u: Upload, n: nat, body: Bytes, maxPartSize: nat, expected: Option<string>, hash: Bytes -> string)
    requires u.Sized()
  {
    && u.AcceptsParts()
    && 1 <= n <= TotalParts(u.size, u.partSize)
    && |body| == ExpectedSize(u.size, u.partSize, n) <= maxPartSize
    && (expected.Some? ==> hash(body) == expected.value)
  }

  /** The file that the staged parts of a complete upload make. */
  function Assembly(u: Upload, staged: map<nat, Bytes>): Bytes
    requires u.Sized() && Complete(u, staged)
  {
    Concat(Files(staged, TotalParts(u.size, u.partSize)))
  }

  /** The row after `complete`. */
  function Concluded(u: Upload, staged: map<nat, Bytes>, a: Answers, hash: Bytes -> string): Upload
    requires u.Sized()
  {
    if !u.AcceptsParts() || !Complete(u, staged) then u
    else
      var bytes := Assembly(u, staged);
      if |bytes| != u.size then MarkFailed(u, "UPLOAD_SIZE_MISMATCH")
      else if !ChecksumFits(u, a, hash(bytes)) then MarkFailed(u, "UPLOAD_CHECKSUM_MISMATCH")
      else
        var verdict := if a.archive then RejectedByPolicy else a.verdict;
        var scanned := RecordScan(MarkQuarantined(u), Scan(verdict, hash(bytes)));
        if a.archive || !a.verdict.Clean? then scanned
        else if !a.mediaValid then MarkFailed(scanned, "MEDIA_VALIDATION_FAILED")
        else if a.duplicate.Some? then Finish(scanned, a.duplicate.value, a.duplicate)
        else if a.stored.None? then MarkFailed(scanned, "STORAGE_PERSISTENCE_FAILED")
        else Finish(scanned, a.stored.value, None)
  }

  /**
   * What the caller is told, going by the error code in the row. A scanner that rejects the file for a reason of its
   * own, without calling it infected, is reported as unavailable, although the row is then rejected.
   */
  function ErrorFor(code: Option<string>, a: Answers): UploadError {
    if code == Some("UNSAFE_MEDIA_REJECTED") then
      if a.archive || a.verdict.Infected? then UnsafeMediaRejected else MediaScanUnavailable
    else if code == Some("MEDIA_SCAN_UNAVAILABLE") then MediaScanUnavailable
    else if code == Some("MEDIA_VALIDATION_FAILED") then MediaInvalid
    else if code == Some("STORAGE_PERSISTENCE_FAILED") then StorageFailed
    else UploadConflict
  }

  class UploadService {
    const repository: UploadRepository
    const hash: Bytes -> string
    const maxPartSize: nat
    var folder: map<nat, Bytes>      // the part files

    constructor (repository: UploadRepository, hash: Bytes -> string, maxPartSize: nat)
      ensures this.repository == repository && this.hash == hash && this.maxPartSize == maxPartSize && folder == map[]
    {
      this.repository, this.hash, this.maxPartSize, folder := repository, hash, maxPartSize, map[];
    }

    method StorePart(n: nat, chunks: seq<Bytes>, expected: Option<string>) returns (result: Result<Upload, UploadError>)
      requires repository.row.Sized()
      modifies this, repository
      ensures result.Success? <==> TakesPart(old(repository.row), n, Concat(chunks), maxPartSize, expected, hash)
      ensures result.Success? <==>
        var u, body := old(repository.row), Concat(chunks);
        && (u.status.Initialized? || u.status.Uploading?)
        && 1 <= n <= TotalParts(u.size, u.partSize)
        && |body| == ExpectedSize(u.size, u.partSize, n) && |body| <= maxPartSize
        && (expected.Some? ==> hash(body) == expected.value)
      ensures result.Success? ==>
        && result.value == repository.row
        && repository.row == RecordPart(old(repository.row), Part(n, |Concat(chunks)|, hash(Concat(chunks))))
        && folder == old(folder)[n := Concat(chunks)]
      ensures result.Failure? ==>
        && repository.row == old(repository.row) && folder == old(folder)
        && var u := repository.row;
           result.error ==
             if u.AcceptsParts()
                && !(1 <= n <= TotalParts(u.size, u.partSize)
                     && |Concat(chunks)| == ExpectedSize(u.size, u.partSize, n) <= maxPartSize)
             then UploadSize else UploadConflict
    {
      var u := repository.row;
      if !u.AcceptsParts() {
        return Failure(UploadConflict);
      }
      if n < 1 || n > TotalParts(u.size, u.partSize) {
        return Failure(UploadSize);
      }
      var body := ReadPart(chunks, ExpectedSize(u.size, u.partSize, n), maxPartSize);
      if body.None? {
        return Failure(UploadSize);
      }
      if expected.Some? && hash(body.value) != expected.value {
        return Failure(UploadConflict);
      }
      folder := folder[n := body.value];
      var ok := repository.RecordPartRow(Part(n, |body.value|, hash(body.value)));
      result := Success(repository.row);
    }

    /** A call on an upload that is already completed replays its asset and writes nothing. */
    method CompleteUpload(a: Answers) returns (result: Result<Completion, UploadError>)
      requires repository.row.Sized()
      modifies repository
      ensures repository.row == Concluded(old(repository.row), folder, a, hash)
      ensures result.Success? <==>
        (repository.row.status.Completed? || repository.row.status.CompletedDuplicate?) && repository.row.asset.Some?
      ensures result.Success? ==>
        result.value == Completion(repository.row.asset.value, repository.row.status.CompletedDuplicate?)
      ensures result.Failure? ==>
        var u := old(repository.row);
        result.error ==
          if u.status.Completed? || u.status.CompletedDuplicate? then MissingEvidence
          else if !u.AcceptsParts() || !Complete(u, folder) then UploadConflict
          else ErrorFor(repository.row.error, a)
    {
      var u := repository.row;
      if u.status.Completed? || u.status.CompletedDuplicate? {
        return if u.asset.None? then Failure(MissingEvidence)
               else Success(Completion(u.asset.value, u.status.CompletedDuplicate?));
      }
      if !u.AcceptsParts() || !Complete(u, folder) {
        return Failure(UploadConflict);
      }
      var bytes, size := Assemble(Files(folder, TotalParts(u.size, u.partSize)));
      if size != u.size {
        repository.MarkUploadFailed("UPLOAD_SIZE_MISMATCH");
        return Failure(UploadConflict);
      }
      var wanted := if a.expected.Some? then a.expected else u.expectedChecksum;
      if wanted.Some? && hash(bytes) != wanted.value {
        repository.MarkUploadFailed("UPLOAD_CHECKSUM_MISMATCH");
        return Failure(UploadConflict);
      }
      result := Promote(bytes, a);
    }

    /** From quarantine on. */
    method Promote(bytes: Bytes, a: Answers) returns (result: Result<Completion, UploadError>)
      requires repository.row.Sized() && repository.row.AcceptsParts() && Complete(repository.row, folder)
      requires bytes == Assembly(repository.row, folder) && |bytes| == repository.row.size
      requires ChecksumFits(repository.row, a, hash(bytes))
      modifies repository
      ensures repository.row == Concluded(old(repository.row), folder, a, hash)
      ensures result.Success? <==> repository.row.status.Completed? || repository.row.status.CompletedDuplicate?
      ensures result.Success? ==>
        && repository.row.asset.Some?
        && result.value == Completion(repository.row.asset.value, repository.row.status.CompletedDuplicate?)
      ensures result.Failure? ==> result.error == ErrorFor(repository.row.error, a)
    {
      hide Complete, Files, Concat, TotalParts, ReceivedBytes;
      var ok := repository.MarkUploadQuarantined();
      ok := repository.RecordUploadScan(Scan(if a.archive then RejectedByPolicy else a.verdict, hash(bytes)));
      if a.archive || a.verdict.Infected? {
        return Failure(UnsafeMediaRejected);
      }
      if !a.verdict.Clean? {
        return Failure(MediaScanUnavailable);
      }
      if !a.mediaValid {
        repository.MarkUploadFailed("MEDIA_VALIDATION_FAILED");
        return Failure(MediaInvalid);
      }
      if a.duplicate.Some? {
        ok := repository.FinishUpload(a.duplicate.value, a.duplicate);
        return Success(Completion(a.duplicate.value, true));
      }
      if a.stored.None? {
        repository.MarkUploadFailed("STORAGE_PERSISTENCE_FAILED");
        return Failure(StorageFailed);
      }
      ok := repository.FinishUpload(a.stored.value, None);
      result := Success(Completion(a.stored.value, false));
    }
  }

  /**
   * What `complete` leaves and answers, spelled out: `u` is the row before, `end` the row after, and the error is told
   * when there is no asset.
   */
  lemma ConcludedSpelledOut(u: Upload, staged: map<nat, Bytes>, a: Answers, hash: Bytes -> string)
    requires u.Sized()
    ensures
      var end := Concluded(u, staged, a, hash);
      var error := ErrorFor(end.error, a);
      if !((u.status.Initialized? || u.status.Uploading?) && Complete(u, staged)) then end == u
      else
        var bytes := Concat(Files(staged, TotalParts(u.size, u.partSize)));
        var verdict := if a.archive then RejectedByPolicy else a.verdict;
        var scanned := u.(status := Quarantined, scan := Some(Scan(verdict, hash(bytes))));
        var trusted := scanned.(quarantine := Trusted, trustedAt := true);
        if |bytes| != u.size then
          end == u.(status := Failed, error := Some("UPLOAD_SIZE_MISMATCH")) && error == UploadConflict
        else if (a.expected.Some? && hash(bytes) != a.expected.value)
                || (a.expected.None? && u.expectedChecksum.Some? && hash(bytes) != u.expectedChecksum.value) then
          end == u.(status := Failed, error := Some("UPLOAD_CHECKSUM_MISMATCH")) && error == UploadConflict
        else if a.archive || a.verdict.Infected? then
          && end == scanned.(quarantine := Refused, status := Rejected, error := Some("UNSAFE_MEDIA_REJECTED"))
          && error == UnsafeMediaRejected
        else if a.verdict.RejectedByPolicy? then
          && end == scanned.(quarantine := Refused, status := Rejected, error := Some("UNSAFE_MEDIA_REJECTED"))
          && error == MediaScanUnavailable
        else if a.verdict.ScanError? then
          && end == scanned.(quarantine := InQuarantine, error := Some("MEDIA_SCAN_UNAVAILABLE"))
          && error == MediaScanUnavailable
        else if !a.mediaValid then
          end == trusted.(status := Failed, error := Some("MEDIA_VALIDATION_FAILED")) && error == MediaInvalid
        else if a.duplicate.Some? then
          end == trusted.(status := CompletedDuplicate, asset := a.duplicate, duplicateOf := a.duplicate, error := None)
        else if a.stored.Some? then
          end == trusted.(status := Completed, asset := a.stored, duplicateOf := None, error := None)
        else
          end == trusted.(status := Failed, error := Some("STORAGE_PERSISTENCE_FAILED")) && error == StorageFailed
  {
    hide Files, Concat, TotalParts;
  }

  // ----- The calls are runs

  /** An accepted part is two steps of the runs. */
  lemma PartIsRun(w: World, n: nat, body: Bytes, maxPartSize: nat, expected: Option<string>, hash: Bytes -> string)
    requires Inv(w, hash) && w.call.Idle? && TakesPart(w.u, n, body, maxPartSize, expected, hash)
    ensures
      var steps := [StorePart(n, body), RecordIt];
      && Enabled(w, steps[0]) && Enabled(Next(w, steps[0], hash), steps[1])
      && var end := Next(Next(w, steps[0], hash), steps[1], hash);
         && end.u == RecordPart(w.u, Part(n, |body|, hash(body)))
         && end.staged == w.staged[n := body] && end.call.Idle?
  {
  }

  /** Every comparison of checksums in these steps is with what the caller gave. */
  predicate Compares(steps: seq<Step>, given: Option<string>) {
    forall k :: 0 <= k < |steps| && steps[k].CheckChecksum? ==> steps[k].expected == given
  }

  lemma NoSteps(w: World, given: Option<string>, hash: Bytes -> string) returns (worlds: seq<World>, steps: seq<Step>)
    ensures worlds == [w] && steps == [] && Run(worlds, steps, hash) && Compares(steps, given)
  {
    worlds, steps := [w], [];
  }

  /** One more step of a run. */
  lemma OneMore(worlds: seq<World>, steps: seq<Step>, s: Step, given: Option<string>, hash: Bytes -> string)
    returns (worlds': seq<World>, steps': seq<Step>)
    requires |worlds| == |steps| + 1 && Run(worlds, steps, hash) && Enabled(worlds[|steps|], s)
    requires Compares(steps, given) && (s.CheckChecksum? ==> s.expected == given)
    ensures |worlds'| == |steps'| + 1 && Run(worlds', steps', hash) && worlds'[0] == worlds[0]
    ensures Compares(steps', given)
    ensures worlds'[|steps'|] == Next(worlds[|steps|], s, hash)
  {
    hide Next, Enabled;
    worlds', steps' := worlds + [Next(worlds[|steps|], s, hash)], steps + [s];
  }

  /**
   * Whatever the collaborators answer, a call of `complete` is a run, from the world in which it is made to one in
   * which the upload has the row that the call leaves.
   */
  lemma ConcludedIsRun(w: World, a: Answers, hash: Bytes -> string) returns (worlds: seq<World>, steps: seq<Step>)
    requires Inv(w, hash) && w.call.Idle?
    ensures Run(worlds, steps, hash) && worlds[0] == w
    ensures
      var end := worlds[|steps|];
      end.u == Concluded(w.u, w.staged, a, hash) && end.staged == w.staged && end.call.Idle?
    ensures Compares(steps, a.expected)
  {
    hide Files, Concat, TotalParts, ExpectedSize, PartsInv, RowInv, Recorded, Run, Compares;
    worlds, steps := NoSteps(w, a.expected, hash);
    if w.u.AcceptsParts() && Complete(w.u, w.staged) {
      worlds, steps := OneMore(worlds, steps, BeginComplete, a.expected, hash);
      AssemblyBegun(w, hash);
      worlds, steps := OneMore(worlds, steps, CheckChecksum(a.expected), a.expected, hash);
      if worlds[|steps|].call.Failing? {
        worlds, steps := OneMore(worlds, steps, FailIt, a.expected, hash);
      } else {
        worlds, steps := OneMore(worlds, steps, EnterQuarantine, a.expected, hash);
        var scan := if a.archive then DenyArchive else ScanIt(a.verdict);
        worlds, steps := OneMore(worlds, steps, scan, a.expected, hash);
        if worlds[|steps|].call.Probing? {
          worlds, steps := PromotedIsRun(worlds, steps, a, hash);
        }
      }
    }
  }

  /** The part of the run after a clean verdict. */
  lemma PromotedIsRun(worlds: seq<World>, steps: seq<Step>, a: Answers, hash: Bytes -> string)
    returns (worlds': seq<World>, steps': seq<Step>)
    requires |worlds| == |steps| + 1 && Run(worlds, steps, hash) && Compares(steps, a.expected)
    requires worlds[|steps|].call.Probing? && MayFinish(worlds[|steps|].u)
    ensures |worlds'| == |steps'| + 1 && Run(worlds', steps', hash) && worlds'[0] == worlds[0]
    ensures Compares(steps', a.expected)
    ensures
      var w, end := worlds[|steps|], worlds'[|steps'|];
      && end.staged == w.staged && end.call.Idle?
      && end.u == if !a.mediaValid then MarkFailed(w.u, "MEDIA_VALIDATION_FAILED")
                  else if a.duplicate.Some? then Finish(w.u, a.duplicate.value, a.duplicate)
                  else if a.stored.None? then MarkFailed(w.u, "STORAGE_PERSISTENCE_FAILED")
                  else Finish(w.u, a.stored.value, None)
  {
    hide Run, Compares;
    worlds', steps' := OneMore(worlds, steps, ProbeIt(a.mediaValid), a.expected, hash);
    if a.mediaValid {
      var s := if a.duplicate.Some? then FoundDuplicate(a.duplicate.value)
               else StoreObject(a.stored.Some?, if a.stored.Some? then a.stored.value else "");
      worlds', steps' := OneMore(worlds', steps', s, a.expected, hash);
    }
    var last := if worlds'[|steps'|].call.Failing? then FailIt else FinishIt;
    worlds', steps' := OneMore(worlds', steps', last, a.expected, hash);
  }

  /**
   * A call of `complete` turns the upload into an asset exactly when every part is in, the file has the expected
   * checksum, is no archive, is found clean and valid, and is either known already or can be stored.
   */
  lemma AssetIff(w: World, a: Answers, hash: Bytes -> string)
    requires Inv(w, hash) && w.u.AcceptsParts()
    ensures Concluded(w.u, w.staged, a, hash).asset.Some? <==>
      && Complete(w.u, w.staged)
      && (a.expected.Some? ==> hash(Assembly(w.u, w.staged)) == a.expected.value)
      && (a.expected.None? && w.u.expectedChecksum.Some? ==>
            hash(Assembly(w.u, w.staged)) == w.u.expectedChecksum.value)
      && !a.archive && a.verdict.Clean? && a.mediaValid && (a.duplicate.Some? || a.stored.Some?)
  {
    hide Complete, Files, TotalParts, PartsInv, ClearedFor, CallInv, Explained;
    if Complete(w.u, w.staged) {
      EnoughBytes(w, hash);
    }
  }

  /**
   * A call that makes an asset has compared the checksum of the assembled bytes: with the caller's, or without one with
   * the one announced at first. When they differ, the upload fails.
   */
  lemma AssetHasChecksum(w: World, a: Answers, hash: Bytes -> string)
    requires Inv(w, hash) && w.u.AcceptsParts() && Complete(w.u, w.staged)
    ensures
      var end, h := Concluded(w.u, w.staged, a, hash), hash(Assembly(w.u, w.staged));
      && (end.asset.Some? && a.expected.Some? ==> h == a.expected.value)
      && (end.asset.Some? && a.expected.None? && w.u.expectedChecksum.Some? ==> h == w.u.expectedChecksum.value)
      && ((a.expected.Some? && h != a.expected.value)
          || (a.expected.None? && w.u.expectedChecksum.Some? && h != w.u.expectedChecksum.value) ==>
            end.status.Failed? && end.error == Some("UPLOAD_CHECKSUM_MISMATCH") && end.asset.None?)
  {
    hide Complete, Files, TotalParts, PartsInv, ClearedFor, CallInv, Explained;
    EnoughBytes(w, hash);
  }

  /** The parts are in, and make the file that the caller expects. */
  predicate Assembles(u: Upload, staged: map<nat, Bytes>, a: Answers, hash: Bytes -> string)
    requires u.Sized()
  {
    && u.AcceptsParts() && Complete(u, staged) && |Assembly(u, staged)| == u.size
    && ChecksumFits(u, a, hash(Assembly(u, staged)))
  }

  /**
   * An upload is rejected exactly when its file is an archive, infected, or rejected by the scanner; and the caller is
   * told that it was, except in the last case.
   */
  lemma MisreportedIff(u: Upload, staged: map<nat, Bytes>, a: Answers, hash: Bytes -> string)
    requires u.Sized() && Assembles(u, staged, a, hash)
    ensures
      var end := Concluded(u, staged, a, hash);
      && (end.status.Rejected? <==> a.archive || a.verdict.Infected? || a.verdict.RejectedByPolicy?)
      && (end.status.Rejected? ==>
            (ErrorFor(end.error, a) == MediaScanUnavailable <==> !a.archive && a.verdict.RejectedByPolicy?)
            && (ErrorFor(end.error, a) == UnsafeMediaRejected <==> a.archive || a.verdict.Infected?))
  {
    hide Complete, Assembly;
  }

  /** An upload of one byte that ends rejected, and is reported as one that could not be scanned. */
  lemma RejectedIsMisreported(u: Upload, staged: map<nat, Bytes>, a: Answers, hash: Bytes -> string)
    requires u == RecordPart(NewUpload(1, 65536, None), Part(1, 1, hash([0]))) && staged == map[1 := [0]]
    requires a == Answers(None, false, RejectedByPolicy, true, None, Some("asset"))
    ensures Assembles(u, staged, a, hash)
    ensures Concluded(u, staged, a, hash).status.Rejected?
    ensures ErrorFor(Concluded(u, staged, a, hash).error, a) == MediaScanUnavailable
  {
    hide Concluded, ErrorFor;
    OneByte(u, staged, hash);
    MisreportedIff(u, staged, a, hash);
  }

  lemma OneByte(u: Upload, staged: map<nat, Bytes>, hash: Bytes -> string)
    requires u == RecordPart(NewUpload(1, 65536, None), Part(1, 1, hash([0]))) && staged == map[1 := [0]]
    ensures u.Sized() && u.AcceptsParts() && Complete(u, staged) && Assembly(u, staged) == [0]
    ensures u.size == 1 && u.expectedChecksum.None?
  {
    hide Concat, Files, TotalParts, Recorded;
    OnePart(Part(1, 1, hash([0])), staged);
    assert u.received == [Part(1, 1, hash([0]))];
    assert Has(u.received, 1) by {
      assert u.received[0].number == 1;
    }
  }

  lemma OnePart(p: Part, staged: map<nat, Bytes>)
    requires 1 in staged
    ensures TotalParts(1, 65536) == 1
    ensures Recorded([], p) == [p]
    ensures Concat(Files(staged, 1)) == staged[1]
  {
    assert Files(staged, 1) == [] + [staged[1]];
    assert Concat([staged[1]]) == [] + staged[1];
    assert Without([], p.number) + [p] == [p];
  }

  lemma EnoughBytes(w: World, hash: Bytes -> string)
    requires Inv(w, hash) && Complete(w.u, w.staged)
    ensures |Assembly(w.u, w.staged)| == w.u.size
  {
    hide CallInv, ClearedFor, Explained;
    AssembledSize(w.staged, w.u.size, w.u.partSize, TotalParts(w.u.size, w.u.partSize));
  }
}
