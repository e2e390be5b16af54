// The life of an upload (`auto_edit_service.py`, `auto_edit_repository.py`): staging, quarantine, scanning and
// promotion to an asset, over every run in which the calls on the upload follow each other and may stop anywhere.
module UploadRuns {
  import opened Wrappers
  import opened UploadParts

  type AssetId = string

  datatype Status = Initialized | Uploading | Quarantined | Rejected | Failed | Completed | CompletedDuplicate {
    predicate Terminal() {
      Rejected? || Failed? || Completed? || CompletedDuplicate?
    }
  }

  datatype Quarantine = NotScanned | InQuarantine | Trusted | Refused

  datatype Verdict = Clean | Infected | RejectedByPolicy | ScanError

  datatype Scan = Scan(verdict: Verdict, checksum: string)

  datatype Upload = Upload(
    size: nat,
    partSize: nat,
    expectedChecksum: Option<string>,
    received: seq<Part>,
    receivedBytes: nat,
    status: Status,
    quarantine: Quarantine,
    scan: Option<Scan>,
    trustedAt: bool,
    asset: Option<AssetId>,
    duplicateOf: Option<AssetId>,
    error: Option<string>)
  {
    predicate Sized() {
      size > 0 && partSize > 0
    }

    predicate AcceptsParts() {
      status.Initialized? || status.Uploading?
    }
  }

  function NewUpload(size: nat, partSize: nat, checksum: Option<string>): Upload {
    Upload(size, partSize, checksum, [], 0, Initialized, NotScanned, None, false, None, None, None)
  }

  // ----- The repository: what each transaction makes of the row, and when it refuses

  function RecordPart(u: Upload, p: Part): Upload {
    var parts := Recorded(u.received, p);
    u.(received := parts, receivedBytes := ReceivedBytes(parts), status := Uploading)
  }

  function MarkFailed(u: Upload, code: string): Upload {
    u.(status := Failed, error := Some(code))
  }

  predicate MayQuarantine(u: Upload) {
    u.status.Initialized? || u.status.Uploading? || u.status.Quarantined?
  }

  function MarkQuarantined(u: Upload): Upload {
    u.(status := Quarantined, quarantine := InQuarantine, error := None)
  }

  predicate AwaitsVerdict(u: Upload) {
    u.status.Quarantined? && u.quarantine.InQuarantine?
  }

  function RecordScan(u: Upload, scan: Scan): Upload {
    var scanned := u.(scan := Some(scan));
    match scan.verdict
    case Clean => scanned.(quarantine := Trusted, trustedAt := true, error := None)
    case Infected => scanned.(quarantine := Refused, status := Rejected, error := Some("UNSAFE_MEDIA_REJECTED"))
    case RejectedByPolicy => scanned.(quarantine := Refused, status := Rejected, error := Some("UNSAFE_MEDIA_REJECTED"))
    case ScanError => scanned.(error := Some("MEDIA_SCAN_UNAVAILABLE"))
  }

  predicate MayFinish(u: Upload) {
    u.quarantine.Trusted? && u.trustedAt
  }

  function Finish(u: Upload, asset: AssetId, duplicateOf: Option<AssetId>): Upload {
    u.(asset := Some(asset), duplicateOf := duplicateOf, error := None,
       status := if duplicateOf.Some? then CompletedDuplicate else Completed)
  }

  class UploadRepository {
    var row: Upload

    constructor (size: nat, partSize: nat, checksum: Option<string>)
      ensures row == NewUpload(size, partSize, checksum)
      ensures row ==
        Upload(size, partSize, checksum, [], 0, Initialized, NotScanned, None, false, None, None, None)
    {
      row := NewUpload(size, partSize, checksum);
    }

    method RecordPartRow(p: Part) returns (ok: bool)
      modifies this
      ensures ok <==> old(row).status.Initialized? || old(row).status.Uploading?
      ensures row == if ok then RecordPart(old(row), p) else old(row)
      ensures ok ==>
        var parts := Recorded(old(row).received, p);
        row == old(row).(received := parts, receivedBytes := ReceivedBytes(parts), status := Uploading)
    {
      if !(row.status.Initialized? || row.status.Uploading?) {
        return false;
      }
      var parts := Sorted(Without(row.received, p.number) + [p]);
      var total := SumSizes(parts);
      row := row.(received := parts, receivedBytes := total, status := Uploading);
      ok := true;
    }

    static method SumSizes(parts: seq<Part>) returns (total: nat)
      ensures total == ReceivedBytes(parts)
    {
      total := 0;
      for i := 0 to |parts|
        invariant total == ReceivedBytes(parts[..i])
      {
        assert parts[..i + 1][..i] == parts[..i];
        total := total + parts[i].size;
      }
      assert parts[..|parts|] == parts;
    }

    method MarkUploadFailed(code: string)
      modifies this
      ensures row == MarkFailed(old(row), code)
      ensures row == old(row).(status := Failed, error := Some(code))
    {
      row := row.(status := Failed, error := Some(code));
    }

    method MarkUploadQuarantined() returns (ok: bool)
      modifies this
      ensures ok == MayQuarantine(old(row))
      ensures row == if ok then MarkQuarantined(old(row)) else old(row)
      ensures ok <==> old(row).status.Initialized? || old(row).status.Uploading? || old(row).status.Quarantined?
      ensures ok ==> row == old(row).(status := Quarantined, quarantine := InQuarantine, error := None)
    {
      ok := row.status.Initialized? || row.status.Uploading? || row.status.Quarantined?;
      if ok {
        row := row.(status := Quarantined, quarantine := InQuarantine, error := None);
      }
    }

    method RecordUploadScan(scan: Scan) returns (ok: bool)
      modifies this
      ensures ok == AwaitsVerdict(old(row))
      ensures row == if ok then RecordScan(old(row), scan) else old(row)
      ensures ok <==> old(row).status.Quarantined? && old(row).quarantine.InQuarantine?
      ensures ok ==>
        var scanned := old(row).(scan := Some(scan));
        row ==
          if scan.verdict.Clean? then scanned.(quarantine := Trusted, trustedAt := true, error := None)
          else if scan.verdict.ScanError? then scanned.(error := Some("MEDIA_SCAN_UNAVAILABLE"))
          else scanned.(quarantine := Refused, status := Rejected, error := Some("UNSAFE_MEDIA_REJECTED"))
    {
      if row.status != Quarantined || row.quarantine != InQuarantine {
        return false;
      }
      row := row.(scan := Some(scan));
      if scan.verdict.Clean? {
        row := row.(quarantine := Trusted, trustedAt := true, error := None);
      } else if scan.verdict.Infected? || scan.verdict.RejectedByPolicy? {
        row := row.(quarantine := Refused, status := Rejected, error := Some("UNSAFE_MEDIA_REJECTED"));
      } else {
        row := row.(error := Some("MEDIA_SCAN_UNAVAILABLE"));
      }
      ok := true;
    }

    method FinishUpload(asset: AssetId, duplicateOf: Option<AssetId>) returns (ok: bool)
      modifies this
      ensures ok == MayFinish(old(row))
      ensures row == if ok then Finish(old(row), asset, duplicateOf) else old(row)
      ensures ok <==> old(row).quarantine.Trusted? && old(row).trustedAt
      ensures ok ==>
        row == old(row).(asset := Some(asset), duplicateOf := duplicateOf, error := None,
                         status := if duplicateOf.Some? then CompletedDuplicate else Completed)
    {
      if row.quarantine != Trusted || !row.trustedAt {
        return false;
      }
      row := row.(asset := Some(asset), duplicateOf := duplicateOf, error := None,
                  status := if duplicateOf.Some? then CompletedDuplicate else Completed);
      ok := true;
    }
  }

  // ----- Runs

  /** Where the call on the upload stands. */
  datatype Call =
    | Idle
    | Staged(number: nat)                    // `store_part` has replaced the part's file
    | Assembled(bytes: Bytes)                // `complete` has written the assembled file
    | Quarantining(bytes: Bytes)
    | Scanning(bytes: Bytes)
    | Probing(bytes: Bytes)
    | Promoting(bytes: Bytes)
    | Finishing(bytes: Bytes, asset: AssetId, duplicateOf: Option<AssetId>)
    | Failing(code: string)

  /** `cleared` remembers the bytes that the clean verdict was given for. */
  datatype World = World(u: Upload, staged: map<nat, Bytes>, call: Call, cleared: Option<Bytes>)

  datatype Step =
    | StorePart(number: nat, body: Bytes)
    | RecordIt                               // the checksum of the staged file goes into the row
    | BeginComplete
    | CheckSize
    | CheckChecksum(expected: Option<string>)
    | EnterQuarantine
    | DenyArchive
    | ScanIt(verdict: Verdict)
    | ProbeIt(valid: bool)
    | FoundDuplicate(existing: AssetId)
    | StoreObject(stored: bool, asset: AssetId)
    | FinishIt
    | FailIt
    | Stop                                   // the call raises or the process stops

  predicate Complete(u: Upload, staged: map<nat, Bytes>)
    requires u.partSize > 0
  {
    forall k :: 1 <= k <= TotalParts(u.size, u.partSize) ==> Has(u.received, k) && k in staged
  }

  predicate Enabled(w: World, s: Step) {
    match s
    case StorePart(n, body) =>
      && w.call.Idle? && w.u.AcceptsParts() && w.u.partSize > 0
      && 1 <= n <= TotalParts(w.u.size, w.u.partSize)
      && |body| == ExpectedSize(w.u.size, w.u.partSize, n)
    case RecordIt => w.call.Staged? && w.call.number in w.staged && w.u.AcceptsParts()
    case BeginComplete => w.call.Idle? && w.u.AcceptsParts() && w.u.partSize > 0 && Complete(w.u, w.staged)
    case CheckSize => w.call.Assembled?
    case CheckChecksum(_) => w.call.Assembled? && |w.call.bytes| == w.u.size
    case EnterQuarantine => w.call.Quarantining? && MayQuarantine(w.u)
    case DenyArchive => w.call.Scanning? && AwaitsVerdict(w.u)
    case ScanIt(_) => w.call.Scanning? && AwaitsVerdict(w.u)
    case ProbeIt(_) => w.call.Probing?
    case FoundDuplicate(_) => w.call.Promoting?
    case StoreObject(_, _) => w.call.Promoting?
    case FinishIt => w.call.Finishing? && MayFinish(w.u)
    case FailIt => w.call.Failing?
    case Stop => true
  }

  /** `hash` stands for the checksum of a file. */
  function Next(w: World, s: Step, hash: Bytes -> string): (w': World)
    requires Enabled(w, s)
    ensures w'.u.size == w.u.size && w'.u.partSize == w.u.partSize && w'.u.expectedChecksum == w.u.expectedChecksum
  {
    match s
    case StorePart(n, body) => w.(staged := w.staged[n := body], call := Staged(n))
    case RecordIt =>
      var n := w.call.number;
      w.(u := RecordPart(w.u, Part(n, |w.staged[n]|, hash(w.staged[n]))), call := Idle)
    case BeginComplete => w.(call := Assembled(Concat(Files(w.staged, TotalParts(w.u.size, w.u.partSize)))))
    case CheckSize => if |w.call.bytes| != w.u.size then w.(call := Failing("UPLOAD_SIZE_MISMATCH")) else w
    case CheckChecksum(expected) =>
      var wanted := if expected.Some? then expected else w.u.expectedChecksum;
      if wanted.Some? && hash(w.call.bytes) != wanted.value then w.(call := Failing("UPLOAD_CHECKSUM_MISMATCH"))
      else w.(call := Quarantining(w.call.bytes))
    case EnterQuarantine => w.(u := MarkQuarantined(w.u), call := Scanning(w.call.bytes))
    case DenyArchive => w.(u := RecordScan(w.u, Scan(RejectedByPolicy, hash(w.call.bytes))), call := Idle)
    case ScanIt(verdict) =>
      var u := RecordScan(w.u, Scan(verdict, hash(w.call.bytes)));
      if verdict.Clean? then w.(u := u, cleared := Some(w.call.bytes), call := Probing(w.call.bytes))
      else w.(u := u, call := Idle)
    case ProbeIt(valid) => w.(call := if valid then Promoting(w.call.bytes) else Failing("MEDIA_VALIDATION_FAILED"))
    case FoundDuplicate(existing) => w.(call := Finishing(w.call.bytes, existing, Some(existing)))
    case StoreObject(stored, asset) =>
      w.(call := if stored then Finishing(w.call.bytes, asset, None) else Failing("STORAGE_PERSISTENCE_FAILED"))
    case FinishIt => w.(u := Finish(w.u, w.call.asset, w.call.duplicateOf), call := Idle)
    case FailIt => w.(u := MarkFailed(w.u, w.call.code), call := Idle)
    case Stop => w.(call := Idle)
  }

  // ----- What every step keeps

  /** The bytes are what the staged parts assemble to, as many as were announced. */
  predicate IsAssembly(w: World, bytes: Bytes)
    requires w.u.Sized()
  {
    var n := TotalParts(w.u.size, w.u.partSize);
    && (forall k :: 1 <= k <= n ==> k in w.staged)
    && bytes == Concat(Files(w.staged, n))
    && |bytes| == w.u.size
  }

  predicate PartsInv(w: World)
    requires w.u.Sized()
  {
    && StagedFits(w.staged, w.u.size, w.u.partSize)
    && Increasing(w.u.received)
    && Fits(w.u.received, w.u.size, w.u.partSize)
    && w.u.receivedBytes == ReceivedBytes(w.u.received)
    && (forall p :: p in w.u.received ==> p.number in w.staged)
    && (w.call.Staged? ==> w.call.number in w.staged)
  }

  /** The upload was cleared: a clean verdict was given for its assembled bytes, and the row says so. */
  predicate ClearedFor(w: World, hash: Bytes -> string)
    requires w.u.Sized()
  {
    && w.cleared.Some? && IsAssembly(w, w.cleared.value)
    && w.u.scan == Some(Scan(Clean, hash(w.cleared.value)))
    && w.u.trustedAt
  }

  predicate CallInv(w: World, hash: Bytes -> string)
    requires w.u.Sized()
  {
    match w.call
    case Idle => true
    case Staged(_) => w.u.AcceptsParts()
    case Assembled(bytes) => w.u.AcceptsParts() && IsAssembly(w, bytes)
    case Quarantining(bytes) => w.u.AcceptsParts() && IsAssembly(w, bytes)
    case Scanning(bytes) => AwaitsVerdict(w.u) && IsAssembly(w, bytes)
    case Probing(bytes) => w.u.status.Quarantined? && w.u.quarantine.Trusted? && w.cleared == Some(bytes)
    case Promoting(bytes) => w.u.status.Quarantined? && w.u.quarantine.Trusted? && w.cleared == Some(bytes)
    case Finishing(bytes, asset, duplicateOf) =>
      && w.u.status.Quarantined? && w.u.quarantine.Trusted? && w.cleared == Some(bytes)
      && (duplicateOf.Some? ==> duplicateOf.value == asset)
    case Failing(code) => !w.u.status.Terminal() && w.u.asset.None? && code != "UPLOAD_SIZE_MISMATCH"
  }

  predicate Inv(w: World, hash: Bytes -> string) {
    w.u.Sized() && PartsInv(w) && CallInv(w, hash) && RowInv(w, hash)
  }

  predicate RowInv(w: World, hash: Bytes -> string)
    requires w.u.Sized()
  {
    && (w.u.quarantine.Trusted? ==> ClearedFor(w, hash) && !w.u.AcceptsParts())
    && (w.u.AcceptsParts() ==> w.u.quarantine.NotScanned?)
    && (w.u.asset.Some? <==> w.u.status.Completed? || w.u.status.CompletedDuplicate?)
    && (w.u.asset.Some? ==> w.u.quarantine.Trusted?)
    && Explained(w.u)
  }

  /** The row says how the upload ended: with whose asset, for what verdict, for what error. */
  predicate Explained(u: Upload) {
    && (u.status.Completed? ==> u.duplicateOf.None? && u.error.None?)
    && (u.status.CompletedDuplicate? ==> u.duplicateOf.Some? && u.duplicateOf == u.asset && u.error.None?)
    && (u.status.Rejected? ==>
          u.scan.Some? && (u.scan.value.verdict.Infected? || u.scan.value.verdict.RejectedByPolicy?))
    && (u.status.Rejected? || u.status.Failed? ==> u.error.Some? && u.asset.None?)
  }

  function Start(size: nat, partSize: nat, checksum: Option<string>): World {
    World(NewUpload(size, partSize, checksum), map[], Idle, None)
  }

  /** What all steps but two leave alone. */
  lemma OtherStep(w: World, s: Step, hash: Bytes -> string)
    requires Enabled(w, s) && !s.StorePart? && !s.RecordIt?
    ensures
      var w' := Next(w, s, hash);
      && w'.staged == w.staged && w'.u.received == w.u.received && w'.u.receivedBytes == w.u.receivedBytes
      && !w'.call.Staged?
  {
    hide TotalParts, ExpectedSize, Files, Concat, Complete, Recorded;
  }

  lemma PartsNext(w: World, s: Step, hash: Bytes -> string)
    requires w.u.Sized() && PartsInv(w) && Enabled(w, s)
    ensures PartsInv(Next(w, s, hash))
  {
    hide Next, Enabled, PartsInv;
    if s.StorePart? {
      PartStaged(w, s, hash);
    } else if s.RecordIt? {
      PartRecorded(w, hash);
    } else {
      OtherStep(w, s, hash);
      PartsKept(w, Next(w, s, hash));
    }
  }

  lemma PartsKept(w: World, w': World)
    requires w.u.Sized() && PartsInv(w)
    requires w'.u.size == w.u.size && w'.u.partSize == w.u.partSize && w'.staged == w.staged
    requires w'.u.received == w.u.received && w'.u.receivedBytes == w.u.receivedBytes && !w'.call.Staged?
    ensures PartsInv(w')
  {
    hide StagedFits, Fits, Increasing;
  }

  lemma PartStaged(w: World, s: Step, hash: Bytes -> string)
    requires w.u.Sized() && PartsInv(w) && s.StorePart? && Enabled(w, s)
    ensures PartsInv(Next(w, s, hash))
  {
    hide TotalParts, ExpectedSize, Fits, Increasing;
  }

  lemma PartRecorded(w: World, hash: Bytes -> string)
    requires w.u.Sized() && PartsInv(w) && Enabled(w, RecordIt)
    ensures PartsInv(Next(w, RecordIt, hash))
  {
    hide TotalParts, ExpectedSize, Recorded, Increasing;
    var n := w.call.number;
    RecordedParts(w.u.received, Part(n, |w.staged[n]|, hash(w.staged[n])));
  }

  /** What the staged parts assemble to changes only with them. */
  lemma AssemblyKept(w: World, s: Step, hash: Bytes -> string)
    requires w.u.Sized() && Enabled(w, s) && !s.StorePart?
    ensures forall bytes :: IsAssembly(Next(w, s, hash), bytes) == IsAssembly(w, bytes)
  {
    assert Next(w, s, hash).staged == w.staged by {
      hide IsAssembly, TotalParts, ExpectedSize, Files, Concat, Complete;
      if !s.RecordIt? {
        OtherStep(w, s, hash);
      }
    }
    hide Next, Enabled;
  }

  lemma AssemblyFits(w: World, bytes: Bytes)
    requires w.u.Sized() && IsAssembly(w, bytes)
    ensures |bytes| == w.u.size
  {
  }

  lemma CallNext(w: World, s: Step, hash: Bytes -> string)
    requires Inv(w, hash) && Enabled(w, s)
    ensures CallInv(Next(w, s, hash), hash)
  {
    hide TotalParts, ExpectedSize, Recorded, Concat, Files, Complete, PartsInv, IsAssembly, Explained, ClearedFor;
    if s.BeginComplete? {
      AssemblyBegun(w, hash);
    } else if s.CheckSize? {
      AssemblyFits(w, w.call.bytes);
    } else if !s.StorePart? {
      AssemblyKept(w, s, hash);
    }
  }

  lemma AssemblyBegun(w: World, hash: Bytes -> string)
    requires w.u.Sized() && PartsInv(w) && Enabled(w, BeginComplete)
    ensures
      var w' := Next(w, BeginComplete, hash);
      w'.call.Assembled? && IsAssembly(w', w'.call.bytes)
  {
    hide TotalParts, ExpectedSize;
    AssembledSize(w.staged, w.u.size, w.u.partSize, TotalParts(w.u.size, w.u.partSize));
  }

  lemma RowNext(w: World, s: Step, hash: Bytes -> string)
    requires Inv(w, hash) && Enabled(w, s)
    ensures RowInv(Next(w, s, hash), hash)
  {
    hide TotalParts, ExpectedSize, Recorded, Concat, Files, Complete, PartsInv, IsAssembly;
    if !s.StorePart? {
      AssemblyKept(w, s, hash);
    }
  }

  lemma NextInv(w: World, s: Step, hash: Bytes -> string)
    requires Inv(w, hash) && Enabled(w, s)
    ensures Inv(Next(w, s, hash), hash)
  {
    hide Next, Enabled, PartsInv, CallInv, RowInv;
    PartsNext(w, s, hash);
    CallNext(w, s, hash);
    RowNext(w, s, hash);
  }

  predicate Run(worlds: seq<World>, steps: seq<Step>, hash: Bytes -> string) {
    && |worlds| == |steps| + 1
    && forall i :: 0 <= i < |steps| ==> Enabled(worlds[i], steps[i]) && worlds[i + 1] == Next(worlds[i], steps[i], hash)
  }

  lemma {:induction false} RunInv(
      worlds: seq<World>, steps: seq<Step>, hash: Bytes -> string, size: nat, partSize: nat, checksum: Option<string>,
      i: nat)
    requires Run(worlds, steps, hash) && worlds[0] == Start(size, partSize, checksum)
    requires size > 0 && partSize > 0 && i < |worlds|
    ensures Inv(worlds[i], hash) && worlds[i].u.size == size && worlds[i].u.partSize == partSize
    ensures worlds[i].u.expectedChecksum == checksum
  {
    hide Next, Enabled, TotalParts, ExpectedSize;
    if i > 0 {
      RunInv(worlds, steps, hash, size, partSize, checksum, i - 1);
      assert worlds[i - 1 + 1] == Next(worlds[i - 1], steps[i - 1], hash);
      NextInv(worlds[i - 1], steps[i - 1], hash);
    }
  }

  /** The checksum `h` is the one the caller gives, or else the one announced at first, if there is any. */
  predicate Matches(h: string, given: Option<string>, announced: Option<string>) {
    && (given.Some? ==> h == given.value)
    && (given.None? && announced.Some? ==> h == announced.value)
  }

  /** Some of the first `n` steps has compared the checksum `h` with what the caller gave, or announced. */
  predicate ComparedBy(steps: seq<Step>, n: nat, h: string, announced: Option<string>)
    requires n <= |steps|
  {
    exists k :: 0 <= k < n && steps[k].CheckChecksum? && Matches(h, steps[k].expected, announced)
  }

  /** The bytes past the comparison of checksums. */
  predicate PastChecksum(w: World, bytes: Bytes) {
    || w.cleared == Some(bytes)
    || (w.call.Quarantining? && w.call.bytes == bytes)
    || (w.call.Scanning? && w.call.bytes == bytes)
  }

  lemma {:induction false} ChecksumWasCompared(
      worlds: seq<World>, steps: seq<Step>, hash: Bytes -> string, size: nat, partSize: nat, checksum: Option<string>,
      i: nat, bytes: Bytes)
    requires Run(worlds, steps, hash) && worlds[0] == Start(size, partSize, checksum)
    requires size > 0 && partSize > 0 && i < |worlds| && PastChecksum(worlds[i], bytes)
    ensures ComparedBy(steps, i, hash(bytes), checksum)
  {
    hide Inv, Next, Enabled, Matches;
    if i > 0 {
      var w, s := worlds[i - 1], steps[i - 1];
      RunInv(worlds, steps, hash, size, partSize, checksum, i - 1);
      assert worlds[i - 1 + 1] == Next(w, s, hash);
      PastChecksumStep(w, s, hash, bytes);
      if PastChecksum(w, bytes) {
        ChecksumWasCompared(worlds, steps, hash, size, partSize, checksum, i - 1, bytes);
        var k :| 0 <= k < i - 1 && steps[k].CheckChecksum? && Matches(hash(bytes), steps[k].expected, checksum);
        assert steps[k].CheckChecksum? && k < i;
      }
    }
  }

  lemma PastChecksumStep(w: World, s: Step, hash: Bytes -> string, bytes: Bytes)
    requires Enabled(w, s) && PastChecksum(Next(w, s, hash), bytes)
    ensures PastChecksum(w, bytes)
      || (s.CheckChecksum? && Matches(hash(bytes), s.expected, w.u.expectedChecksum))
  {
    hide TotalParts, ExpectedSize, Files, Concat, Complete, Recorded, ReceivedBytes;
  }

  /**
   * In every run an upload has an asset only when a clean verdict was given for exactly the bytes its parts assemble
   * to, and those are as many as were announced; the row explains how it ended; and as many bytes are recorded as
   * announced exactly when every part is in. The checksum of those bytes was compared with the one that the caller
   * gave, or else with the one announced at first.
   */
  lemma AssetsAreCleared(
      worlds: seq<World>, steps: seq<Step>, hash: Bytes -> string, size: nat, partSize: nat, checksum: Option<string>,
      i: nat)
    requires Run(worlds, steps, hash) && worlds[0] == Start(size, partSize, checksum)
    requires size > 0 && partSize > 0 && i < |worlds|
    ensures
      var w := worlds[i];
      && (w.u.asset.Some? ==>
            && w.cleared.Some? && |w.cleared.value| == size
            && (forall k :: 1 <= k <= TotalParts(size, partSize) ==> k in w.staged)
            && w.cleared.value == Concat(Files(w.staged, TotalParts(size, partSize)))
            && w.u.scan == Some(Scan(Clean, hash(w.cleared.value)))
            && exists k :: 0 <= k < i && steps[k].CheckChecksum? &&
                 var given := steps[k].expected;
                 && (given.Some? ==> hash(w.cleared.value) == given.value)
                 && (given.None? && checksum.Some? ==> hash(w.cleared.value) == checksum.value))
      && Explained(w.u)
      && Increasing(w.u.received)
      && (w.u.receivedBytes == size <==> forall k :: 1 <= k <= TotalParts(size, partSize) ==> Has(w.u.received, k))
  {
    RunInv(worlds, steps, hash, size, partSize, checksum, i);
    if worlds[i].u.asset.Some? {
      ChecksumWasCompared(worlds, steps, hash, size, partSize, checksum, i, worlds[i].cleared.value);
    }
    AllBytesMeansAllParts(worlds[i].u.received, size, partSize);
  }

  /** The assembled file never has the wrong size: that failure cannot happen. */
  lemma SizeMismatchUnreachable(
      worlds: seq<World>, steps: seq<Step>, hash: Bytes -> string, size: nat, partSize: nat, checksum: Option<string>,
      i: nat)
    requires Run(worlds, steps, hash) && worlds[0] == Start(size, partSize, checksum)
    requires size > 0 && partSize > 0 && i < |worlds|
    ensures worlds[i].call != Failing("UPLOAD_SIZE_MISMATCH")
    ensures worlds[i].call.Assembled? ==> |worlds[i].call.bytes| == size
  {
    RunInv(worlds, steps, hash, size, partSize, checksum, i);
  }

  lemma TerminalStep(w: World, s: Step, hash: Bytes -> string)
    requires Inv(w, hash) && Enabled(w, s) && w.u.status.Terminal()
    ensures Next(w, s, hash).u == w.u
  {
    hide TotalParts, ExpectedSize, Recorded, PartsInv;
  }

  /** A completed, rejected or failed upload keeps its whole row for the rest of the run. */
  lemma {:induction false} TerminalIsFinal(
      worlds: seq<World>, steps: seq<Step>, hash: Bytes -> string, size: nat, partSize: nat, checksum: Option<string>,
      i: nat, j: nat)
    requires Run(worlds, steps, hash) && worlds[0] == Start(size, partSize, checksum)
    requires size > 0 && partSize > 0 && i <= j < |worlds| && worlds[i].u.status.Terminal()
    ensures worlds[j].u == worlds[i].u
    decreases j - i
  {
    hide Next, Enabled, Inv;
    if i < j {
      TerminalIsFinal(worlds, steps, hash, size, partSize, checksum, i, j - 1);
      RunInv(worlds, steps, hash, size, partSize, checksum, j - 1);
      assert worlds[j - 1 + 1] == Next(worlds[j - 1], steps[j - 1], hash);
      TerminalStep(worlds[j - 1], steps[j - 1], hash);
    }
  }
}
