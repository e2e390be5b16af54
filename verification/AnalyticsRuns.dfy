// Runs of the analytics sync: what holds under every interleaving of repository calls, and what holds when each sync
// is processed by one worker at a time (`analytics_service.py`, `services/worker/npd_worker/main.py`).
module AnalyticsRuns {
  import opened Wrappers
  import opened AnalyticsStore
  import Protocol = JobProtocol

  // ----- Every interleaving

  function After(db: Db, ops: seq<Op>): Db {
    if ops == [] then db else Apply(After(db, ops[..|ops| - 1]), ops[|ops| - 1])
  }

  /** The events of a sync count its attempts: one started event for each, numbered from one. */
  predicate AttemptsNumbered(db: Db, id: SyncId, k: nat) {
    db.events[Event(id, SyncStarted, k)] == if id in db.rows && 1 <= k <= db.rows[id].attempts then 1 else 0
  }

  ghost predicate Consistent(db: Db) {
    && (forall s :: s in db.snapshots ==> HasSnapshot(db, db.snapshots[s], s))
    && (forall id :: id in db.rows ==> SnapshotRecorded(db, id))
    && (forall id, k :: AttemptsNumbered(db, id, k))
    && (forall id :: UpdatedOnce(db, id))
    && (forall i, j :: i in db.rows && j in db.rows && SameKey(db.rows[i], db.rows[j]) ==> i == j)
  }

  predicate SameKey(r: Row, s: Row) {
    r.project == s.project && r.keyHash == s.keyHash
  }

  /** The update is announced once, with the snapshot. */
  predicate UpdatedOnce(db: Db, id: SyncId) {
    db.events[Event(id, AnalyticsUpdated, 0)] == if id in db.rows && db.rows[id].snapshot.Some? then 1 else 0
  }

  predicate HasSnapshot(db: Db, id: SyncId, s: SnapshotId) {
    id in db.rows && db.rows[id].snapshot == Some(s)
  }

  predicate SnapshotRecorded(db: Db, id: SyncId)
    requires id in db.rows
  {
    && (db.rows[id].status.Succeeded? ==> db.rows[id].snapshot.Some?)
    && (db.rows[id].snapshot.Some? ==>
          db.rows[id].snapshot.value in db.snapshots && db.snapshots[db.rows[id].snapshot.value] == id)
  }

  lemma ApplyKeepsConsistent(db: Db, op: Op)
    requires Consistent(db)
    ensures Consistent(Apply(db, op))
  {
    hide Apply;
    var db' := Apply(db, op);
    forall s | s in db'.snapshots ensures HasSnapshot(db', db'.snapshots[s], s) {
      NextSnapshots(db, op, s);
    }
    forall id | id in db'.rows ensures SnapshotRecorded(db', id) {
      NextRecorded(db, op, id);
    }
    forall id, k: nat ensures AttemptsNumbered(db', id, k) {
      assert AttemptsNumbered(db, id, k);
      NextNumbered(db, op, id, k);
    }
    forall id ensures UpdatedOnce(db', id) {
      assert UpdatedOnce(db, id);
      NextUpdated(db, op, id);
    }
    forall i, j | i in db'.rows && j in db'.rows && SameKey(db'.rows[i], db'.rows[j]) ensures i == j {
      NextKeys(db, op, i, j);
    }
  }

  lemma NextSnapshots(db: Db, op: Op, s: SnapshotId)
    requires Consistent(db) && s in Apply(db, op).snapshots
    ensures HasSnapshot(Apply(db, op), Apply(db, op).snapshots[s], s)
  {
    hide Apply;
    SnapshotEffect(db, op);
    assert s in db.snapshots ==> HasSnapshot(db, db.snapshots[s], s);
    RowEffect(db, op, Apply(db, op).snapshots[s]);
  }

  lemma NextRecorded(db: Db, op: Op, id: SyncId)
    requires Consistent(db) && id in Apply(db, op).rows
    ensures SnapshotRecorded(Apply(db, op), id)
  {
    hide Apply;
    SnapshotEffect(db, op);
    assert id in db.rows ==> SnapshotRecorded(db, id);
    RowEffect(db, op, id);
  }

  lemma NextNumbered(db: Db, op: Op, id: SyncId, k: nat)
    requires AttemptsNumbered(db, id, k)
    ensures AttemptsNumbered(Apply(db, op), id, k)
  {
    hide Apply;
    RowEffect(db, op, id);
    StartedEffect(db, op, id, k);
  }

  lemma NextKeys(db: Db, op: Op, i: SyncId, j: SyncId)
    requires Consistent(db)
    requires i in Apply(db, op).rows && j in Apply(db, op).rows && SameKey(Apply(db, op).rows[i], Apply(db, op).rows[j])
    ensures i == j
  {
    hide Apply;
    RowEffect(db, op, i);
    RowEffect(db, op, j);
  }

  lemma NextUpdated(db: Db, op: Op, id: SyncId)
    requires UpdatedOnce(db, id) && (id in db.rows ==> SnapshotRecorded(db, id))
    ensures UpdatedOnce(Apply(db, op), id)
  {
    hide Apply;
    RowEffect(db, op, id);
    UpdatedEffect(db, op, id);
  }

  /** Whatever is recorded as a sync's snapshot stays recorded, whatever anyone does. */
  lemma SnapshotIsPermanent(db: Db, op: Op, id: SyncId)
    requires Consistent(db) && id in db.rows && db.rows[id].snapshot.Some?
    ensures id in Apply(db, op).rows && Apply(db, op).rows[id].snapshot == db.rows[id].snapshot
  {
    hide Apply;
    assert SnapshotRecorded(db, id);
    RowEffect(db, op, id);
  }

  /**
   * Under every interleaving of any number of workers, schedulers and recoveries: a sync has at most one snapshot,
   * a succeeded sync has one, its update is announced exactly when it has one, and once; the started events of a sync
   * are numbered 1 to its attempt count, each once; and no idempotency key of a project has two syncs.
   */
  lemma {:induction false} EveryRunIsConsistent(ops: seq<Op>)
    ensures
      var db := After(EMPTY, ops);
      && Consistent(db)
      && (forall s, t :: s in db.snapshots && t in db.snapshots && db.snapshots[s] == db.snapshots[t] ==> s == t)
      && (forall id :: id in db.rows && db.rows[id].status.Succeeded? ==>
            db.rows[id].snapshot.Some? && db.rows[id].snapshot.value in db.snapshots)
      && (forall id, k: nat :: id in db.rows ==>
            db.events[Event(id, SyncStarted, k)] == if 1 <= k <= db.rows[id].attempts then 1 else 0)
      && (forall id :: id in db.rows ==>
            db.events[Event(id, AnalyticsUpdated, 0)] == if db.rows[id].snapshot.Some? then 1 else 0)
      && (forall i, j :: i in db.rows && j in db.rows && SameKey(db.rows[i], db.rows[j]) ==> i == j)
  {
    if ops != [] {
      EveryRunIsConsistent(ops[..|ops| - 1]);
      ApplyKeepsConsistent(After(EMPTY, ops[..|ops| - 1]), ops[|ops| - 1]);
    }
    var db := After(EMPTY, ops);
    forall s, t | s in db.snapshots && t in db.snapshots && db.snapshots[s] == db.snapshots[t] ensures s == t {
      assert HasSnapshot(db, db.snapshots[s], s) && HasSnapshot(db, db.snapshots[t], t);
    }
    forall id | id in db.rows && db.rows[id].status.Succeeded?
      ensures db.rows[id].snapshot.Some? && db.rows[id].snapshot.value in db.snapshots
    {
      assert SnapshotRecorded(db, id);
    }
    forall id, k: nat | id in db.rows
      ensures db.events[Event(id, SyncStarted, k)] == if 1 <= k <= db.rows[id].attempts then 1 else 0
    {
      assert AttemptsNumbered(db, id, k);
    }
    forall id | id in db.rows
      ensures db.events[Event(id, AnalyticsUpdated, 0)] == if db.rows[id].snapshot.Some? then 1 else 0
    {
      assert UpdatedOnce(db, id);
    }
  }

  /** Once set, the snapshot of a sync is the same ever after. */
  lemma {:induction false} SnapshotNeverChanges(before: seq<Op>, after: seq<Op>, id: SyncId)
    requires id in After(EMPTY, before).rows && After(EMPTY, before).rows[id].snapshot.Some?
    ensures
      var db := After(EMPTY, before + after);
      id in db.rows && db.rows[id].snapshot == After(EMPTY, before).rows[id].snapshot
  {
    hide Apply, Consistent;
    if after == [] {
      assert before + after == before;
    } else {
      var n := |after| - 1;
      SnapshotNeverChanges(before, after[..n], id);
      assert (before + after)[..|before + after| - 1] == before + after[..n];
      EveryRunIsConsistent(before + after[..n]);
      SnapshotIsPermanent(After(EMPTY, before + after[..n]), after[n], id);
    }
  }

  // ----- When a terminal status is left

  /** The one transaction that takes a sync out of a terminal status: a retry with attempts left. */
  predicate Reopens(row: Row, op: Op, id: SyncId) {
    op.ScheduleRetry? && op.id == id && row.attempts < row.maxAttempts
  }

  lemma TerminalIsLeftIff(db: Db, op: Op, id: SyncId)
    requires id in db.rows && db.rows[id].status.Terminal()
    ensures id in Apply(db, op).rows
    ensures !Apply(db, op).rows[id].status.Terminal() <==> Reopens(db.rows[id], op, id)
    ensures Apply(db, op).rows[id].attempts == db.rows[id].attempts
    ensures Apply(db, op).rows[id].maxAttempts == db.rows[id].maxAttempts
  {
    hide Apply, MayInsert;
    RowEffect(db, op, id);
  }

  predicate TerminalAt(ops: seq<Op>, n: nat, id: SyncId)
    requires n <= |ops|
  {
    id in After(EMPTY, ops[..n]).rows && After(EMPTY, ops[..n]).rows[id].status.Terminal()
  }

  function RowAt(ops: seq<Op>, n: nat, id: SyncId): Row
    requires n <= |ops| && TerminalAt(ops, n, id)
  {
    After(EMPTY, ops[..n]).rows[id]
  }

  /**
   * Under every interleaving, a sync that is terminal after `m` transactions is terminal at every later point exactly
   * when no retry with attempts left is scheduled for it: its attempts no longer change, so this can be told from
   * then on.
   */
  lemma TerminalStaysIff(ops: seq<Op>, m: nat, id: SyncId)
    requires m <= |ops| && TerminalAt(ops, m, id)
    ensures (forall n :: m <= n <= |ops| ==> TerminalAt(ops, n, id)) <==>
      forall n :: m <= n < |ops| ==> !Reopens(RowAt(ops, m, id), ops[n], id)
  {
    hide TerminalAt, RowAt, Reopens;
    if forall n :: m <= n < |ops| ==> !Reopens(RowAt(ops, m, id), ops[n], id) {
      forall n | m <= n <= |ops| ensures TerminalAt(ops, n, id) {
        StaysTerminal(ops, m, n, id);
      }
    }
    if forall n :: m <= n <= |ops| ==> TerminalAt(ops, n, id) {
      forall n | m <= n < |ops| ensures !Reopens(RowAt(ops, m, id), ops[n], id) {
        StaysTerminal(ops, m, n, id);
        NextTerminal(ops, n, id);
        assert TerminalAt(ops, n + 1, id);
        SameAttempts(RowAt(ops, m, id), RowAt(ops, n, id), ops[n], id);
      }
    }
  }

  lemma SameAttempts(before: Row, after: Row, op: Op, id: SyncId)
    requires before.attempts == after.attempts && before.maxAttempts == after.maxAttempts
    ensures Reopens(before, op, id) == Reopens(after, op, id)
  {
  }

  lemma NextTerminal(ops: seq<Op>, n: nat, id: SyncId)
    requires n < |ops| && TerminalAt(ops, n, id)
    ensures TerminalAt(ops, n + 1, id) <==> !Reopens(RowAt(ops, n, id), ops[n], id)
    ensures TerminalAt(ops, n + 1, id) ==>
      && RowAt(ops, n + 1, id).attempts == RowAt(ops, n, id).attempts
      && RowAt(ops, n + 1, id).maxAttempts == RowAt(ops, n, id).maxAttempts
  {
    hide Apply, Reopens;
    assert ops[..n + 1][..n] == ops[..n];
    TerminalIsLeftIff(After(EMPTY, ops[..n]), ops[n], id);
  }

  /** As long as nothing has reopened it, a terminal sync keeps its attempts. */
  lemma {:induction false} StaysTerminal(ops: seq<Op>, m: nat, n: nat, id: SyncId)
    requires m <= n <= |ops| && TerminalAt(ops, m, id)
    requires
      || (forall k :: m <= k < n ==> !Reopens(RowAt(ops, m, id), ops[k], id))
      || (forall k :: m <= k <= n ==> TerminalAt(ops, k, id))
    ensures TerminalAt(ops, n, id)
    ensures RowAt(ops, n, id).attempts == RowAt(ops, m, id).attempts
    ensures RowAt(ops, n, id).maxAttempts == RowAt(ops, m, id).maxAttempts
    decreases n - m
  {
    hide TerminalAt, RowAt, Reopens;
    if m < n {
      StaysTerminal(ops, m, n - 1, id);
      NextTerminal(ops, n - 1, id);
      SameAttempts(RowAt(ops, m, id), RowAt(ops, n - 1, id), ops[n - 1], id);
    }
  }

  /**
   * Why the next part needs one worker a sync. A second worker claims the sync while the first is at work, finds it
   * running and goes on; when it schedules its retry, the sync has succeeded in the meantime and is reopened.
   */
  lemma StaleRetryReopens() returns (ops: seq<Op>)
    ensures |ops| == 5 && ops[1].Claim? && ops[2] == Claim("s", 1)
    ensures
      var rows := After(EMPTY, ops[..3]).rows;
      "s" in rows && rows["s"].status.Running? && After(EMPTY, ops[..2]).rows == rows
    ensures TerminalAt(ops, 4, "s") && After(EMPTY, ops[..4]).rows["s"].status.Succeeded?
    ensures
      var rows := After(EMPTY, ops).rows;
      "s" in rows && rows["s"].status.RetryScheduled? && rows["s"].snapshot.Some?
  {
    ops := [Reserve(Request("s", "p", "k", "f", None, 3), 0), Claim("s", 0), Claim("s", 1),
            Complete("s", "m", false), ScheduleRetry("s", 9, "late")];
    assert ops[..0] == [] && ops[..5] == ops;
    forall n | 0 <= n < 5 ensures After(EMPTY, ops[..n + 1]) == Apply(After(EMPTY, ops[..n]), ops[n]) {
      assert ops[..n + 1][..n] == ops[..n];
    }
    StaleRetryStates(ops[0], ops[1], ops[2], ops[3], ops[4]);
    assert After(EMPTY, ops[..1]) == Apply(EMPTY, ops[0]);
    assert After(EMPTY, ops[..2]) == Apply(After(EMPTY, ops[..1]), ops[1]);
    assert After(EMPTY, ops[..3]) == Apply(After(EMPTY, ops[..2]), ops[2]);
    assert After(EMPTY, ops[..4]) == Apply(After(EMPTY, ops[..3]), ops[3]);
  }

  /** A claim that finds the sync running changes nothing. */
  lemma FoundRunning(db: Db, op: Op)
    requires op.Claim? && op.id in db.rows && !db.rows[op.id].status.Claimable()
    ensures Apply(db, op) == db
  {
    ClaimEffect(db, op);
  }

  lemma StaleRetryStates(submit: Op, claim: Op, again: Op, complete: Op, retry: Op)
    requires submit == Reserve(Request("s", "p", "k", "f", None, 3), 0) && claim == Claim("s", 0) &&
      again == Claim("s", 1)
    requires complete == Complete("s", "m", false) && retry == ScheduleRetry("s", 9, "late")
    ensures
      var claimed := Apply(Apply(EMPTY, submit), claim);
      var found := Apply(claimed, again);
      var done := Apply(found, complete);
      var end := Apply(done, retry);
      && found.rows == claimed.rows && "s" in found.rows && found.rows["s"].status.Running?
      && "s" in done.rows && done.rows["s"].status.Succeeded?
      && "s" in end.rows && end.rows["s"].status.RetryScheduled? && end.rows["s"].snapshot.Some?
  {
    hide Apply;
    RowEffect(EMPTY, submit, "s");
    SnapshotEffect(EMPTY, submit);
    var db1 := Apply(EMPTY, submit);
    RowEffect(db1, claim, "s");
    SnapshotEffect(db1, claim);
    var db2 := Apply(db1, claim);
    RowEffect(db2, again, "s");
    FoundRunning(db2, again);
    SnapshotEffect(db2, again);
    var db3 := Apply(db2, again);
    RowEffect(db3, complete, "s");
    RowEffect(Apply(db3, complete), retry, "s");
  }

  // ----- One worker a sync

  /** The database, the syncs some `process` call is working on, and how often each was worked on and dropped. */
  datatype World = World(db: Db, inFlight: set<SyncId>, runs: multiset<SyncId>, losses: multiset<SyncId>)

  const START := World(EMPTY, {}, multiset{}, multiset{})

  datatype Step =
    | Submit(request: Request, now: Time)     // `create_sync`
    | Begin(id: SyncId, now: Time)            // `process` claims; a sync found running counts as claimed
    | Succeed(id: SyncId, newSnapshot: SnapshotId, winner: bool)
    | Retry(id: SyncId, retryAt: Time, code: string)
    | Refuse(id: SyncId, status: Status, code: string)
    | Abandon(id: SyncId)                     // `process` raises outside its handlers
    | Crash                                   // the worker dies with everything in flight
    | Restart                                 // the worker starts again and recovers
    | Schedule(now: Time)

  predicate Enabled(w: World, s: Step) {
    match s
    case Submit(r, _) => r.maxAttempts >= 1
    case Begin(id, _) => id !in w.inFlight
    case Succeed(id, _, _) => id in w.inFlight
    case Retry(id, _, _) => id in w.inFlight
    case Refuse(id, status, _) => id in w.inFlight && (status.Failed? || status.NotConfigured? || status.Cancelled?)
    case Abandon(id) => id in w.inFlight
    case Crash => true
    case Restart => w.inFlight == {}
    case Schedule(_) => true
  }

  function Next(w: World, s: Step): World {
    match s
    case Submit(r, now) => w.(db := Apply(w.db, Reserve(r, now)))
    case Begin(id, now) =>
      var db := Apply(w.db, Claim(id, now));
      if id in db.rows && db.rows[id].status.Running? then
        w.(db := db, inFlight := w.inFlight + {id}, runs := w.runs + multiset{id})
      else w.(db := db)
    case Succeed(id, snapshot, winner) =>
      var db := Apply(w.db, Complete(id, snapshot, winner));
      if id in db.rows && db.rows[id].status.Succeeded? then w.(db := db, inFlight := w.inFlight - {id})
      else w.(db := db)
    case Retry(id, at, code) => w.(db := Apply(w.db, ScheduleRetry(id, at, code)), inFlight := w.inFlight - {id})
    case Refuse(id, status, code) =>
      w.(db := Apply(w.db, TerminalFailure(id, status, code)), inFlight := w.inFlight - {id})
    case Abandon(id) => w.(inFlight := w.inFlight - {id}, losses := w.losses + multiset{id})
    case Crash => w.(inFlight := {}, losses := w.losses + multiset(w.inFlight))
    case Restart => w.(db := Apply(w.db, Recover))
    case Schedule(now) => w.(db := Apply(w.db, ActivateDue(now)))
  }

  predicate Run(worlds: seq<World>, steps: seq<Step>) {
    && |worlds| == |steps| + 1
    && worlds[0] == START
    && forall i :: 0 <= i < |steps| ==> Enabled(worlds[i], steps[i]) && worlds[i + 1] == Next(worlds[i], steps[i])
  }

  function PhaseOf(status: Status): Protocol.Phase {
    match status
    case Queued => Protocol.Phase.Queued
    case Scheduled => Protocol.Waiting
    case RetryScheduled => Protocol.Waiting
    case Running => Protocol.Phase.Running
    case _ => Protocol.Done
  }

  /** A sync as a job of the protocol. */
  function View(w: World, id: SyncId): Protocol.Job
    requires id in w.db.rows
  {
    var row := w.db.rows[id];
    Protocol.Job(PhaseOf(row.status), row.attempts, row.maxAttempts, w.db.events[Event(id, SyncRecovered, 0)],
                 id in w.inFlight, w.runs[id], w.losses[id])
  }

  /** What a sync that does not exist yet has not left behind. */
  predicate Absent(w: World, id: SyncId) {
    && id !in w.db.rows && id !in w.inFlight
    && w.runs[id] == w.losses[id] == w.db.events[Event(id, SyncRecovered, 0)] == 0
  }

  ghost predicate WorldInv(w: World) {
    forall id :: Ready(w, id)
  }

  predicate Ready(w: World, id: SyncId) {
    if id in w.db.rows then Protocol.Inv(View(w, id)) else Absent(w, id)
  }

  /** From `w` to `w'` the sync makes a step of the protocol, or comes into being as a new job. */
  predicate Refines(w: World, w': World, id: SyncId, crashFree: bool) {
    if id in w.db.rows then
      && id in w'.db.rows
      && Protocol.Step(View(w, id), View(w', id))
      && (crashFree ==> Protocol.CrashFreeStep(View(w, id), View(w', id)))
    else if id in w'.db.rows then Protocol.New(View(w', id))
    else Absent(w', id)
  }

  predicate IsCrash(s: Step) {
    s.Abandon? || s.Crash? || s.Restart?
  }

  /** Every step of the world is a step of every job in it, and creates only new jobs. */
  lemma StepRefines(w: World, s: Step, id: SyncId)
    requires Enabled(w, s) && Ready(w, id)
    ensures Refines(w, Next(w, s), id, !IsCrash(s))
  {
    hide Apply, RowAfter;
    match s {
      case Submit(_, _) => SubmitRefines(w, s, id);
      case Begin(_, _) => BeginRefines(w, s, id);
      case Succeed(_, _, _) => SucceedRefines(w, s, id);
      case Retry(_, _, _) => SettleRefines(w, s, id);
      case Refuse(_, _, _) => SettleRefines(w, s, id);
      case Abandon(_) =>
      case Crash =>
      case Restart => RestartRefines(w, s, id);
      case Schedule(_) => ScheduleRefines(w, s, id);
    }
  }

  lemma SubmitRefines(w: World, s: Step, id: SyncId)
    requires s.Submit? && Enabled(w, s) && Ready(w, id)
    ensures Refines(w, Next(w, s), id, true)
  {
    hide Apply;
    EffectOf(w.db, Reserve(s.request, s.now), id);
  }

  lemma BeginRefines(w: World, s: Step, id: SyncId)
    requires s.Begin? && Enabled(w, s) && Ready(w, id)
    ensures Refines(w, Next(w, s), id, true)
  {
    hide Apply;
    EffectOf(w.db, Claim(s.id, s.now), id);
    EffectOf(w.db, Claim(s.id, s.now), s.id);
  }

  lemma SucceedRefines(w: World, s: Step, id: SyncId)
    requires s.Succeed? && Enabled(w, s) && Ready(w, id)
    ensures Refines(w, Next(w, s), id, true)
  {
    hide Apply, MayInsert;
    EffectOf(w.db, Complete(s.id, s.newSnapshot, s.winner), id);
    EffectOf(w.db, Complete(s.id, s.newSnapshot, s.winner), s.id);
  }

  lemma SettleRefines(w: World, s: Step, id: SyncId)
    requires (s.Retry? || s.Refuse?) && Enabled(w, s) && Ready(w, id)
    ensures Refines(w, Next(w, s), id, true)
  {
    hide Apply;
    var op := if s.Retry? then ScheduleRetry(s.id, s.retryAt, s.code) else TerminalFailure(s.id, s.status, s.code);
    EffectOf(w.db, op, id);
  }

  lemma RestartRefines(w: World, s: Step, id: SyncId)
    requires s.Restart? && Enabled(w, s) && Ready(w, id)
    ensures Refines(w, Next(w, s), id, false)
  {
    hide Apply;
    EffectOf(w.db, Recover, id);
  }

  lemma ScheduleRefines(w: World, s: Step, id: SyncId)
    requires s.Schedule? && Enabled(w, s) && Ready(w, id)
    ensures Refines(w, Next(w, s), id, true)
  {
    hide Apply;
    EffectOf(w.db, ActivateDue(s.now), id);
  }

  lemma EffectOf(db: Db, op: Op, id: SyncId)
    ensures id in Apply(db, op).rows <==> id in db.rows || Creates(db, op, id)
    ensures id in db.rows ==> Apply(db, op).rows[id] == RowAfter(db, op, id)
    ensures Creates(db, op, id) ==> Apply(db, op).rows[id] == NewRow(op.request, op.now)
    ensures Apply(db, op).events[Event(id, SyncRecovered, 0)] ==
      db.events[Event(id, SyncRecovered, 0)] +
        if op.Recover? && id in db.rows && db.rows[id].status.Running? then 1 else 0
  {
    RowEffect(db, op, id);
    RecoveredEffect(db, op, id);
  }

  lemma NextReady(w: World, s: Step, id: SyncId)
    requires Enabled(w, s) && Ready(w, id)
    ensures Ready(Next(w, s), id)
  {
    hide Apply, Next, Enabled;
    StepRefines(w, s, id);
    var w' := Next(w, s);
    if id in w.db.rows {
      Protocol.InvHolds(View(w, id), View(w', id));
    } else if id in w'.db.rows {
      Protocol.InvHolds(View(w', id), View(w', id));
    }
  }

  lemma {:induction false} WorldInvHolds(worlds: seq<World>, steps: seq<Step>, i: nat)
    requires Run(worlds, steps) && i < |worlds|
    ensures WorldInv(worlds[i])
  {
    hide Apply, Next, Enabled;
    if i > 0 {
      WorldInvHolds(worlds, steps, i - 1);
      var w := worlds[i - 1];
      assert worlds[i - 1 + 1] == Next(w, steps[i - 1]);
      forall id ensures Ready(worlds[i], id) {
        assert Ready(w, id);
        NextReady(w, steps[i - 1], id);
      }
    }
  }

  /**
   * Over every run with one `process` call in flight per sync, crashes anywhere and recovery only at a restart: the
   * attempts exceed the maximum by at most the number of recoveries, and the calls that reach the provider exceed it by
   * at most the recoveries and the calls that were lost.
   */
  lemma AttemptsAreBounded(worlds: seq<World>, steps: seq<Step>, i: nat, id: SyncId)
    requires Run(worlds, steps) && i < |worlds| && id in worlds[i].db.rows
    ensures
      var w, row := worlds[i], worlds[i].db.rows[id];
      var recoveries := w.db.events[Event(id, SyncRecovered, 0)];
      && row.attempts <= row.maxAttempts + recoveries
      && w.runs[id] <= row.maxAttempts + recoveries + w.losses[id]
      && (id in w.inFlight ==> row.status.Running?)
  {
    hide Apply, Next, Enabled;
    WorldInvHolds(worlds, steps, i);
    assert Ready(worlds[i], id);
  }

  lemma TerminalStep(w: World, s: Step, id: SyncId)
    requires Enabled(w, s) && Ready(w, id)
    requires id in w.db.rows && w.db.rows[id].status.Terminal()
    ensures id in Next(w, s).db.rows && Next(w, s).db.rows[id] == w.db.rows[id]
  {
    hide Apply;
    match s {
      case Submit(r, now) => RowEffect(w.db, Reserve(r, now), id);
      case Begin(x, now) => RowEffect(w.db, Claim(x, now), id);
      case Succeed(x, snapshot, winner) => RowEffect(w.db, Complete(x, snapshot, winner), id);
      case Retry(x, at, code) => RowEffect(w.db, ScheduleRetry(x, at, code), id);
      case Refuse(x, status, code) => RowEffect(w.db, TerminalFailure(x, status, code), id);
      case Abandon(x) =>
      case Crash =>
      case Restart => RowEffect(w.db, Recover, id);
      case Schedule(now) => RowEffect(w.db, ActivateDue(now), id);
    }
  }

  /** A sync that has reached a terminal status keeps its whole row for the rest of the run. */
  lemma {:induction false} TerminalIsFinal(worlds: seq<World>, steps: seq<Step>, i: nat, j: nat, id: SyncId)
    requires Run(worlds, steps) && i <= j < |worlds|
    requires id in worlds[i].db.rows && worlds[i].db.rows[id].status.Terminal()
    ensures id in worlds[j].db.rows && worlds[j].db.rows[id] == worlds[i].db.rows[id]
    decreases j - i
  {
    hide Apply, Next, Enabled;
    if i < j {
      TerminalIsFinal(worlds, steps, i, j - 1, id);
      WorldInvHolds(worlds, steps, j - 1);
      assert Ready(worlds[j - 1], id);
      assert worlds[j - 1 + 1] == Next(worlds[j - 1], steps[j - 1]);
      TerminalStep(worlds[j - 1], steps[j - 1], id);
    }
  }

  /** When a waiting sync may go on. */
  function DueTime(row: Row): Option<Time> {
    if row.status.RetryScheduled? then row.nextRetryAt else row.scheduledFor
  }

  /**
   * A sync that waits for its start or its retry is left alone until then: the step that first moves it is a claim or a
   * scheduler pass at or after its time. A restart does not bring it forward.
   */
  lemma WaitingIsRespected(worlds: seq<World>, steps: seq<Step>, i: nat, id: SyncId)
    requires Run(worlds, steps) && i < |steps| && id in worlds[i].db.rows
    requires worlds[i].db.rows[id].status.RetryScheduled? || worlds[i].db.rows[id].status.Scheduled?
    ensures id in worlds[i + 1].db.rows
    ensures worlds[i + 1].db.rows[id] != worlds[i].db.rows[id] ==>
      && (steps[i].Begin? || steps[i].Schedule?)
      && (DueTime(worlds[i].db.rows[id]).None? || DueTime(worlds[i].db.rows[id]).value <= steps[i].now)
  {
    hide Apply;
    WorldInvHolds(worlds, steps, i);
    assert Ready(worlds[i], id);
    var w, s := worlds[i], steps[i];
    match s {
      case Submit(r, now) => RowEffect(w.db, Reserve(r, now), id);
      case Begin(x, now) => RowEffect(w.db, Claim(x, now), id);
      case Succeed(x, snapshot, winner) => RowEffect(w.db, Complete(x, snapshot, winner), id);
      case Retry(x, at, code) => RowEffect(w.db, ScheduleRetry(x, at, code), id);
      case Refuse(x, status, code) => RowEffect(w.db, TerminalFailure(x, status, code), id);
      case Abandon(x) =>
      case Crash =>
      case Restart => RowEffect(w.db, Recover, id);
      case Schedule(now) => RowEffect(w.db, ActivateDue(now), id);
    }
  }

  /** The jobs a sync goes through from world `i` on. */
  function Jobs(worlds: seq<World>, i: nat, id: SyncId): seq<Protocol.Job>
    requires i < |worlds| && forall j :: i <= j < |worlds| ==> id in worlds[j].db.rows
  {
    seq(|worlds| - i, j requires 0 <= j < |worlds| - i => View(worlds[i + j], id))
  }

  predicate CrashFree(steps: seq<Step>) {
    forall i :: 0 <= i < |steps| ==> !IsCrash(steps[i])
  }

  lemma {:induction false} RowsStay(worlds: seq<World>, steps: seq<Step>, i: nat, j: nat, id: SyncId)
    requires Run(worlds, steps) && i <= j < |worlds| && id in worlds[i].db.rows
    ensures id in worlds[j].db.rows
    decreases j - i
  {
    hide Apply, Next, Enabled;
    if i < j {
      RowsStay(worlds, steps, i, j - 1, id);
      WorldInvHolds(worlds, steps, j - 1);
      assert Ready(worlds[j - 1], id);
      assert worlds[j - 1 + 1] == Next(worlds[j - 1], steps[j - 1]);
      StepRefines(worlds[j - 1], steps[j - 1], id);
    }
  }

  /**
   * Without crashes, a sync created at step `i` reaches the provider at most `maxAttempts` times and its job changes
   * at most `4 * maxAttempts + 2` times: it cannot go on for ever.
   */
  lemma CrashFreeSyncsEnd(worlds: seq<World>, steps: seq<Step>, i: nat, id: SyncId)
    requires Run(worlds, steps) && CrashFree(steps)
    requires 0 < i < |worlds| && id !in worlds[i - 1].db.rows && id in worlds[i].db.rows
    ensures forall j :: i <= j < |worlds| ==> id in worlds[j].db.rows
    ensures
      var last, max := worlds[|worlds| - 1], worlds[i].db.rows[id].maxAttempts;
      && last.runs[id] == last.db.rows[id].attempts <= max
      && Protocol.Changes(Jobs(worlds, i, id)) <= 4 * max + 2
  {
    hide Apply, Next, Enabled, View, Protocol.CrashFreeStep, Protocol.Step;
    forall j | i <= j < |worlds| ensures id in worlds[j].db.rows {
      RowsStay(worlds, steps, i, j, id);
    }
    RunStepRefines(worlds, steps, i - 1, id);
    var jobs := Jobs(worlds, i, id);
    forall k | 0 <= k < |jobs| - 1 ensures Protocol.CrashFreeStep(jobs[k], jobs[k + 1]) {
      RunStepRefines(worlds, steps, i + k, id);
    }
    Protocol.CrashFreeJobsEnd(jobs);
    LastView(worlds[|worlds| - 1], id);
    LastView(worlds[i], id);
  }

  lemma LastView(w: World, id: SyncId)
    requires id in w.db.rows
    ensures View(w, id).runs == w.runs[id]
    ensures View(w, id).attempts == w.db.rows[id].attempts
    ensures View(w, id).maxAttempts == w.db.rows[id].maxAttempts
  {
  }

  lemma RunStepRefines(worlds: seq<World>, steps: seq<Step>, i: nat, id: SyncId)
    requires Run(worlds, steps) && i < |steps|
    ensures Refines(worlds[i], worlds[i + 1], id, !IsCrash(steps[i]))
  {
    hide Apply, Next, Enabled, Refines, Ready;
    WorldInvHolds(worlds, steps, i);
    assert Ready(worlds[i], id);
    assert worlds[i + 1] == Next(worlds[i], steps[i]);
    StepRefines(worlds[i], steps[i], id);
  }
}
