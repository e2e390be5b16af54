// The tables of the analytics sync (`analytics_repository.py`) and its methods, each one transaction.
module AnalyticsStore {
  import opened Wrappers

  type SyncId = string
  type SnapshotId = string
  type Time = int

  datatype Status = Queued | Scheduled | Running | RetryScheduled | Succeeded | Failed | NotConfigured | Cancelled {
    predicate Terminal() {
      Succeeded? || Failed? || NotConfigured? || Cancelled?
    }

    predicate Claimable() {
      Queued? || Scheduled? || RetryScheduled?
    }
  }

  datatype Row = Row(
    project: string,
    keyHash: string,
    fingerprint: string,
    status: Status,
    attempts: nat,
    maxAttempts: nat,
    scheduledFor: Option<Time>,
    nextRetryAt: Option<Time>,
    snapshot: Option<SnapshotId>,
    failure: Option<string>)

  datatype Kind =
    | SyncScheduled | SyncQueued | SyncStarted | AnalyticsUpdated | WinnerDetected
    | SyncRetryScheduled | SyncFailed | SyncNotConfigured | SyncCancelled | SyncRecovered | SyncDueQueued

  /** `attempt` is the attempt count the event reports, and 0 when it reports none. */
  datatype Event = Event(sync: SyncId, kind: Kind, attempt: nat)

  /** The snapshot table maps a snapshot to its sync. The event table has no order. */
  datatype Db = Db(rows: map<SyncId, Row>, snapshots: map<SnapshotId, SyncId>, events: multiset<Event>)

  const EMPTY := Db(map[], map[], multiset{})

  // ----- What each transaction does

  datatype Request = Request(
    id: SyncId, project: string, keyHash: string, fingerprint: string, scheduledFor: Option<Time>, maxAttempts: nat)

  datatype Op =
    | Reserve(request: Request, now: Time)
    | Claim(id: SyncId, now: Time)
    | Complete(id: SyncId, newSnapshot: SnapshotId, winner: bool)
    | ScheduleRetry(id: SyncId, retryAt: Time, code: string)
    | TerminalFailure(id: SyncId, status: Status, code: string)
    | Recover
    | ActivateDue(now: Time)

  predicate Due(row: Row, now: Time) {
    var dueAt := if row.status.RetryScheduled? then row.nextRetryAt else row.scheduledFor;
    dueAt.None? || dueAt.value <= now
  }

  /** What the scheduler selects: only rows with a recorded time, not later than `now`. */
  predicate Activates(row: Row, now: Time) {
    || (row.status.Scheduled? && row.scheduledFor.Some? && row.scheduledFor.value <= now)
    || (row.status.RetryScheduled? && row.nextRetryAt.Some? && row.nextRetryAt.value <= now)
  }

  predicate HasKey(rows: map<SyncId, Row>, project: string, keyHash: string) {
    exists id :: id in rows && rows[id].project == project && rows[id].keyHash == keyHash
  }

  /** The unique constraint on the sync of a snapshot, and the primary key. */
  predicate MayInsert(db: Db, snapshot: SnapshotId, id: SyncId) {
    snapshot !in db.snapshots && forall s :: s in db.snapshots ==> db.snapshots[s] != id
  }

  function NewRow(r: Request, now: Time): Row {
    var status := if r.scheduledFor.Some? && r.scheduledFor.value > now then Scheduled else Queued;
    Row(r.project, r.keyHash, r.fingerprint, status, 0, r.maxAttempts, r.scheduledFor, None, None, None)
  }

  function FailureKind(status: Status): Kind {
    match status
    case NotConfigured => SyncNotConfigured
    case Cancelled => SyncCancelled
    case _ => SyncFailed
  }

  /** The claim takes effect on this sync. */
  predicate Claims(db: Db, op: Op, id: SyncId) {
    op.Claim? && op.id == id && id in db.rows && db.rows[id].status.Claimable() && Due(db.rows[id], op.now)
  }

  predicate Creates(db: Db, op: Op, id: SyncId) {
    op.Reserve? && op.request.id == id && id !in db.rows && !HasKey(db.rows, op.request.project, op.request.keyHash)
  }

  /** The completion takes effect on this sync. */
  predicate Completes(db: Db, op: Op, id: SyncId) {
    op.Complete? && op.id == id && id in db.rows && db.rows[id].status.Running? && MayInsert(db, op.newSnapshot, id)
  }

  /** The row after the transaction, for a sync that exists before it. */
  function RowAfter(db: Db, op: Op, id: SyncId): Row
    requires id in db.rows
  {
    var row := db.rows[id];
    match op
    case Reserve(_, _) => row
    case Claim(_, now) =>
      if Claims(db, op, id) then row.(status := Running, attempts := row.attempts + 1, nextRetryAt := None) else row
    case Complete(x, snapshot, _) =>
      if Completes(db, op, id) then row.(status := Succeeded, snapshot := Some(snapshot), failure := None) else row
    case ScheduleRetry(x, at, code) =>
      if x != id then row
      else if row.attempts >= row.maxAttempts then row.(status := Failed, nextRetryAt := None, failure := Some(code))
      else row.(status := RetryScheduled, nextRetryAt := Some(at), failure := Some(code))
    case TerminalFailure(x, status, code) =>
      if x == id && (status.Failed? || status.NotConfigured? || status.Cancelled?)
      then row.(status := status, nextRetryAt := None, failure := Some(code)) else row
    case Recover => if row.status.Running? then row.(status := Queued) else row
    case ActivateDue(now) => if Activates(row, now) then row.(status := Queued) else row
  }

  /** What the transaction adds to the event table. */
  function Recorded(db: Db, op: Op): multiset<Event> {
    match op
    case Reserve(r, now) =>
      if !Creates(db, op, r.id) then multiset{}
      else multiset{Event(r.id, if NewRow(r, now).status.Scheduled? then SyncScheduled else SyncQueued, 0)}
    case Claim(id, _) =>
      if Claims(db, op, id) then multiset{Event(id, SyncStarted, db.rows[id].attempts + 1)} else multiset{}
    case Complete(id, _, winner) =>
      if !Completes(db, op, id) then multiset{}
      else
        multiset{Event(id, AnalyticsUpdated, 0)} + if winner then multiset{Event(id, WinnerDetected, 0)} else multiset{}
    case ScheduleRetry(id, _, _) =>
      if id !in db.rows then multiset{}
      else
        multiset{Event(id, if RowAfter(db, op, id).status.Failed? then SyncFailed else SyncRetryScheduled,
                       db.rows[id].attempts)}
    case TerminalFailure(id, status, _) =>
      if id in db.rows && (status.Failed? || status.NotConfigured? || status.Cancelled?)
      then multiset{Event(id, FailureKind(status), 0)} else multiset{}
    case Recover => multiset(Notes(RunningIds(db.rows), SyncRecovered))
    case ActivateDue(now) => multiset(Notes(DueIds(db.rows, now), SyncDueQueued))
  }

  function RowsAfter(db: Db, op: Op): map<SyncId, Row> {
    var kept := map id | id in db.rows :: RowAfter(db, op, id);
    if op.Reserve? && Creates(db, op, op.request.id) then kept[op.request.id := NewRow(op.request, op.now)] else kept
  }

  function Apply(db: Db, op: Op): Db {
    Db(RowsAfter(db, op),
       if op.Complete? && Completes(db, op, op.id) then db.snapshots[op.newSnapshot := op.id] else db.snapshots,
       db.events + Recorded(db, op))
  }

  function RunningIds(rows: map<SyncId, Row>): set<SyncId> {
    set id | id in rows && rows[id].status.Running?
  }

  function DueIds(rows: map<SyncId, Row>, now: Time): set<SyncId> {
    set id | id in rows && Activates(rows[id], now)
  }

  function Requeued(rows: map<SyncId, Row>, ids: set<SyncId>): map<SyncId, Row> {
    map id | id in rows :: if id in ids then rows[id].(status := Queued) else rows[id]
  }

  /** One event of the given kind for every identifier. */
  function Notes(ids: set<SyncId>, kind: Kind): set<Event> {
    set id | id in ids :: Event(id, kind, 0)
  }

  lemma OneMoreRequeued(rows: map<SyncId, Row>, ids: set<SyncId>, id: SyncId)
    requires id in rows && id !in ids
    ensures id in Requeued(rows, ids) && Requeued(rows, ids)[id] == rows[id]
    ensures Requeued(rows, ids + {id}) == Requeued(rows, ids)[id := rows[id].(status := Queued)]
  {
  }

  lemma NothingRequeued(rows: map<SyncId, Row>, kind: Kind)
    ensures Requeued(rows, {}) == rows && Notes({}, kind) == {}
  {
  }

  lemma OneMoreNote(ids: set<SyncId>, id: SyncId, kind: Kind)
    requires id !in ids
    ensures multiset(Notes(ids + {id}, kind)) == multiset(Notes(ids, kind)) + multiset{Event(id, kind, 0)}
  {
    assert Notes(ids + {id}, kind) == Notes(ids, kind) + {Event(id, kind, 0)};
  }

  // ----- What a transaction does to one sync

  /** A transaction on one sync leaves the other rows alone. */
  lemma OnlyRow(db: Db, op: Op)
    requires op.Claim? || op.Complete? || op.ScheduleRetry? || op.TerminalFailure?
    ensures RowsAfter(db, op) == if op.id in db.rows then db.rows[op.id := RowAfter(db, op, op.id)] else db.rows
  {
    hide MayInsert, Due;
  }

  lemma ClaimEffect(db: Db, op: Op)
    requires op.Claim?
    ensures !Claims(db, op, op.id) ==> RowsAfter(db, op) == db.rows && Recorded(db, op) == multiset{}
    ensures Claims(db, op, op.id) ==>
      && RowsAfter(db, op) == db.rows[op.id := RowAfter(db, op, op.id)]
      && Recorded(db, op) == multiset{Event(op.id, SyncStarted, RowAfter(db, op, op.id).attempts)}
  {
    hide Due;
    OnlyRow(db, op);
  }

  lemma CompleteEffect(db: Db, op: Op)
    requires op.Complete?
    ensures !Completes(db, op, op.id) ==> RowsAfter(db, op) == db.rows && Recorded(db, op) == multiset{}
    ensures Completes(db, op, op.id) ==>
      && RowsAfter(db, op) == db.rows[op.id := RowAfter(db, op, op.id)]
      && Recorded(db, op) == multiset{Event(op.id, AnalyticsUpdated, 0)} +
           if op.winner then multiset{Event(op.id, WinnerDetected, 0)} else multiset{}
  {
    hide MayInsert;
    OnlyRow(db, op);
  }

  lemma NewRowOnly(db: Db, op: Op)
    requires op.Reserve?
    ensures HasKey(db.rows, op.request.project, op.request.keyHash) <==>
      exists id :: id in db.rows && db.rows[id].project == op.request.project &&
        db.rows[id].keyHash == op.request.keyHash
    ensures RowsAfter(db, op) ==
      if Creates(db, op, op.request.id) then db.rows[op.request.id := NewRow(op.request, op.now)] else db.rows
  {
    hide MayInsert, Due;
  }

  lemma RowEffect(db: Db, op: Op, id: SyncId)
    ensures id in Apply(db, op).rows <==> id in db.rows || Creates(db, op, id)
    ensures id in db.rows ==> Apply(db, op).rows[id] == RowAfter(db, op, id)
    ensures Creates(db, op, id) ==> Apply(db, op).rows[id] == NewRow(op.request, op.now)
  {
  }

  lemma NoteCount(ids: set<SyncId>, kind: Kind, e: Event)
    ensures multiset(Notes(ids, kind))[e] == if e.kind == kind && e.attempt == 0 && e.sync in ids then 1 else 0
  {
    assert e in Notes(ids, kind) <==> e.kind == kind && e.attempt == 0 && e.sync in ids;
  }

  lemma NoteCounts(ids: set<SyncId>, kind: Kind)
    ensures forall e ::
      multiset(Notes(ids, kind))[e] == if e.kind == kind && e.attempt == 0 && e.sync in ids then 1 else 0
  {
    forall e
      ensures multiset(Notes(ids, kind))[e] == if e.kind == kind && e.attempt == 0 && e.sync in ids then 1 else 0
    {
      NoteCount(ids, kind, e);
    }
  }

  lemma StartedEffect(db: Db, op: Op, id: SyncId, k: nat)
    ensures Apply(db, op).events[Event(id, SyncStarted, k)] ==
      db.events[Event(id, SyncStarted, k)] + if Claims(db, op, id) && k == db.rows[id].attempts + 1 then 1 else 0
  {
    match op
    case Recover => NoteCount(RunningIds(db.rows), SyncRecovered, Event(id, SyncStarted, k));
    case ActivateDue(now) => NoteCount(DueIds(db.rows, now), SyncDueQueued, Event(id, SyncStarted, k));
    case _ =>
  }

  lemma RecoveredEffect(db: Db, op: Op, id: SyncId)
    ensures Apply(db, op).events[Event(id, SyncRecovered, 0)] ==
      db.events[Event(id, SyncRecovered, 0)] +
        if op.Recover? && id in db.rows && db.rows[id].status.Running? then 1 else 0
  {
    match op
    case Recover => NoteCount(RunningIds(db.rows), SyncRecovered, Event(id, SyncRecovered, 0));
    case ActivateDue(now) => NoteCount(DueIds(db.rows, now), SyncDueQueued, Event(id, SyncRecovered, 0));
    case _ =>
  }

  lemma UpdatedEffect(db: Db, op: Op, id: SyncId)
    ensures Apply(db, op).events[Event(id, AnalyticsUpdated, 0)] ==
      db.events[Event(id, AnalyticsUpdated, 0)] + if Completes(db, op, id) then 1 else 0
  {
    hide MayInsert;
    match op
    case Recover => NoteCount(RunningIds(db.rows), SyncRecovered, Event(id, AnalyticsUpdated, 0));
    case ActivateDue(now) => NoteCount(DueIds(db.rows, now), SyncDueQueued, Event(id, AnalyticsUpdated, 0));
    case _ =>
  }

  lemma SnapshotEffect(db: Db, op: Op)
    ensures Apply(db, op).snapshots ==
      if op.Complete? && Completes(db, op, op.id) then db.snapshots[op.newSnapshot := op.id] else db.snapshots
  {
    hide MayInsert, HasKey, Requeued, Notes, Due, Activates;
  }

  // ----- The repository

  datatype RepositoryError = IdempotencyConflict | IntegrityError | MissingSync | NotRunning | InvalidStatus

  class AnalyticsRepository {
    var rows: map<SyncId, Row>
    var snapshots: map<SnapshotId, SyncId>
    var events: multiset<Event>

    ghost function Contents(): Db
      reads this
    {
      Db(rows, snapshots, events)
    }

    constructor ()
      ensures Contents() == EMPTY
    {
      rows, snapshots, events := map[], map[], multiset{};
    }

    method ReserveSync(r: Request, now: Time) returns (result: Result<(Row, bool), RepositoryError>)
      modifies this
      ensures Contents() == Apply(old(Contents()), Reserve(r, now))
      ensures result.Success? && !result.value.1 ==>
        var later := r.scheduledFor.Some? && r.scheduledFor.value > now;
        && r.id !in old(rows)
        && rows == old(rows)[r.id :=
             Row(r.project, r.keyHash, r.fingerprint, if later then Scheduled else Queued, 0, r.maxAttempts,
                 r.scheduledFor, None, None, None)]
        && snapshots == old(snapshots)
        && events == old(events) + multiset{Event(r.id, if later then SyncScheduled else SyncQueued, 0)}
      ensures result.Failure? || result.value.1 ==> Contents() == old(Contents())
      ensures !HasKey(old(rows), r.project, r.keyHash) ==>
        result == if r.id in old(rows) then Failure(IntegrityError) else Success((NewRow(r, now), false))
      ensures HasKey(old(rows), r.project, r.keyHash) ==>
        exists id :: id in rows && rows[id].project == r.project && rows[id].keyHash == r.keyHash &&
          result == if rows[id].fingerprint == r.fingerprint
            then Success((rows[id], true)) else Failure(IdempotencyConflict)
    {
      hide RowsAfter, HasKey, MayInsert, Due, Notes;
      NewRowOnly(Contents(), Reserve(r, now));
      if id :| id in rows && rows[id].project == r.project && rows[id].keyHash == r.keyHash {
        return if rows[id].fingerprint != r.fingerprint
          then Failure(IdempotencyConflict) else Success((rows[id], true));
      }
      if r.id in rows {
        return Failure(IntegrityError);
      }
      var row := NewRow(r, now);
      rows := rows[r.id := row];
      events := events + multiset{Event(r.id, if row.status.Scheduled? then SyncScheduled else SyncQueued, 0)};
      result := Success((row, false));
    }

    method ClaimSync(id: SyncId, now: Time) returns (row: Option<Row>)
      modifies this
      ensures Contents() == Apply(old(Contents()), Claim(id, now))
      ensures
        var taken :=
          && id in old(rows)
          && var before := old(rows)[id];
             || ((before.status.Queued? || before.status.Scheduled?)
                 && (before.scheduledFor.None? || before.scheduledFor.value <= now))
             || (before.status.RetryScheduled? && (before.nextRetryAt.None? || before.nextRetryAt.value <= now));
        if taken then
          var before := old(rows)[id];
          && rows == old(rows)[id := before.(status := Running, attempts := before.attempts + 1, nextRetryAt := None)]
          && snapshots == old(snapshots)
          && events == old(events) + multiset{Event(id, SyncStarted, before.attempts + 1)}
        else Contents() == old(Contents())
      ensures row == if id in rows then Some(rows[id]) else None
    {
      hide RowsAfter, Recorded, MayInsert;
      ClaimEffect(Contents(), Claim(id, now));
      if id !in rows {
        return None;
      }
      var before := rows[id];
      if !before.status.Claimable() {
        return Some(before);
      }
      var dueAt := if before.status.RetryScheduled? then before.nextRetryAt else before.scheduledFor;
      if dueAt.Some? && dueAt.value > now {
        return Some(before);
      }
      rows := rows[id := before.(status := Running, attempts := before.attempts + 1, nextRetryAt := None)];
      events := events + multiset{Event(id, SyncStarted, before.attempts + 1)};
      row := Some(rows[id]);
    }

    method CompleteSync(id: SyncId, snapshot: SnapshotId, winner: bool) returns (result: Result<Row, RepositoryError>)
      modifies this
      ensures Contents() == Apply(old(Contents()), Complete(id, snapshot, winner))
      ensures
        if id in old(rows) && old(rows)[id].status.Running? && snapshot !in old(snapshots)
           && (forall s :: s in old(snapshots) ==> old(snapshots)[s] != id) then
          && rows == old(rows)[id := old(rows)[id].(status := Succeeded, snapshot := Some(snapshot), failure := None)]
          && snapshots == old(snapshots)[snapshot := id]
          && events == old(events) + multiset{Event(id, AnalyticsUpdated, 0)} +
               if winner then multiset{Event(id, WinnerDetected, 0)} else multiset{}
        else Contents() == old(Contents())
      ensures result.Success? <==> id in rows && rows[id].status.Succeeded?
      ensures result.Success? ==> result.value == rows[id]
      ensures result.Failure? ==>
        result.error ==
          if id !in rows then MissingSync else if rows[id].status.Running? then IntegrityError else NotRunning
    {
      hide RowsAfter, Recorded, HasKey, Due;
      CompleteEffect(Contents(), Complete(id, snapshot, winner));
      if id !in rows {
        return Failure(MissingSync);
      }
      if rows[id].status.Succeeded? {
        return Success(rows[id]);
      }
      if !rows[id].status.Running? {
        return Failure(NotRunning);
      }
      if snapshot in snapshots || exists s :: s in snapshots && snapshots[s] == id {
        return Failure(IntegrityError);
      }
      snapshots := snapshots[snapshot := id];
      rows := rows[id := rows[id].(status := Succeeded, snapshot := Some(snapshot), failure := None)];
      events := events + multiset{Event(id, AnalyticsUpdated, 0)} +
        if winner then multiset{Event(id, WinnerDetected, 0)} else multiset{};
      result := Success(rows[id]);
    }

    method ScheduleRetrySync(id: SyncId, retryAt: Time, code: string) returns (result: Result<Row, RepositoryError>)
      modifies this
      ensures Contents() == Apply(old(Contents()), ScheduleRetry(id, retryAt, code))
      ensures id !in old(rows) ==> Contents() == old(Contents())
      ensures id in old(rows) ==>
        var before := old(rows)[id];
        && snapshots == old(snapshots)
        && if before.attempts < before.maxAttempts then
             && rows == old(rows)[id :=
                  before.(status := RetryScheduled, nextRetryAt := Some(retryAt), failure := Some(code))]
             && events == old(events) + multiset{Event(id, SyncRetryScheduled, before.attempts)}
           else
             && rows == old(rows)[id := before.(status := Failed, nextRetryAt := None, failure := Some(code))]
             && events == old(events) + multiset{Event(id, SyncFailed, before.attempts)}
      ensures result == if id in rows then Success(rows[id]) else Failure(MissingSync)
    {
      hide RowsAfter;
      OnlyRow(Contents(), ScheduleRetry(id, retryAt, code));
      if id !in rows {
        return Failure(MissingSync);
      }
      var row := rows[id];
      var kind := SyncRetryScheduled;
      if row.attempts >= row.maxAttempts {
        row := row.(status := Failed, nextRetryAt := None);
        kind := SyncFailed;
      } else {
        row := row.(status := RetryScheduled, nextRetryAt := Some(retryAt));
      }
      rows := rows[id := row.(failure := Some(code))];
      events := events + multiset{Event(id, kind, row.attempts)};
      result := Success(rows[id]);
    }

    method TerminalFailureSync(id: SyncId, status: Status, code: string) returns (result: Result<Row, RepositoryError>)
      modifies this
      ensures Contents() == Apply(old(Contents()), TerminalFailure(id, status, code))
      ensures result.Failure? ==> Contents() == old(Contents())
      ensures result.Success? ==>
        && id in old(rows)
        && rows == old(rows)[id := old(rows)[id].(status := status, nextRetryAt := None, failure := Some(code))]
        && snapshots == old(snapshots)
        && var kind :=
             if status.NotConfigured? then SyncNotConfigured
             else if status.Cancelled? then SyncCancelled else SyncFailed;
           events == old(events) + multiset{Event(id, kind, 0)}
      ensures result ==
        if !(status.Failed? || status.NotConfigured? || status.Cancelled?) then Failure(InvalidStatus)
        else if id in rows then Success(rows[id]) else Failure(MissingSync)
    {
      hide RowsAfter;
      OnlyRow(Contents(), TerminalFailure(id, status, code));
      if !(status.Failed? || status.NotConfigured? || status.Cancelled?) {
        return Failure(InvalidStatus);
      }
      if id !in rows {
        return Failure(MissingSync);
      }
      rows := rows[id := rows[id].(status := status, nextRetryAt := None, failure := Some(code))];
      events := events + multiset{Event(id, FailureKind(status), 0)};
      result := Success(rows[id]);
    }

    /** The loop of both methods below: every selected row goes back to `Queued`, with an event. */
    method Requeue(ids: set<SyncId>, kind: Kind)
      requires forall id :: id in ids ==> id in rows
      modifies this
      ensures rows == Requeued(old(rows), ids) && snapshots == old(snapshots)
      ensures events == old(events) + multiset(Notes(ids, kind))
    {
      hide Requeued, Notes;
      var rest := ids;
      ghost var done: set<SyncId> := {};
      NothingRequeued(rows, kind);
      while rest != {}
        invariant rest <= ids && snapshots == old(snapshots)
        invariant done == ids - rest
        invariant rows == Requeued(old(rows), done)
        invariant events == old(events) + multiset(Notes(done, kind))
        decreases |rest|
      {
        var id :| id in rest;
        assert id in old(rows) && id !in done;
        OneMoreRequeued(old(rows), done, id);
        OneMoreNote(done, id, kind);
        rows := rows[id := rows[id].(status := Queued)];
        events := events + multiset{Event(id, kind, 0)};
        done := done + {id};
        rest := rest - {id};
      }
      assert done == ids;
    }

    /** Resets what was left running; returns the identifiers to queue again. */
    method RecoverIncompleteSyncIds(now: Time) returns (ids: set<SyncId>)
      modifies this
      ensures Contents() == Apply(old(Contents()), Recover)
      ensures snapshots == old(snapshots) && rows.Keys == old(rows).Keys
      ensures forall id :: id in rows ==>
        rows[id] == if old(rows)[id].status.Running? then old(rows)[id].(status := Queued) else old(rows)[id]
      ensures forall e ::
        events[e] == old(events)[e] +
          if e.kind == SyncRecovered && e.attempt == 0 && e.sync in old(rows) && old(rows)[e.sync].status.Running?
          then 1 else 0
      ensures forall id :: id in ids <==>
        && id in old(rows)
        && var row := old(rows)[id];
           || row.status.Queued? || row.status.Running?
           || (row.status.Scheduled? && row.scheduledFor.Some? && row.scheduledFor.value <= now)
           || (row.status.RetryScheduled? && row.nextRetryAt.Some? && row.nextRetryAt.value <= now)
    {
      ids := set id | id in rows && (rows[id].status.Queued? || rows[id].status.Running? || Activates(rows[id], now));
      hide HasKey, Due, MayInsert, Notes;
      ghost var running := RunningIds(rows);
      Requeue(RunningIds(rows), SyncRecovered);
      NoteCounts(running, SyncRecovered);
    }

    method ActivateDueSyncIds(now: Time) returns (ids: set<SyncId>)
      modifies this
      ensures Contents() == Apply(old(Contents()), ActivateDue(now))
      ensures snapshots == old(snapshots) && rows.Keys == old(rows).Keys
      ensures forall id :: id in rows ==>
        rows[id] == if id in ids then old(rows)[id].(status := Queued) else old(rows)[id]
      ensures forall e ::
        events[e] == old(events)[e] + if e.kind == SyncDueQueued && e.attempt == 0 && e.sync in ids then 1 else 0
      ensures forall id :: id in ids <==>
        && id in old(rows)
        && var row := old(rows)[id];
           || (row.status.Scheduled? && row.scheduledFor.Some? && row.scheduledFor.value <= now)
           || (row.status.RetryScheduled? && row.nextRetryAt.Some? && row.nextRetryAt.value <= now)
    {
      ids := DueIds(rows, now);
      Requeue(ids, SyncDueQueued);
      NoteCounts(ids, SyncDueQueued);
    }
  }
}
