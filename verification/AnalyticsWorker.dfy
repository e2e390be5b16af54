// The analytics processor (`analytics_service.py`): one `process` call from claim to outcome.
module AnalyticsWorker {
  import opened Wrappers
  import opened AnalyticsStore
  import opened AnalyticsRuns
  import opened Backoff

  /** How the call goes on once the sync is claimed: what the repositories, the settings and the provider answer. */
  datatype Outcome =
    | PublicationMissing
    | ProviderUnsupported
    | FixtureDisabled
    | Collected(newSnapshot: SnapshotId, winner: bool)
    | ProviderNotConfigured
    | RateLimited(retryAfterSeconds: int)
    | ProviderRaised

  datatype Settings = Settings(retryBase: nat, retryCap: nat)

  /** The repository call that ends the attempt. */
  function FinalOp(id: SyncId, attempt: nat, outcome: Outcome, c: Settings, later: Time): Op {
    match outcome
    case PublicationMissing => TerminalFailure(id, Failed, "ANALYTICS_PUBLICATION_MISSING")
    case ProviderUnsupported => TerminalFailure(id, NotConfigured, "ANALYTICS_PROVIDER_NOT_CONFIGURED")
    case FixtureDisabled => TerminalFailure(id, NotConfigured, "ANALYTICS_FIXTURE_DISABLED")
    case ProviderNotConfigured => TerminalFailure(id, NotConfigured, "ANALYTICS_PROVIDER_NOT_CONFIGURED")
    case RateLimited(after) => ScheduleRetry(id, later + Delay(c.retryBase, c.retryCap, attempt, after),
      "ANALYTICS_RATE_LIMITED")
    case ProviderRaised => ScheduleRetry(id, later + Delay(c.retryBase, c.retryCap, attempt, 0),
      "ANALYTICS_PROVIDER_ERROR")
    case Collected(snapshot, winner) => Complete(id, snapshot, winner)
  }

  function StepOf(op: Op): Step {
    match op
    case TerminalFailure(id, status, code) => Refuse(id, status, code)
    case ScheduleRetry(id, at, code) => Retry(id, at, code)
    case Complete(id, snapshot, winner) => Succeed(id, snapshot, winner)
    case Reserve(request, now) => Submit(request, now)
    case Claim(id, now) => Begin(id, now)
    case Recover => Restart
    case ActivateDue(now) => Schedule(now)
  }

  class AnalyticsSyncProcessor {
    const repository: AnalyticsRepository
    const settings: Settings

    constructor (repository: AnalyticsRepository, settings: Settings)
      ensures this.repository == repository && this.settings == settings
    {
      this.repository := repository;
      this.settings := settings;
    }

    /**
     * Claims the sync, works on it when the claim says it is running, and records the outcome. The last clause gives
     * the row at the end: `row` is the one the provider is called for. `EndsSpelledOut` says how it ends.
     */
    method Process(id: SyncId, now: Time, later: Time, outcome: Outcome) returns (result: Result<Row, RepositoryError>)
      modifies repository
      ensures
        var claimed := Apply(old(repository.Contents()), Claim(id, now));
        repository.Contents() ==
          if id !in claimed.rows || !claimed.rows[id].status.Running? then claimed
          else Concluded(claimed, id, outcome, settings, later)
      ensures result == if id in repository.rows then Success(repository.rows[id]) else Failure(MissingSync)
      ensures repository.rows.Keys == old(repository.rows).Keys
      ensures forall other :: other in repository.rows && other != id ==>
        repository.rows[other] == old(repository.rows)[other]
      ensures id in repository.rows ==>
        var before, end := old(repository.rows)[id], repository.rows[id];
        var taken :=
          || ((before.status.Queued? || before.status.Scheduled?)
              && (before.scheduledFor.None? || before.scheduledFor.value <= now))
          || (before.status.RetryScheduled? && (before.nextRetryAt.None? || before.nextRetryAt.value <= now));
        var row :=
          if taken then before.(status := Running, attempts := before.attempts + 1, nextRetryAt := None) else before;
        if row.status.Running? then EndsAs(end, row, id, old(repository.snapshots), outcome, settings, later)
        else end == row
    {
      hide Apply, Concluded, Claims, RowAfter, EndsAs;
      RowEffect(repository.Contents(), Claim(id, now), id);
      var claimed := repository.ClaimSync(id, now);
      if claimed.None? {
        return Failure(MissingSync);
      }
      if !claimed.value.status.Running? {
        return Success(claimed.value);
      }
      ConcludedRow(repository.Contents(), id, outcome, settings, later);
      result := Conclude(id, claimed.value.attempts, later, outcome);
    }

    method Conclude(id: SyncId, attempt: nat, later: Time, outcome: Outcome)
      returns (result: Result<Row, RepositoryError>)
      requires id in repository.rows && repository.rows[id].attempts == attempt
      modifies repository
      ensures repository.Contents() == Concluded(old(repository.Contents()), id, outcome, settings, later)
      ensures id in repository.rows && result == Success(repository.rows[id])
    {
      hide Apply, RowAfter, Delay;
      RowEffect(repository.Contents(), FinalOp(id, attempt, outcome, settings, later), id);
      var asked := if outcome.RateLimited? then outcome.retryAfterSeconds else 0;
      var delay := Delay(settings.retryBase, settings.retryCap, attempt, asked);
      match outcome {
        case PublicationMissing =>
          result := repository.TerminalFailureSync(id, Failed, "ANALYTICS_PUBLICATION_MISSING");
        case ProviderUnsupported =>
          result := repository.TerminalFailureSync(id, NotConfigured, "ANALYTICS_PROVIDER_NOT_CONFIGURED");
        case FixtureDisabled =>
          result := repository.TerminalFailureSync(id, NotConfigured, "ANALYTICS_FIXTURE_DISABLED");
        case ProviderNotConfigured =>
          result := repository.TerminalFailureSync(id, NotConfigured, "ANALYTICS_PROVIDER_NOT_CONFIGURED");
        case RateLimited(_) =>
          result := repository.ScheduleRetrySync(id, later + delay, "ANALYTICS_RATE_LIMITED");
        case ProviderRaised =>
          result := repository.ScheduleRetrySync(id, later + delay, "ANALYTICS_PROVIDER_ERROR");
        case Collected(_, _) =>
          result := StoreCollected(id, attempt, later, outcome);
      }
    }

    /** Stores what was collected; when that is refused, the sync is tried again. */
    method StoreCollected(id: SyncId, attempt: nat, later: Time, outcome: Outcome)
      returns (result: Result<Row, RepositoryError>)
      requires id in repository.rows && repository.rows[id].attempts == attempt && outcome.Collected?
      modifies repository
      ensures repository.Contents() == Concluded(old(repository.Contents()), id, outcome, settings, later)
      ensures id in repository.rows && result == Success(repository.rows[id])
    {
      hide Apply, RowAfter, Delay;
      RowEffect(repository.Contents(), FinalOp(id, attempt, outcome, settings, later), id);
      result := repository.CompleteSync(id, outcome.newSnapshot, outcome.winner);
      if result.Failure? {
        var delay := Delay(settings.retryBase, settings.retryCap, attempt, 0);
        RowEffect(repository.Contents(), ScheduleRetry(id, later + delay, "ANALYTICS_PROVIDER_ERROR"), id);
        result := repository.ScheduleRetrySync(id, later + delay, "ANALYTICS_PROVIDER_ERROR");
      }
    }
  }

  /** How the row `row`, for which the provider was called, ends. */
  predicate EndsAs(end: Row, row: Row, id: SyncId, snapshots: map<SnapshotId, SyncId>, outcome: Outcome, c: Settings,
      later: Time)
  {
    var asked := if outcome.RateLimited? then outcome.retryAfterSeconds else 0;
    var retryAt := later + Delay(c.retryBase, c.retryCap, row.attempts, asked);
    match outcome
    case PublicationMissing => end == Refused(row, Failed, "ANALYTICS_PUBLICATION_MISSING")
    case ProviderUnsupported => end == Refused(row, NotConfigured, "ANALYTICS_PROVIDER_NOT_CONFIGURED")
    case FixtureDisabled => end == Refused(row, NotConfigured, "ANALYTICS_FIXTURE_DISABLED")
    case ProviderNotConfigured => end == Refused(row, NotConfigured, "ANALYTICS_PROVIDER_NOT_CONFIGURED")
    case RateLimited(_) => end == Retried(row, retryAt, "ANALYTICS_RATE_LIMITED")
    case ProviderRaised => end == Retried(row, retryAt, "ANALYTICS_PROVIDER_ERROR")
    case Collected(snapshot, _) =>
      if snapshot !in snapshots && forall s :: s in snapshots ==> snapshots[s] != id
      then end == row.(status := Succeeded, snapshot := Some(snapshot), failure := None)
      else end == Retried(row, retryAt, "ANALYTICS_PROVIDER_ERROR")
  }

  /**
   * The end of a row for which the provider was called, spelled out: what cannot be repaired ends the sync, what was
   * collected is stored if it can be, and everything else is tried again while there are attempts left.
   */
  lemma EndsSpelledOut(end: Row, row: Row, id: SyncId, snapshots: map<SnapshotId, SyncId>, outcome: Outcome,
      c: Settings, later: Time)
    requires EndsAs(end, row, id, snapshots, outcome, c, later)
    ensures
      var stored :=
        outcome.Collected? && outcome.newSnapshot !in snapshots && forall s :: s in snapshots ==> snapshots[s] != id;
      var backoff := c.retryBase * Pow2(if row.attempts == 0 then 0 else row.attempts - 1);
      if outcome.PublicationMissing? then
        end == row.(status := Failed, nextRetryAt := None, failure := Some("ANALYTICS_PUBLICATION_MISSING"))
      else if outcome.FixtureDisabled? then
        end == row.(status := NotConfigured, nextRetryAt := None, failure := Some("ANALYTICS_FIXTURE_DISABLED"))
      else if outcome.ProviderUnsupported? || outcome.ProviderNotConfigured? then
        end == row.(status := NotConfigured, nextRetryAt := None,
                    failure := Some("ANALYTICS_PROVIDER_NOT_CONFIGURED"))
      else if stored then end == row.(status := Succeeded, snapshot := Some(outcome.newSnapshot), failure := None)
      else
        var code := if outcome.RateLimited? then "ANALYTICS_RATE_LIMITED" else "ANALYTICS_PROVIDER_ERROR";
        var asked := if outcome.RateLimited? then Greatest(outcome.retryAfterSeconds, backoff) else backoff;
        var retryAt := later + Least(c.retryCap, asked);
        if row.attempts < row.maxAttempts then
          end == row.(status := RetryScheduled, nextRetryAt := Some(retryAt), failure := Some(code))
        else end == row.(status := Failed, nextRetryAt := None, failure := Some(code))
  {
    hide Pow2;
  }

  lemma ConcludedRow(db: Db, id: SyncId, outcome: Outcome, c: Settings, later: Time)
    requires id in db.rows && db.rows[id].status.Running?
    ensures
      var end := Concluded(db, id, outcome, c, later);
      && id in end.rows && end.rows == db.rows[id := end.rows[id]]
      && EndsAs(end.rows[id], db.rows[id], id, db.snapshots, outcome, c, later)
  {
    hide Apply, Delay;
    var op := FinalOp(id, db.rows[id].attempts, outcome, c, later);
    RowsEffect(db, op);
    if outcome.Collected? {
      RowsEffect(Apply(db, op), FinalOp(id, db.rows[id].attempts, ProviderRaised, c, later));
    }
  }

  lemma RowsEffect(db: Db, op: Op)
    requires op.Complete? || op.ScheduleRetry? || op.TerminalFailure?
    requires op.id in db.rows
    ensures Apply(db, op).rows == db.rows[op.id := RowAfter(db, op, op.id)]
  {
    hide RowsAfter, RowAfter;
    OnlyRow(db, op);
  }

  function Refused(row: Row, status: Status, code: string): Row {
    row.(status := status, nextRetryAt := None, failure := Some(code))
  }

  function Retried(row: Row, retryAt: Time, code: string): Row {
    if row.attempts < row.maxAttempts
    then row.(status := RetryScheduled, nextRetryAt := Some(retryAt), failure := Some(code))
    else row.(status := Failed, nextRetryAt := None, failure := Some(code))
  }

  /** The database once the attempt is over; a completion that is refused becomes a retry. */
  function Concluded(db: Db, id: SyncId, outcome: Outcome, c: Settings, later: Time): Db
    requires id in db.rows
  {
    var attempt := db.rows[id].attempts;
    var ended := Apply(db, FinalOp(id, attempt, outcome, c, later));
    if outcome.Collected? && !(id in ended.rows && ended.rows[id].status.Succeeded?)
    then Apply(ended, FinalOp(id, attempt, ProviderRaised, c, later)) else ended
  }

  /**
   * An uninterrupted call is a run of the protocol: it begins, and then takes the step or two that record the outcome
   * and leave the sync in nobody's hands.
   */
  lemma ConcludedIsRun(w: World, id: SyncId, outcome: Outcome, c: Settings, later: Time)
    returns (steps: seq<Step>, end: World)
    requires id in w.inFlight && Ready(w, id)
    ensures id in w.db.rows && 1 <= |steps| <= 2
    ensures Enabled(w, steps[0])
    ensures |steps| == 1 ==> end == Next(w, steps[0])
    ensures |steps| == 2 ==> Enabled(Next(w, steps[0]), steps[1]) && end == Next(Next(w, steps[0]), steps[1])
    ensures end.db == Concluded(w.db, id, outcome, c, later) && end.inFlight == w.inFlight - {id}
  {
    hide Apply, Delay, Next, Enabled, StepOf;
    var attempt := w.db.rows[id].attempts;
    var op := FinalOp(id, attempt, outcome, c, later);
    StepEnds(w, id, op);
    steps, end := [StepOf(op)], Next(w, StepOf(op));
    if id in end.inFlight {
      var retry := StepOf(FinalOp(id, attempt, ProviderRaised, c, later));
      StepEnds(end, id, FinalOp(id, attempt, ProviderRaised, c, later));
      steps, end := steps + [retry], Next(end, retry);
    }
  }

  /** The step of a recorded outcome, which ends the call unless it is a completion that is refused. */
  lemma StepEnds(w: World, id: SyncId, op: Op)
    requires id in w.inFlight && id in w.db.rows
    requires op.Complete? || op.ScheduleRetry? ||
      (op.TerminalFailure? && (op.status.Failed? || op.status.NotConfigured?))
    requires op.id == id
    ensures Enabled(w, StepOf(op))
    ensures
      var end := Next(w, StepOf(op));
      && end.db == Apply(w.db, op) && id in end.db.rows
      && end.inFlight == if op.Complete? && !end.db.rows[id].status.Succeeded? then w.inFlight else w.inFlight - {id}
  {
    hide Apply, MayInsert;
    RowEffect(w.db, op, id);
  }
}
