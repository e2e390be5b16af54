// Webhook deliveries (`bridge_repository.py`, `bridge_service.py`): the delivery table, its methods, and the runs in
// which one worker at a time processes a delivery.
module WebhookDeliveries {
  import opened Wrappers
  import opened Backoff
  import Protocol = JobProtocol

  type DeliveryId = string
  type Time = int

  datatype Status = Queued | Running | RetryScheduled | Succeeded | Failed | NotConfigured {
    predicate Terminal() {
      Succeeded? || Failed? || NotConfigured?
    }
  }

  /** What a successful delivery leaves behind: the signature it was sent with and the answer. */
  datatype Receipt = Receipt(keyId: string, signedAt: int, bodySha: string, signature: string, responseStatus: int,
    external: bool)

  datatype Row = Row(
    status: Status,
    attempts: nat,
    maxAttempts: nat,
    nextRetryAt: Option<Time>,
    failure: Option<string>,
    receipt: Option<Receipt>)

  type Table = map<DeliveryId, Row>

  datatype Op =
    | Insert(id: DeliveryId, disabled: bool, maxAttempts: nat)
    | Claim(id: DeliveryId)
    | Finish(id: DeliveryId, receipt: Receipt)
    | FailOrRetry(id: DeliveryId, code: string, retryAt: Time)
    | Recover
    | ActivateDue(now: Time)

  predicate Activates(row: Row, now: Time) {
    row.status.RetryScheduled? && (row.nextRetryAt.None? || row.nextRetryAt.value <= now)
  }

  /** The row after the transaction, for a delivery that exists before it. */
  function RowAfter(id: DeliveryId, row: Row, op: Op): Row {
    match op
    case Insert(_, _, _) => row
    case Claim(x) =>
      if x == id && row.status.Queued?
        then row.(status := Running, attempts := row.attempts + 1, nextRetryAt := None) else row
    case Finish(x, receipt) =>
      if x == id then row.(status := Succeeded, failure := None, receipt := Some(receipt)) else row
    case FailOrRetry(x, code, at) =>
      if x != id then row
      else if row.attempts >= row.maxAttempts then row.(status := Failed, failure := Some(code), nextRetryAt := None)
      else row.(status := RetryScheduled, failure := Some(code), nextRetryAt := Some(at))
    case Recover => if row.status.Running? then row.(status := Queued) else row
    case ActivateDue(now) => if Activates(row, now) then row.(status := Queued, nextRetryAt := None) else row
  }

  function NewRow(disabled: bool, maxAttempts: nat): Row {
    Row(if disabled then NotConfigured else Queued, 0, maxAttempts, None,
        if disabled then Some("WEBHOOK_NOT_CONFIGURED") else None, None)
  }

  function Apply(table: Table, op: Op): Table {
    var kept := map id | id in table :: RowAfter(id, table[id], op);
    if op.Insert? && op.id !in table then kept[op.id := NewRow(op.disabled, op.maxAttempts)] else kept
  }

  // ----- The repository

  class DeliveryRepository {
    var table: Table

    constructor ()
      ensures table == map[]
    {
      table := map[];
    }

    method InsertDelivery(id: DeliveryId, disabled: bool, maxAttempts: nat)
      requires id !in table
      modifies this
      ensures table == Apply(old(table), Insert(id, disabled, maxAttempts))
      ensures table == old(table)[id :=
        if disabled then Row(NotConfigured, 0, maxAttempts, None, Some("WEBHOOK_NOT_CONFIGURED"), None)
        else Row(Queued, 0, maxAttempts, None, None, None)]
    {
      table := table[id := NewRow(disabled, maxAttempts)];
      assert table == Apply(old(table), Insert(id, disabled, maxAttempts));
    }

    method ClaimDelivery(id: DeliveryId) returns (row: Option<Row>)
      modifies this
      ensures table == Apply(old(table), Claim(id))
      ensures table ==
        if id in old(table) && old(table)[id].status.Queued? then
          var before := old(table)[id];
          old(table)[id := before.(status := Running, attempts := before.attempts + 1, nextRetryAt := None)]
        else old(table)
      ensures row == if id in table then Some(table[id]) else None
    {
      if id in table && table[id].status.Queued? {
        table := table[id := table[id].(status := Running, attempts := table[id].attempts + 1, nextRetryAt := None)];
      }
      assert table == Apply(old(table), Claim(id));
      row := if id in table then Some(table[id]) else None;
    }

    method FinishDelivery(id: DeliveryId, receipt: Receipt) returns (row: Option<Row>)
      modifies this
      ensures table == Apply(old(table), Finish(id, receipt))
      ensures table ==
        if id in old(table) then
          old(table)[id := old(table)[id].(status := Succeeded, failure := None, receipt := Some(receipt))]
        else old(table)
      ensures row == if id in table then Some(table[id]) else None
    {
      if id in table {
        table := table[id := table[id].(status := Succeeded, failure := None, receipt := Some(receipt))];
      }
      assert table == Apply(old(table), Finish(id, receipt));
      row := if id in table then Some(table[id]) else None;
    }

    method FailOrRetryDelivery(id: DeliveryId, code: string, retryAt: Time) returns (row: Option<Row>)
      modifies this
      ensures table == Apply(old(table), FailOrRetry(id, code, retryAt))
      ensures id !in old(table) ==> table == old(table)
      ensures id in old(table) ==>
        var before := old(table)[id];
        table == old(table)[id :=
          if before.attempts < before.maxAttempts
          then before.(status := RetryScheduled, failure := Some(code), nextRetryAt := Some(retryAt))
          else before.(status := Failed, failure := Some(code), nextRetryAt := None)]
      ensures row == if id in table then Some(table[id]) else None
    {
      if id in table {
        var exhausted := table[id].attempts >= table[id].maxAttempts;
        table := table[id := table[id].(
          status := if exhausted then Failed else RetryScheduled,
          failure := Some(code),
          nextRetryAt := if exhausted then None else Some(retryAt))];
      }
      assert table == Apply(old(table), FailOrRetry(id, code, retryAt));
      row := if id in table then Some(table[id]) else None;
    }

    method RecoverIncompleteDeliveryIds() returns (ids: set<DeliveryId>)
      modifies this
      ensures table == Apply(old(table), Recover)
      ensures table == map id | id in old(table) ::
        if old(table)[id].status.Running? then old(table)[id].(status := Queued) else old(table)[id]
      ensures ids == set id | id in old(table) && (old(table)[id].status.Queued? || old(table)[id].status.Running?)
    {
      ids := set id | id in table && (table[id].status.Queued? || table[id].status.Running?);
      UpdateRows(ids, Recover);
    }

    method ActivateDueDeliveryIds(now: Time) returns (ids: set<DeliveryId>)
      modifies this
      ensures table == Apply(old(table), ActivateDue(now))
      ensures table == map id | id in old(table) ::
        if id in ids then old(table)[id].(status := Queued, nextRetryAt := None) else old(table)[id]
      ensures ids == set id | id in old(table) && old(table)[id].status.RetryScheduled?
        && (old(table)[id].nextRetryAt.None? || old(table)[id].nextRetryAt.value <= now)
    {
      ids := set id | id in table && table[id].status.RetryScheduled?
        && (table[id].nextRetryAt.None? || table[id].nextRetryAt.value <= now);
      UpdateRows(ids, ActivateDue(now));
    }

    /** The loop over the selected rows. */
    method UpdateRows(ids: set<DeliveryId>, op: Op)
      requires op.Recover? || op.ActivateDue?
      requires forall id :: id in ids ==> id in table
      requires forall id :: id in table && id !in ids ==> RowAfter(id, table[id], op) == table[id]
      modifies this
      ensures table == Apply(old(table), op)
    {
      var rest := ids;
      while rest != {}
        invariant rest <= ids
        invariant table.Keys == old(table).Keys
        invariant forall id :: id in table ==>
          table[id] == if id in rest then old(table)[id] else RowAfter(id, old(table)[id], op)
        decreases |rest|
      {
        var id :| id in rest;
        table := table[id := RowAfter(id, table[id], op)];
        rest := rest - {id};
      }
    }
  }

  // ----- The processor

  /** How a call goes on once the delivery is claimed. */
  datatype Outcome = EventMissing | Delivered(receipt: Receipt) | DeliveryRaised

  datatype Settings = Settings(retryBase: nat, retryCap: nat)

  function FinalOp(id: DeliveryId, attempt: nat, outcome: Outcome, c: Settings, later: Time): Op {
    match outcome
    case EventMissing => FailOrRetry(id, "WEBHOOK_EVENT_MISSING", later)
    case Delivered(receipt) => Finish(id, receipt)
    case DeliveryRaised => FailOrRetry(id, "WEBHOOK_DELIVERY_FAILED",
      later + Delay(c.retryBase, c.retryCap, attempt, 0))
  }

  class WebhookDeliveryProcessor {
    const repository: DeliveryRepository
    const settings: Settings

    constructor (repository: DeliveryRepository, settings: Settings)
      ensures this.repository == repository && this.settings == settings
    {
      this.repository := repository;
      this.settings := settings;
    }

    /** The last clause gives the row at the end: `row` is the one the provider is called for. */
    method Process(id: DeliveryId, later: Time, outcome: Outcome) returns (row: Option<Row>)
      modifies repository
      ensures
        var claimed := Apply(old(repository.table), Claim(id));
        repository.table ==
          if id !in claimed || !claimed[id].status.Running? then claimed
          else Apply(claimed, FinalOp(id, claimed[id].attempts, outcome, settings, later))
      ensures row == if id in repository.table then Some(repository.table[id]) else None
      ensures repository.table.Keys == old(repository.table).Keys
      ensures forall other :: other in repository.table && other != id ==>
        repository.table[other] == old(repository.table)[other]
      ensures id in repository.table ==>
        var before, end := old(repository.table)[id], repository.table[id];
        var row :=
          if before.status.Queued?
          then before.(status := Running, attempts := before.attempts + 1, nextRetryAt := None) else before;
        var backoff := settings.retryBase * Pow2(if row.attempts == 0 then 0 else row.attempts - 1);
        if !row.status.Running? then end == row
        else if outcome.Delivered? then
          end == row.(status := Succeeded, failure := None, receipt := Some(outcome.receipt))
        else
          var code := if outcome.EventMissing? then "WEBHOOK_EVENT_MISSING" else "WEBHOOK_DELIVERY_FAILED";
          var wait := if outcome.EventMissing? then 0 else Least(settings.retryCap, backoff);
          if row.attempts < row.maxAttempts then
            end == row.(status := RetryScheduled, failure := Some(code), nextRetryAt := Some(later + wait))
          else end == row.(status := Failed, failure := Some(code), nextRetryAt := None)
    {
      hide Apply, Pow2;
      row := repository.ClaimDelivery(id);
      if row.None? || !row.value.status.Running? {
        return;
      }
      var attempt := row.value.attempts;
      match outcome {
        case EventMissing => row := repository.FailOrRetryDelivery(id, "WEBHOOK_EVENT_MISSING", later);
        case Delivered(receipt) => row := repository.FinishDelivery(id, receipt);
        case DeliveryRaised =>
          var delay := Delay(settings.retryBase, settings.retryCap, attempt, 0);
          row := repository.FailOrRetryDelivery(id, "WEBHOOK_DELIVERY_FAILED", later + delay);
      }
    }
  }

  // ----- One worker a delivery

  datatype World = World(
    table: Table,
    inFlight: set<DeliveryId>,
    runs: multiset<DeliveryId>,
    losses: multiset<DeliveryId>,
    recoveries: multiset<DeliveryId>)

  const START := World(map[], {}, multiset{}, multiset{}, multiset{})

  datatype Step =
    | Create(insert: Op) | Begin(id: DeliveryId) | End(op: Op) | Abandon(id: DeliveryId)
    | Crash | Restart | Schedule(now: Time)

  predicate Enabled(w: World, s: Step) {
    match s
    case Create(op) => op.Insert? && op.maxAttempts >= 1 && op.id !in w.table
    case Begin(id) => id !in w.inFlight
    case End(op) => (op.Finish? || op.FailOrRetry?) && op.id in w.inFlight
    case Abandon(id) => id in w.inFlight
    case Crash => true
    case Restart => w.inFlight == {}
    case Schedule(_) => true
  }

  function RunningIds(table: Table): set<DeliveryId> {
    set id | id in table && table[id].status.Running?
  }

  function Next(w: World, s: Step): World
    requires Enabled(w, s)
  {
    match s
    case Create(op) => w.(table := Apply(w.table, op))
    case Begin(id) =>
      var table := Apply(w.table, Claim(id));
      if id in table && table[id].status.Running? then
        w.(table := table, inFlight := w.inFlight + {id}, runs := w.runs + multiset{id})
      else w.(table := table)
    case End(op) => w.(table := Apply(w.table, op), inFlight := w.inFlight - {op.id})
    case Abandon(id) => w.(inFlight := w.inFlight - {id}, losses := w.losses + multiset{id})
    case Crash => w.(inFlight := {}, losses := w.losses + multiset(w.inFlight))
    case Restart =>
      w.(table := Apply(w.table, Recover), recoveries := w.recoveries + multiset(RunningIds(w.table)))
    case Schedule(now) => w.(table := Apply(w.table, ActivateDue(now)))
  }

  predicate Run(worlds: seq<World>, steps: seq<Step>) {
    && |worlds| == |steps| + 1
    && worlds[0] == START
    && forall i :: 0 <= i < |steps| ==> Enabled(worlds[i], steps[i]) && worlds[i + 1] == Next(worlds[i], steps[i])
  }

  function PhaseOf(status: Status): Protocol.Phase {
    match status
    case Queued => Protocol.Phase.Queued
    case Running => Protocol.Phase.Running
    case RetryScheduled => Protocol.Waiting
    case _ => Protocol.Done
  }

  function View(w: World, id: DeliveryId): Protocol.Job
    requires id in w.table
  {
    Protocol.Job(PhaseOf(w.table[id].status), w.table[id].attempts, w.table[id].maxAttempts, w.recoveries[id],
                 id in w.inFlight, w.runs[id], w.losses[id])
  }

  /** Only a succeeded delivery has a receipt, only a waiting one a retry time, and what failed says why. */
  predicate Shaped(row: Row) {
    && (row.status.Succeeded? <==> row.receipt.Some?)
    && (row.status.RetryScheduled? <==> row.nextRetryAt.Some?)
    && (row.status.Succeeded? ==> row.failure.None?)
    && (row.status.Failed? || row.status.NotConfigured? || row.status.RetryScheduled? ==> row.failure.Some?)
  }

  predicate Ready(w: World, id: DeliveryId) {
    if id in w.table then Protocol.Inv(View(w, id)) && Shaped(w.table[id])
    else id !in w.inFlight && w.runs[id] == w.losses[id] == w.recoveries[id] == 0
  }

  predicate IsCrash(s: Step) {
    s.Abandon? || s.Crash? || s.Restart?
  }

  /** From `w` to `w'` the delivery makes a step of the protocol, or comes into being as a new job. */
  predicate Refines(w: World, w': World, id: DeliveryId, crashFree: bool) {
    && Ready(w', id)
    && if id in w.table then
         && id in w'.table
         && Protocol.Step(View(w, id), View(w', id))
         && (crashFree ==> Protocol.CrashFreeStep(View(w, id), View(w', id)))
         && (w.table[id].status.Terminal() ==> w'.table[id] == w.table[id])
       else id in w'.table ==> Protocol.New(View(w', id))
  }

  /** Every step is a step of the protocol for every delivery, and creates only new jobs. */
  lemma StepRefines(w: World, s: Step, id: DeliveryId)
    requires Enabled(w, s) && Ready(w, id)
    ensures Refines(w, Next(w, s), id, !IsCrash(s))
  {
    hide Apply;
    match s {
      case Create(op) => RowEffect(w.table, op, id);
      case Begin(_) => WorkerRefines(w, s, id);
      case End(_) => WorkerRefines(w, s, id);
      case Abandon(_) =>
      case Crash =>
      case Restart => RowEffect(w.table, Recover, id);
      case Schedule(now) => RowEffect(w.table, ActivateDue(now), id);
    }
  }

  lemma WorkerRefines(w: World, s: Step, id: DeliveryId)
    requires (s.Begin? || s.End?) && Enabled(w, s) && Ready(w, id)
    ensures Refines(w, Next(w, s), id, true)
  {
    hide Apply;
    var op := if s.Begin? then Claim(s.id) else s.op;
    RowEffect(w.table, op, id);
    RowEffect(w.table, op, op.id);
  }

  lemma RowEffect(table: Table, op: Op, id: DeliveryId)
    ensures id in Apply(table, op) <==> id in table || (op.Insert? && op.id == id)
    ensures id in table ==> Apply(table, op)[id] == RowAfter(id, table[id], op)
    ensures id !in table && op.Insert? && op.id == id ==> Apply(table, op)[id] == NewRow(op.disabled, op.maxAttempts)
  {
  }

  lemma {:induction false} RunIsReady(worlds: seq<World>, steps: seq<Step>, i: nat, id: DeliveryId)
    requires Run(worlds, steps) && i < |worlds|
    ensures Ready(worlds[i], id)
  {
    hide Next, Enabled, Protocol.Step, Protocol.CrashFreeStep;
    if i > 0 {
      RunIsReady(worlds, steps, i - 1, id);
      assert worlds[i - 1 + 1] == Next(worlds[i - 1], steps[i - 1]);
      StepRefines(worlds[i - 1], steps[i - 1], id);
    }
  }

  /**
   * Over every run with one `process` call in flight per delivery, crashes anywhere and recovery only at a restart:
   * the attempts exceed the maximum by at most the recoveries, a terminal delivery never changes again, and a delivery
   * has a receipt exactly when it succeeded.
   */
  lemma {:induction false} DeliveriesAreBounded(worlds: seq<World>, steps: seq<Step>, i: nat, j: nat, id: DeliveryId)
    requires Run(worlds, steps) && i <= j < |worlds| && id in worlds[i].table
    ensures id in worlds[j].table
    ensures worlds[j].table[id].attempts <= worlds[j].table[id].maxAttempts + worlds[j].recoveries[id]
    ensures worlds[j].runs[id] <= worlds[j].table[id].maxAttempts + worlds[j].recoveries[id] + worlds[j].losses[id]
    ensures worlds[i].table[id].status.Terminal() ==> worlds[j].table[id] == worlds[i].table[id]
    ensures Shaped(worlds[j].table[id])
    decreases j - i
  {
    hide Next, Enabled, Protocol.Step, Protocol.CrashFreeStep;
    RunIsReady(worlds, steps, j, id);
    if i < j {
      DeliveriesAreBounded(worlds, steps, i, j - 1, id);
      RunIsReady(worlds, steps, j - 1, id);
      assert worlds[j - 1 + 1] == Next(worlds[j - 1], steps[j - 1]);
      StepRefines(worlds[j - 1], steps[j - 1], id);
    }
  }

  function Jobs(worlds: seq<World>, i: nat, id: DeliveryId): seq<Protocol.Job>
    requires i < |worlds| && forall j :: i <= j < |worlds| ==> id in worlds[j].table
  {
    seq(|worlds| - i, j requires 0 <= j < |worlds| - i => View(worlds[i + j], id))
  }

  /** Without crashes a delivery is attempted at most `maxAttempts` times and comes to rest. */
  lemma CrashFreeDeliveriesEnd(worlds: seq<World>, steps: seq<Step>, i: nat, id: DeliveryId)
    requires Run(worlds, steps) && forall k :: 0 <= k < |steps| ==> !IsCrash(steps[k])
    requires 0 < i < |worlds| && id !in worlds[i - 1].table && id in worlds[i].table
    ensures forall j :: i <= j < |worlds| ==> id in worlds[j].table
    ensures
      var last, max := worlds[|worlds| - 1], worlds[i].table[id].maxAttempts;
      && last.runs[id] == last.table[id].attempts <= max
      && Protocol.Changes(Jobs(worlds, i, id)) <= 4 * max + 2
  {
    hide Next, Enabled, Protocol.Step, Protocol.CrashFreeStep;
    forall j | i <= j < |worlds| ensures id in worlds[j].table {
      DeliveriesAreBounded(worlds, steps, i, j, id);
    }
    RunIsReady(worlds, steps, i - 1, id);
    assert worlds[i - 1 + 1] == Next(worlds[i - 1], steps[i - 1]);
    StepRefines(worlds[i - 1], steps[i - 1], id);
    var jobs := Jobs(worlds, i, id);
    forall k | 0 <= k < |jobs| - 1 ensures Protocol.CrashFreeStep(jobs[k], jobs[k + 1]) {
      RunIsReady(worlds, steps, i + k, id);
      assert worlds[i + k + 1] == Next(worlds[i + k], steps[i + k]);
      StepRefines(worlds[i + k], steps[i + k], id);
    }
    Protocol.CrashFreeJobsEnd(jobs);
    assert jobs[0] == View(worlds[i], id) && jobs[|jobs| - 1] == View(worlds[|worlds| - 1], id);
  }

  // ----- When a terminal status is left

  function After(table: Table, ops: seq<Op>): Table {
    if ops == [] then table else Apply(After(table, ops[..|ops| - 1]), ops[|ops| - 1])
  }

  /** The one transaction that takes a delivery out of a terminal status: a failure with attempts left. */
  predicate Reopens(row: Row, op: Op, id: DeliveryId) {
    op.FailOrRetry? && op.id == id && row.attempts < row.maxAttempts
  }

  predicate IsTerminal(table: Table, id: DeliveryId) {
    id in table && table[id].status.Terminal()
  }

  lemma TerminalIsLeftIff(table: Table, op: Op, id: DeliveryId)
    requires IsTerminal(table, id)
    ensures id in Apply(table, op)
    ensures !IsTerminal(Apply(table, op), id) <==> Reopens(table[id], op, id)
    ensures Apply(table, op)[id].attempts == table[id].attempts
    ensures Apply(table, op)[id].maxAttempts == table[id].maxAttempts
  {
    hide Apply;
    RowEffect(table, op, id);
  }

  /** As long as nothing reopens it, a terminal delivery stays terminal and keeps its attempts. */
  lemma {:induction false} StaysTerminal(table: Table, ops: seq<Op>, id: DeliveryId)
    requires IsTerminal(table, id) && forall n :: 0 <= n < |ops| ==> !Reopens(table[id], ops[n], id)
    ensures IsTerminal(After(table, ops), id)
    ensures After(table, ops)[id].attempts == table[id].attempts
    ensures After(table, ops)[id].maxAttempts == table[id].maxAttempts
  {
    hide Apply;
    if ops != [] {
      var before := ops[..|ops| - 1];
      StaysTerminal(table, before, id);
      TerminalIsLeftIff(After(table, before), ops[|ops| - 1], id);
    }
  }

  /** The first failure with attempts left reopens the delivery. */
  lemma {:induction false} IsReopened(table: Table, ops: seq<Op>, n: nat, id: DeliveryId)
    requires IsTerminal(table, id) && n < |ops| && Reopens(table[id], ops[n], id)
    ensures exists m :: 0 <= m <= |ops| && !IsTerminal(After(table, ops[..m]), id)
    decreases n
  {
    hide Apply;
    if k: nat :| k < n && Reopens(table[id], ops[k], id) {
      IsReopened(table, ops, k, id);
    } else {
      StaysTerminal(table, ops[..n], id);
      TerminalIsLeftIff(After(table, ops[..n]), ops[n], id);
      assert ops[..n + 1][..n] == ops[..n];
      assert !IsTerminal(After(table, ops[..n + 1]), id);
    }
  }

  /**
   * Under every interleaving, a terminal delivery stays terminal exactly when no failure with attempts left follows.
   */
  lemma TerminalStaysIff(table: Table, ops: seq<Op>, id: DeliveryId)
    requires IsTerminal(table, id)
    ensures (forall m :: 0 <= m <= |ops| ==> IsTerminal(After(table, ops[..m]), id)) <==>
      forall n :: 0 <= n < |ops| ==> !Reopens(table[id], ops[n], id)
  {
    hide After, Reopens;
    if n: nat :| n < |ops| && Reopens(table[id], ops[n], id) {
      IsReopened(table, ops, n, id);
    } else {
      forall m | 0 <= m <= |ops| ensures IsTerminal(After(table, ops[..m]), id) {
        StaysTerminal(table, ops[..m], id);
      }
    }
  }

  /**
   * Why the runs above have one worker a delivery. A second worker finds the delivery running and goes on; when it
   * records its failure, the delivery has been finished in the meantime and is sent again.
   */
  lemma StaleFailureReopens(receipt: Receipt) returns (ops: seq<Op>)
    ensures ops == [Insert("d", false, 3), Claim("d"), Claim("d"), Finish("d", receipt), FailOrRetry("d", "late", 9)]
    ensures
      var table := After(map[], ops[..3]);
      "d" in table && table["d"].status.Running? && After(map[], ops[..2]) == table
    ensures IsTerminal(After(map[], ops[..4]), "d")
    ensures
      var table := After(map[], ops);
      "d" in table && table["d"].status.RetryScheduled? && table["d"].receipt == Some(receipt)
  {
    ops := [Insert("d", false, 3), Claim("d"), Claim("d"), Finish("d", receipt), FailOrRetry("d", "late", 9)];
    assert ops[..5] == ops;
    forall n | 0 <= n < 5 ensures After(map[], ops[..n + 1]) == Apply(After(map[], ops[..n]), ops[n]) {
      assert ops[..n + 1][..n] == ops[..n];
    }
    hide Apply;
    var running := Apply(Apply(map[], ops[0]), ops[1]);
    StaleStates(running, receipt);
    assert After(map[], ops[..0]) == map[];
    assert After(map[], ops[..0 + 1]) == Apply(map[], ops[0]) && After(map[], ops[..1 + 1]) == running;
    assert After(map[], ops[..2 + 1]) == Apply(running, ops[2]) == running;
    assert After(map[], ops[..3 + 1]) == Apply(running, ops[3]);
    assert After(map[], ops[..4 + 1]) == Apply(Apply(running, ops[3]), ops[4]);
  }

  lemma StaleStates(running: Table, receipt: Receipt)
    requires running == Apply(Apply(map[], Insert("d", false, 3)), Claim("d"))
    ensures Apply(running, Claim("d")) == running && "d" in running && running["d"].status.Running?
    ensures IsTerminal(Apply(running, Finish("d", receipt)), "d")
    ensures
      var table := Apply(Apply(running, Finish("d", receipt)), FailOrRetry("d", "late", 9));
      "d" in table && table["d"].status.RetryScheduled? && table["d"].receipt == Some(receipt)
  {
    var row := Row(Running, 1, 3, None, None, None);
    assert running == map["d" := row];
    assert Apply(running, Claim("d")) == running;
  }
}
