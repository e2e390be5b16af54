// A durable job, reduced to what bounds its work: where it stands, how often it was claimed and recovered, and
// whether a worker holds it. Analytics syncs and webhook deliveries both refine it.
module JobProtocol {

  datatype Phase = Queued | Waiting | Running | Done

  datatype Job = Job(
    phase: Phase,
    attempts: nat,
    maxAttempts: nat,
    recoveries: nat,
    inFlight: bool,
    runs: nat,       // times a worker went on to do the job's work
    losses: nat)     // times a worker stopped without recording an outcome

  // ----- Steps

  /** A worker picks the job up: a due job is claimed, a job left running is simply worked on again. */
  predicate PickedUp(j: Job, k: Job) {
    && !j.inFlight
    && ((j.phase != Running && j.phase != Done &&
         k == j.(phase := Running, attempts := j.attempts + 1, inFlight := true, runs := j.runs + 1))
        || (j.phase == Running && k == j.(inFlight := true, runs := j.runs + 1)))
  }

  /** The worker that holds the job records its outcome. */
  predicate Settled(j: Job, k: Job) {
    && j.inFlight && j.phase == Running
    && ((j.attempts < j.maxAttempts && k == j.(phase := Waiting, inFlight := false))
        || k == j.(phase := Done, inFlight := false))
  }

  /** The worker stops without recording anything. */
  predicate Lost(j: Job, k: Job) {
    j.inFlight && k == j.(inFlight := false, losses := j.losses + 1)
  }

  /** A restarted worker puts a job that nobody holds back in the queue. */
  predicate Recovered(j: Job, k: Job) {
    !j.inFlight && j.phase == Running && k == j.(phase := Queued, recoveries := j.recoveries + 1)
  }

  predicate Activated(j: Job, k: Job) {
    j.phase == Waiting && k == j.(phase := Queued)
  }

  predicate Step(j: Job, k: Job) {
    k == j || PickedUp(j, k) || Settled(j, k) || Lost(j, k) || Recovered(j, k) || Activated(j, k)
  }

  /** A step of a run in which no worker ever stops early. */
  predicate CrashFreeStep(j: Job, k: Job) {
    k == j || PickedUp(j, k) || Settled(j, k) || Activated(j, k)
  }

  // ----- What every step keeps

  predicate New(j: Job) {
    j.phase != Running && j.maxAttempts >= 1 && j.attempts == j.recoveries == j.runs == j.losses == 0 && !j.inFlight
  }

  predicate Inv(j: Job) {
    && j.maxAttempts >= 1
    && (j.inFlight ==> j.phase == Running)
    && j.attempts <= j.maxAttempts + j.recoveries
    && (j.phase == Queued || j.phase == Waiting ==> j.attempts < j.maxAttempts + j.recoveries)
    && j.runs <= j.attempts + j.losses
    && (j.phase == Running && !j.inFlight ==> j.runs < j.attempts + j.losses)
  }

  lemma InvHolds(j: Job, k: Job)
    ensures New(j) ==> Inv(j)
    ensures Inv(j) && Step(j, k) ==> Inv(k)
  {
  }

  predicate Trace(jobs: seq<Job>) {
    forall i :: 0 <= i < |jobs| - 1 ==> Step(jobs[i], jobs[i + 1])
  }

  /** Claims never exceed the attempts allowed by more than the recoveries, and work by more than the losses besides. */
  lemma {:induction false} AttemptsAreBounded(jobs: seq<Job>, i: nat)
    requires Trace(jobs) && i < |jobs| && New(jobs[0])
    ensures Inv(jobs[i])
    ensures jobs[i].maxAttempts == jobs[0].maxAttempts
    ensures jobs[i].attempts <= jobs[0].maxAttempts + jobs[i].recoveries
    ensures jobs[i].runs <= jobs[0].maxAttempts + jobs[i].recoveries + jobs[i].losses
  {
    if i > 0 {
      AttemptsAreBounded(jobs, i - 1);
      assert Step(jobs[i - 1], jobs[i - 1 + 1]);
    }
  }

  /** A finished job never changes again. */
  lemma {:induction false} DoneIsFinal(jobs: seq<Job>, i: nat, j: nat)
    requires Trace(jobs) && i <= j < |jobs| && Inv(jobs[i]) && jobs[i].phase == Done
    ensures jobs[j] == jobs[i]
    decreases j - i
  {
    if i < j {
      DoneIsFinal(jobs, i, j - 1);
      assert Step(jobs[j - 1], jobs[j - 1 + 1]);
    }
  }

  // ----- Runs without crashes

  predicate CrashFree(jobs: seq<Job>) {
    forall i :: 0 <= i < |jobs| - 1 ==> CrashFreeStep(jobs[i], jobs[i + 1])
  }

  /** What a job can still do: the attempts left, and within an attempt the steps left. */
  function Measure(j: Job): int {
    4 * (j.maxAttempts - j.attempts) +
    match j.phase { case Running => 3 case Waiting => 2 case Queued => 1 case Done => 0 }
  }

  predicate CleanInv(j: Job) {
    Inv(j) && j.recoveries == j.losses == 0 && j.runs == j.attempts
  }

  /** Without crashes every step that changes the job brings it nearer its end, and work is never repeated. */
  lemma CleanStep(j: Job, k: Job)
    requires CleanInv(j) && CrashFreeStep(j, k)
    ensures CleanInv(k) && k.maxAttempts == j.maxAttempts
    ensures k != j ==> 0 <= Measure(k) < Measure(j)
  {
  }

  function Changes(jobs: seq<Job>): nat {
    if |jobs| <= 1 then 0
    else
      Changes(jobs[..|jobs| - 1]) + if jobs[|jobs| - 1] != jobs[|jobs| - 2] then 1 else 0
  }

  /** Without crashes a job is worked on at most `maxAttempts` times and changes at most `4 * maxAttempts + 2` times. */
  lemma {:induction false} CrashFreeJobsEnd(jobs: seq<Job>)
    requires jobs != [] && CrashFree(jobs) && New(jobs[0])
    ensures CleanInv(jobs[|jobs| - 1]) && jobs[|jobs| - 1].maxAttempts == jobs[0].maxAttempts
    ensures jobs[|jobs| - 1].runs == jobs[|jobs| - 1].attempts <= jobs[0].maxAttempts
    ensures Changes(jobs) + Measure(jobs[|jobs| - 1]) <= Measure(jobs[0]) <= 4 * jobs[0].maxAttempts + 2
    ensures Changes(jobs) <= 4 * jobs[0].maxAttempts + 2
  {
    hide CleanInv, Measure, CrashFreeStep, New;
    NewIsClean(jobs[0]);
    var n := |jobs|;
    if n > 1 {
      var before := jobs[..n - 1];
      CrashFreeJobsEnd(before);
      assert CrashFreeStep(jobs[n - 2], jobs[n - 2 + 1]);
      CleanStep(jobs[n - 2], jobs[n - 1]);
    }
    CleanBounds(jobs[n - 1]);
  }

  lemma NewIsClean(j: Job)
    requires New(j)
    ensures CleanInv(j) && Measure(j) <= 4 * j.maxAttempts + 2
  {
  }

  lemma CleanBounds(j: Job)
    requires CleanInv(j)
    ensures j.runs == j.attempts <= j.maxAttempts && 0 <= Measure(j)
  {
  }
}
