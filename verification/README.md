# Video studio API: verified core

A Dafny model of the parts of the studio API that carry its guarantees, and proofs of those guarantees:

- **Word timings.** Speech providers report some words as points without a length. The projection gives each such word
  a share, in whole microseconds, of the interval of the word after it, and fails closed. `Projection` says
  declaratively what is accepted and where every word goes, `Derivation` holds the loops and proves them against it, and
  `ProjectionLaws` proves what the projection keeps. `StrictGate`, `AssemblyAi` and `SilenceCuts` prove how the strict
  transcript gate, the AssemblyAI word loop and the silence decisions fit together with it.
- **Quality measures.** `EditDistance` proves that the Levenshtein recursion is the cost of a cheapest edit script and a
  metric; `AsrQuality` proves both two-row loops against it. `SceneMatching` proves that the greedy scene matcher is
  within a factor two of every matching, and that the factor is met.
- **Durable jobs.** `AnalyticsStore` and `WebhookDeliveries` hold the repositories as classes whose methods are atomic
  steps on their rows and events. `JobProtocol` bounds the work of a job; both machines refine it. `AnalyticsWorker`
  and `WebhookDeliveryProcessor` are the processing calls.
- **Bridge requests.** `BridgeRequests` is a state machine over the awaits of any number of calls, each of which can stop
  or raise anywhere; `BridgeService` is the call itself, proved to be a run of that machine.
- **Chunked uploads.** `UploadParts` has the part arithmetic, the received-parts list and the assembly; `UploadRuns` the
  life of an upload over every run; `UploadService` the calls.
- **Monitor log.** `MonitorLog`: appending to and verifying the hash chain.
- **Timed counters and timelines.** `ReplayGuard`, `RateLimit` and `Timeline`.

Times in seconds are exact reals; every rounding (half up, half to even, `Math.round`, truncation) is written out as an
operation on them. Microsecond arithmetic is on integers, with floor division.

Where the code does less than its names or settings suggest, the model follows the code, gives a concrete input and
proves the exact condition:

- The nonce store keeps two accepted calls apart exactly when nonces live for `2 * skew + 1` seconds; the settings only
  demand `skew`, and the defaults (300 and 600) miss the bound by one second (`ReplayGuard.NoRepeatsIff`).
- All enabled cuts of a request start inside their silence exactly when the padding before is at least half a
  microsecond, and end inside it exactly when the padding after is (`SilenceCuts.PaddingBeforeIff`,
  `SilenceCuts.PaddingAfterIff`); below that, a cut is still inside at every end that is in whole microseconds
  (`SilenceCuts.EnabledCutIsSafe`), and `SilenceCuts.UnalignedCutEscapes` is a cut that is not.
- The maximum gap for every gap bounds the span of all soaks of `n` samples without an oversized gap exactly when
  `n <= 2` (`MonitorLog.SoakSpanIff`): each gap is truncated, and the fractions add up (`MonitorLog.FractionsEscape`).
  With whole-second timestamps the bound always holds, and without them the exact maximum is
  `MonitorLog.SoakSpan` with `MonitorLog.SoakSpanIsMet`.
- What the strict gate accepts, the projection accepts exactly when the words are positive, in order and inside their
  segment in whole microseconds (`StrictGate.StrictProjectableIff`, `StrictGate.StrictIsNotProjectable`).
- The two word error rates differ exactly when there is no reference and more than one spurious word
  (`AsrQuality.RatesAgree`).
- Full critical-term accuracy means that the terms are substrings of both texts (`AsrQuality.AccuracyMeaning`), not
  that they were spoken (`AsrQuality.AccurateIsNotSpoken`); they were exactly when each also occurs between blanks
  (`AsrQuality.SpokenTermsIff`).
- `schedule_retry` does not look at the status. A terminal sync stays terminal exactly when no retry with attempts left
  is scheduled for it (`AnalyticsRuns.TerminalStaysIff`), and two workers on one sync can do that
  (`AnalyticsRuns.StaleRetryReopens`); deliveries are the same (`WebhookDeliveries.TerminalStaysIff`,
  `WebhookDeliveries.StaleFailureReopens`). Theorems about terminal statuses and attempts therefore assume one `process`
  call in flight per job and recovery only at a restart; theorems about snapshots and events assume nothing.
- The API's manifest validator keeps two cues apart exactly when they are neighbours (`Timeline.PythonCuesApartIff`,
  `Timeline.PythonCuesOverlap`); with the renderer's check that cues end after they start, all cues are
  (`Timeline.RendererCuesAreApart`).
- A rejected upload is reported to the caller as one that could not be scanned exactly when the scanner itself answers
  `rejected` (`UploadService.MisreportedIff`, `UploadService.RejectedIsMisreported`). The scanner's result type admits
  that answer; none of the repository's own scanners gives it.

## Model

| member | source | states |
|---|---|---|
| Rounding.RoundTrip | apps/api/app/asr_derived_timing.py:86-95 | whole microseconds survive the trip through seconds and back |
| Rounding.RoundedNumbers | apps/api/app/asr_derived_timing.py:86-91 | half-up, half-to-even and `Math.round`, each by the numbers it rounds to a given integer |
| Projection.EmptyPart | apps/api/app/asr_derived_timing.py:298-314 | floor division leaves some part empty if and only if there are fewer microseconds than parts |
| Projection.BlameIsExact | apps/api/app/asr_derived_timing.py:218-314 | a failure is raised only for a segment that meets no declarative partition, and path and reason of the failure are determined |
| Projection.BlameIsExplained | apps/api/app/asr_derived_timing.py:218-314 | a failure blocks consecutive words for one reason that says what is wrong with them: the boundary points of the run, with the successor when the resolution is too low, or the one word; they start the first unit that cannot be placed |
| ProjectionLaws.UnitOf | apps/api/app/asr_derived_timing.py:218-296 | every word of an accepted segment is a lone interval, kept as it is, or belongs to one run with its successor |
| ProjectionLaws.ProjectionKeepsWords | apps/api/app/asr_derived_timing.py:206-355 | count, order, texts and confidences are kept; a word outside the runs is kept whole; exactly the words of runs and their successors become derived intervals |
| ProjectionLaws.ProjectionIsSequential | apps/api/app/asr_derived_timing.py:218-372 | every projected word is positive and starts no earlier than the one before ends, or than the segment starts |
| ProjectionLaws.ProjectionStaysInside | apps/api/app/asr_derived_timing.py:151-179 | the projected words stay inside a positive segment if and only if the raw ones did |
| ProjectionLaws.RunTiles | apps/api/app/asr_derived_timing.py:298-355 | a run and its successor tile the successor's raw interval: same start, same end, no gap, parts at most 1 µs apart in length |
| ProjectionLaws.StartsAtCut | apps/api/app/asr_derived_timing.py:298-314 | the words of a run and its successor start at the boundaries, in order |
| ProjectionLaws.CutIsFloor | apps/api/app/asr_derived_timing.py:301-304 | the boundaries are the floors of the shares of the interval |
| ProjectionLaws.CoverageKept | apps/api/app/asr_derived_timing.py:298-370 | a moment is covered by a projected word if and only if a raw positive interval covers it |
| ProjectionLaws.SequentialIsFixed | apps/api/app/asr_derived_timing.py:218-241 | sequential words are accepted and projected to themselves and to nothing else |
| ProjectionLaws.ProjectionIsIdempotent | apps/api/app/asr_derived_timing.py:218-241 | a projection is accepted again and is its own only projection |
| Derivation.FindRunEnd | apps/api/app/asr_derived_timing.py:249-263 | the loop stops at the first word that does not share the anchor point |
| Derivation.HasEmptyPart | apps/api/app/asr_derived_timing.py:301-305 | the boundary check reports too little resolution if and only if there are fewer microseconds than parts |
| Derivation.DeriveSegment | apps/api/app/asr_derived_timing.py:206-383 | the loop succeeds if and only if the segment can be partitioned, with the projection and its manifest; a failure names the word and the reason to blame |
| Derivation.ValidatePositiveProjection | apps/api/app/asr_derived_timing.py:151-179 | accepts if and only if all segments are sequential and enclose their words; otherwise lists every issue in order |
| Derivation.IssuesMeaning | apps/api/app/asr_derived_timing.py:151-179 | the list of issues is empty if and only if all segments are sequential and enclosing |
| Derivation.IssuesAreListed | apps/api/app/asr_derived_timing.py:151-179 | the validator's list holds exactly the segments that are not positive and the words at fault, each once, in order, each with the first reason that applies |
| Derivation.ValidatorRejectsOnlyBounds | apps/api/app/asr_derived_timing.py:151-179 | after a successful projection the validator can only find a segment that is not positive or a word past its segment's end |
| Derivation.Derive | apps/api/app/asr_derived_timing.py:182-386 | the whole derivation succeeds if and only if the transcript is projectable, changes nothing but the words, and fails for the first segment to blame or for the validator's list |
| Derivation.ManifestIsTotal | apps/api/app/asr_derived_timing.py:224-369 | the manifest numbers the words without gaps and binds raw to projected times; preserved words kept theirs |
| Derivation.ManifestListsEvery | apps/api/app/asr_derived_timing.py:224-369 | every word has its record, at the place that counting the words before it gives |
| Derivation.DerivedIsFixed | apps/api/app/asr_derived_timing.py:182-386 | a derived transcript is projectable and projects to itself alone |
| StrictGate.RequirePositiveDuration | apps/api/app/auto_edit_providers.py:93-120 | the gate's loop accepts if and only if every word is a positive interval in order within the slacks; a failure lists the faulty paths, or the first segment that is not positive |
| StrictGate.StrictSpelledOut | apps/api/app/auto_edit_providers.py:93-120 | what the gate asks of a segment, with its slacks of 1e-6 and 0.05 seconds |
| StrictGate.FaultyPathsAreListed | apps/api/app/auto_edit_providers.py:93-120 | the blocked paths are exactly the words at fault, each compared with every provider interval before it, in order |
| StrictGate.ProjectableIntervalsAreStrict | apps/api/app/auto_edit_providers.py:93-120 | what the projection accepts of provider intervals with nonnegative segment starts, the gate accepts: half-up rounding never costs more than its slacks |
| StrictGate.RoundingFitsSlack | apps/api/app/asr_derived_timing.py:86-91 | times in order to the microsecond are in order up to 1e-6 s |
| StrictGate.StrictProjectableIff | apps/api/app/auto_edit_providers.py:93-120 | what the gate accepts, the projection accepts if and only if the words are positive, in order and inside their segment in whole microseconds |
| StrictGate.StrictIsNotProjectable | apps/api/app/auto_edit_providers.py:93-120 | an accepted segment that misses that condition: a word ends past its segment within the slack |
| AssemblyAi.BuildSegment | apps/api/app/assemblyai_transcription_provider.py:275-322 | the word loop accepts if and only if no item has a fault and the words cover the text; otherwise the error is that of the first faulty item |
| AssemblyAi.CheckItem | apps/api/app/assemblyai_transcription_provider.py:281-303 | the checks of one item find its first fault; without one its word is well formed |
| AssemblyAi.ItemFaultSpelledOut | apps/api/app/assemblyai_transcription_provider.py:281-294 | the error of an item is that of the first check it fails: shape, interval, order, audio length, confidence |
| AssemblyAi.SegmentSpelledOut | apps/api/app/assemblyai_transcription_provider.py:295-322 | the words of an accepted segment are the items, in order, in seconds |
| AssemblyAi.TokensInOrder | apps/api/app/assemblyai_transcription_provider.py:302-308 | the tokens compared are those of all the words, in order |
| AssemblyAi.AcceptedIsStrictAndFixed | apps/api/app/assemblyai_transcription_provider.py:279-322 | every accepted segment passes the strict gate and is a fixed point of the projection |
| SilenceCuts.BuildSilenceDecisions | apps/api/app/auto_edit_logic.py:81-121 | one decision a silence, in order, with its cut, its conflict and whether it is enabled |
| SilenceCuts.DecisionSpelledOut | apps/api/app/auto_edit_logic.py:81-121 | a decision in numbers: when it conflicts, when it is enabled, its reason and its times |
| SilenceCuts.DecisionsIgnoreProjection | apps/api/app/auto_edit_logic.py:81-121 | for microsecond-aligned words the decisions on projected and raw words are the same |
| SilenceCuts.EnabledCutIsSafe | apps/api/app/auto_edit_logic.py:81-121 | an enabled cut is long enough, overlaps no word, and lies inside its silence when each end is in whole microseconds or padded by half a microsecond |
| SilenceCuts.CutNearlyInside | apps/api/app/auto_edit_logic.py:81-121 | for any times and paddings an enabled cut leaves its silence by at most half a microsecond |
| SilenceCuts.PaddingBeforeIff | apps/api/app/auto_edit_logic.py:81-121 | all enabled cuts of a request start inside their silence if and only if the padding before is at least half a microsecond |
| SilenceCuts.PaddingAfterIff | apps/api/app/auto_edit_logic.py:81-121 | all enabled cuts of a request end inside their silence if and only if the padding after is at least half a microsecond |
| SilenceCuts.UnalignedCutEscapes | apps/api/app/auto_edit_logic.py:81-121 | an enabled decision whose cut leaves its silence at both ends |
| EditDistance.CheapScript | apps/api/app/asr_quality_guards.py:39-50 | a script turning one text into the other costs exactly the distance |
| EditDistance.NoCheaperScript | apps/api/app/asr_quality_guards.py:39-50 | no script costs less |
| EditDistance.DistanceBounds | apps/api/app/asr_quality_guards.py:39-50 | the distance lies between the difference of the lengths and the longer length |
| EditDistance.ZeroMeansEqual | apps/api/app/asr_quality_guards.py:39-50 | distance zero means equal texts |
| EditDistance.Symmetric | apps/api/app/asr_quality_guards.py:39-50 | the distance is symmetric |
| EditDistance.Triangle | apps/api/app/asr_quality_guards.py:39-50 | the distance obeys the triangle inequality |
| AsrQuality.LevenshteinRows | apps/api/app/asr_quality_guards.py:39-50 | the two-row loop computes the edit distance |
| AsrQuality.WordErrorRate | apps/api/app/flow_a_acceptance.py:213-230 | the second two-row loop computes the same edit distance; the rate is that over the reference length, with an empty reference treated apart |
| AsrQuality.RatesAgree | apps/api/app/asr_quality_guards.py:81 | both rates agree if and only if there is a reference or at most one spurious word |
| AsrQuality.RateMeaning | apps/api/app/flow_a_acceptance.py:213-230 | rate zero means equal texts; the errors never exceed the longer text |
| AsrQuality.DirectRate | apps/api/app/asr_quality_guards.py:81 | the other rate times the reference length is the distance as well |
| AsrQuality.RateWithoutReference | apps/api/app/flow_a_acceptance.py:216-217 | without a reference one rate is 0 or 1 and the other the number of words |
| AsrQuality.OccursSomewhere | apps/api/app/asr_quality_guards.py:14-18 | a phrase is counted if and only if it is not empty and occurs at some position |
| AsrQuality.NoOccurrence | apps/api/app/asr_quality_guards.py:14-18 | no occurrence in a shorter text, and none of the empty phrase |
| AsrQuality.OneMoreOccurrence | apps/api/app/asr_quality_guards.py:14-18 | one more word makes one more occurrence if and only if the phrase is at the end |
| AsrQuality.EvaluateDirectAsrQuality | apps/api/app/asr_quality_guards.py:51-96 | passes if and only if there are at most 3 errors in 20 words, all critical terms, and no prompted term more often than in the reference; the counts, the excess of every prompted term, and recall as the share of terms spoken |
| AsrQuality.FaithfulTranscriptPasses | apps/api/app/asr_quality_guards.py:70-96 | repeating a reference that speaks its critical terms always passes |
| AsrQuality.OccurrenceIsSubstring | apps/api/app/flow_a_acceptance.py:233-239 | an occurrence word for word is a substring of the joined words |
| AsrQuality.SpokenTermsAreAccurate | apps/api/app/flow_a_acceptance.py:233-239 | terms spoken in both texts score 1 |
| AsrQuality.AccuracyMeaning | apps/api/app/flow_a_acceptance.py:233-239 | the score is 1 if and only if there are terms, none blank, and each is a substring of both joined texts |
| AsrQuality.AccuracyCounts | apps/api/app/flow_a_acceptance.py:233-239 | the score is the share of the terms that the hypothesis holds, when the reference holds them all |
| AsrQuality.NoAccuracy | apps/api/app/flow_a_acceptance.py:233-239 | the score is 0 when there is no term, a blank one, or one the reference does not hold |
| AsrQuality.SpokenIff | apps/api/app/asr_quality_guards.py:14-18 | of words without blanks, a phrase occurs word for word if and only if it occurs between blanks in the joined text |
| AsrQuality.SpokenTermsIff | apps/api/app/flow_a_acceptance.py:233-239 | all terms are spoken in both texts if and only if the score is 1 and each occurs between blanks in both |
| AsrQuality.AccurateIsNotSpoken | apps/api/app/flow_a_acceptance.py:233-239 | a score of 1 for a term that is only part of another word |
| SceneMatching.SceneBoundaryF1 | apps/api/app/flow_a_acceptance.py:242-254 | the loop makes greedy choices, each the nearest unmatched boundary in tolerance, and scores their number |
| SceneMatching.GreedyIsMatching | apps/api/app/flow_a_acceptance.py:242-254 | the choices are a one-to-one matching within the tolerance, one pair a match |
| SceneMatching.GreedyTakesNearest | apps/api/app/flow_a_acceptance.py:242-254 | a boundary with a free one within the tolerance is matched, with one that is nearest |
| SceneMatching.GreedyIsMaximal | apps/api/app/flow_a_acceptance.py:242-254 | no pair within the tolerance can be added |
| SceneMatching.GreedyIsHalfOptimal | apps/api/app/flow_a_acceptance.py:242-254 | no valid matching has more than twice as many pairs |
| SceneMatching.GreedyCanLoseHalf | apps/api/app/flow_a_acceptance.py:242-254 | an input on which half the pairs are lost |
| SceneMatching.ScoreMeaning | apps/api/app/flow_a_acceptance.py:248-254 | the score is 2m/(p+r), in [0, 1], and 1 if and only if everything is matched and there is something |
| SceneMatching.ScoreIsHalfOptimal | apps/api/app/flow_a_acceptance.py:242-254 | the score is at least half of what any matching would score |
| JobProtocol.AttemptsAreBounded | apps/api/app/analytics_repository.py:139-163 | attempts exceed the maximum by at most the recoveries, work by the losses besides |
| JobProtocol.DoneIsFinal | apps/api/app/analytics_repository.py:139-163 | a finished job never changes |
| JobProtocol.CleanStep | apps/api/app/analytics_repository.py:325-468 | without crashes every change lowers a lexicographic measure |
| JobProtocol.CrashFreeJobsEnd | apps/api/app/analytics_repository.py:325-468 | without crashes a job is worked on at most its maximum and changes a bounded number of times |
| AnalyticsStore.AnalyticsRepository.ReserveSync | apps/api/app/analytics_repository.py:54-137 | a new key inserts a row; a known one is replayed with the same fingerprint and conflicts with another |
| AnalyticsStore.AnalyticsRepository.ClaimSync | apps/api/app/analytics_repository.py:139-163 | a claimable, due row starts its next attempt, with one numbered event; any other row stays |
| AnalyticsStore.AnalyticsRepository.CompleteSync | apps/api/app/analytics_repository.py:165-323 | a running row gets its snapshot and its events once; success if and only if the row has succeeded |
| AnalyticsStore.AnalyticsRepository.ScheduleRetrySync | apps/api/app/analytics_repository.py:325-364 | whatever the status: a retry while attempts are left, failure after |
| AnalyticsStore.AnalyticsRepository.TerminalFailureSync | apps/api/app/analytics_repository.py:366-399 | only terminal failure statuses are accepted; the row takes them whatever its status |
| AnalyticsStore.AnalyticsRepository.RecoverIncompleteSyncIds | apps/api/app/analytics_repository.py:401-436 | running rows are queued again with an event; the queue gets those, the queued and the due |
| AnalyticsStore.AnalyticsRepository.ActivateDueSyncIds | apps/api/app/analytics_repository.py:438-468 | exactly the due waiting rows are queued, with an event |
| AnalyticsRuns.EveryRunIsConsistent | apps/api/app/analytics_repository.py:165-323 | under every interleaving: one snapshot a sync, succeeded means snapshot set, update announced once and only then, started events numbered 1 to the attempt count, one sync a key |
| AnalyticsRuns.SnapshotNeverChanges | apps/api/app/analytics_db.py:71 | a snapshot once set stays, whatever any worker does |
| AnalyticsRuns.TerminalIsLeftIff | apps/api/app/analytics_repository.py:325-364 | a transaction takes a sync out of a terminal status if and only if it schedules its retry with attempts left |
| AnalyticsRuns.TerminalStaysIff | apps/api/app/analytics_repository.py:325-364 | under every interleaving a terminal sync stays terminal at every later point if and only if no such retry follows |
| AnalyticsRuns.StaleRetryReopens | apps/api/app/analytics_repository.py:325-364 | a run in which a second worker finds the sync running, goes on, and reopens it after it has succeeded |
| AnalyticsRuns.StepRefines | apps/api/app/analytics_service.py:176-275 | every step of workers, crashes and schedulers is a step of the job protocol for every sync |
| AnalyticsRuns.AttemptsAreBounded | apps/api/app/analytics_repository.py:139-163 | attempts and provider calls are bounded by the maximum, the recoveries and the losses; what is in flight is running |
| AnalyticsRuns.TerminalIsFinal | apps/api/app/analytics_repository.py:139-163 | a terminal sync keeps its whole row for the rest of the run |
| AnalyticsRuns.WaitingIsRespected | apps/api/app/analytics_repository.py:438-468 | nothing moves a waiting sync before its time, not even a restart |
| AnalyticsRuns.CrashFreeSyncsEnd | apps/api/app/analytics_service.py:176-275 | without crashes a sync reaches the provider once an attempt, at most its maximum, and comes to rest |
| Backoff.DelayGrows | apps/api/app/analytics_service.py:252-269 | delays stay within the cap, never shrink, and double until they reach it |
| Backoff.DelayUnrolled | apps/api/app/analytics_service.py:252-258 | the delay step by step: the base or what was asked up to the cap after the first attempt, twice the base for each one more |
| AnalyticsWorker.AnalyticsSyncProcessor.Process | apps/api/app/analytics_service.py:176-275 | one call is a claim and, if the row is running, the recording of its outcome, to the row that `EndsSpelledOut` describes; no other row changes |
| AnalyticsWorker.EndsSpelledOut | apps/api/app/analytics_service.py:176-275 | the row at the end for every outcome: stored, refused, or retried while attempts are left, with status, code, snapshot and the time of the retry |
| AnalyticsWorker.ConcludedIsRun | apps/api/app/analytics_service.py:176-275 | an uninterrupted call is one or two steps of the runs and leaves the sync in nobody's hands |
| WebhookDeliveries.DeliveryRepository.InsertDelivery | apps/api/app/bridge_repository.py:149-164 | a new delivery is queued, or disabled for good |
| WebhookDeliveries.DeliveryRepository.ClaimDelivery | apps/api/app/bridge_repository.py:212-224 | a claimable delivery starts its next attempt; any other row stays |
| WebhookDeliveries.DeliveryRepository.FinishDelivery | apps/api/app/bridge_repository.py:226-254 | records the receipt whatever the status |
| WebhookDeliveries.DeliveryRepository.FailOrRetryDelivery | apps/api/app/bridge_repository.py:256-275 | a retry while attempts are left, failure after |
| WebhookDeliveries.DeliveryRepository.RecoverIncompleteDeliveryIds | apps/api/app/bridge_repository.py:277-289 | running deliveries are queued again; queued and running ones are returned |
| WebhookDeliveries.DeliveryRepository.ActivateDueDeliveryIds | apps/api/app/bridge_repository.py:291-309 | exactly the due retries are queued |
| WebhookDeliveries.WebhookDeliveryProcessor.Process | apps/api/app/bridge_service.py:293-348 | one call is a claim and, if the row is running, the recording of its outcome: the row at the end for every outcome, with status, code, receipt and time of the retry while attempts are left; no other row changes |
| WebhookDeliveries.StepRefines | apps/api/app/bridge_repository.py:212-309 | every step is a step of the job protocol for every delivery |
| WebhookDeliveries.DeliveriesAreBounded | apps/api/app/bridge_repository.py:212-309 | attempts and sends are bounded, terminal deliveries are final, and a receipt means success and the reverse |
| WebhookDeliveries.TerminalIsLeftIff | apps/api/app/bridge_repository.py:226-275 | a transaction takes a delivery out of a terminal status if and only if it records a failure with attempts left |
| WebhookDeliveries.TerminalStaysIff | apps/api/app/bridge_repository.py:226-275 | under every interleaving a terminal delivery stays terminal at every later point if and only if no such failure follows |
| WebhookDeliveries.StaleFailureReopens | apps/api/app/bridge_repository.py:256-275 | a run in which a second worker finds the delivery running, goes on, and reopens it after it has been finished |
| WebhookDeliveries.CrashFreeDeliveriesEnd | apps/api/app/bridge_repository.py:212-309 | without crashes a delivery is sent once an attempt, at most its maximum, and comes to rest |
| BridgeRequests.FindVersion | apps/api/app/bridge_service.py:150-158 | finds a version of the project that carries the request, if there is one |
| BridgeRequests.NextInv | apps/api/app/bridge_service.py:101-212 | every await, exception and stop keeps the ownership of projects and versions |
| BridgeRequests.OneProjectOneVersion | apps/api/app/bridge_service.py:101-212 | in every run one project and one version at most carry a request, and the version is in that project |
| BridgeRequests.RecordedIdsStay | apps/api/app/bridge_repository.py:98-177 | in every run identifiers once recorded are never replaced, not even by a later failure |
| BridgeRequests.SettledForGood | apps/api/app/bridge_service.py:118-130 | a settled request keeps its row for ever, with both identifiers, and a replay writes nothing |
| BridgeRequests.ConflictIsForGood | apps/api/app/bridge_repository.py:43-96 | in every run a key stays bound to its first payload and request, and a call with another payload changes nothing at any later point |
| BridgeRequests.FinishedSucceeds | apps/api/app/bridge_service.py:144-212 | an uninterrupted call succeeds if and only if nobody else's project has the slug |
| BridgeRequests.FinishedTouches | apps/api/app/bridge_service.py:144-212 | an uninterrupted call changes its own request, adds at most the project of its slug and one version, and takes nothing back |
| BridgeRequests.SucceededOwns | apps/api/app/bridge_service.py:144-212 | a request that has succeeded points to the project of its slug and to a version of it, both made for it |
| BridgeService.BridgeStore.ReserveRequest | apps/api/app/bridge_repository.py:43-96 | inserts, replays or conflicts, and tells which; the step of the machine |
| BridgeService.BridgeStore.CreateProjectRow | apps/api/app/repositories.py:223-242 | creates the project unless the slug is taken |
| BridgeService.BridgeStore.EnsureProjectRow | apps/api/app/repositories.py:244-266 | returns the project that has the slug, or creates it |
| BridgeService.BridgeStore.CompleteRequestRow | apps/api/app/bridge_repository.py:98-165 | records both identifiers unless the request has succeeded already |
| BridgeService.BridgeStore.FailRequestRow | apps/api/app/bridge_repository.py:167-177 | marks the request failed whatever its status, and keeps its identifiers |
| BridgeService.ObtainProject | apps/api/app/bridge_service.py:144-149 | ends with the request's own project, or fails when the slug is another's, as the machine does |
| BridgeService.ObtainVersion | apps/api/app/bridge_service.py:150-177 | ends with the version that carries the request, found or created, as the machine does |
| BridgeService.CreateDraftProject | apps/api/app/bridge_service.py:101-212 | the whole call is the machine's run to its end; it succeeds if and only if the payload is the key's and nobody else's project has the slug, that is, if it leaves the request settled, and returns the recorded identifiers |
| UploadParts.PartSizesTile | apps/api/app/auto_edit_service.py:161-165 | every part has between one byte and the part size, and together they have the file's |
| UploadParts.RecordedParts | apps/api/app/auto_edit_repository.py:183-188 | in any order and with repeats, the list stays sorted and distinct and holds the last of every number |
| UploadParts.AllBytesMeansAllParts | apps/api/app/auto_edit_repository.py:183-188 | as many bytes as announced are recorded if and only if every part is in |
| UploadParts.ReadPart | apps/api/app/auto_edit_service.py:170-190 | a body is read if and only if it has the expected size within the limit |
| UploadParts.Assemble | apps/api/app/auto_edit_service.py:75-85 | the chunked copy is the concatenation of the files, and its count their size |
| UploadParts.AssembledSize | apps/api/app/auto_edit_service.py:217-229 | files of the expected sizes make a file of the announced size |
| UploadParts.PiecesAssemble | apps/api/app/auto_edit_service.py:75-85 | cutting a file and assembling the pieces gives it back |
| UploadRuns.UploadRepository.RecordPartRow | apps/api/app/auto_edit_repository.py:171-191 | records the part and the sum of all recorded sizes, or refuses and changes nothing |
| UploadRuns.UploadRepository.MarkUploadFailed | apps/api/app/auto_edit_repository.py:193-201 | fails the upload whatever its status |
| UploadRuns.UploadRepository.MarkUploadQuarantined | apps/api/app/auto_edit_repository.py:203-216 | enters quarantine, or refuses and changes nothing |
| UploadRuns.UploadRepository.RecordUploadScan | apps/api/app/auto_edit_repository.py:218-249 | trusts, rejects or keeps in quarantine by the verdict, or refuses |
| UploadRuns.UploadRepository.FinishUpload | apps/api/app/auto_edit_repository.py:251-273 | completes a trusted upload only |
| UploadRuns.NextInv | apps/api/app/auto_edit_service.py:146-357 | every step keeps what ties row, staged files and the call in progress together |
| UploadRuns.AssetsAreCleared | apps/api/app/auto_edit_service.py:196-357 | in every run an asset means a clean verdict for exactly the assembled bytes, as many as announced, whose checksum was compared with the caller's or else the announced one; the row explains how it ended |
| UploadRuns.SizeMismatchUnreachable | apps/api/app/auto_edit_service.py:217-229 | in every run the size-mismatch failure is unreachable |
| UploadRuns.TerminalIsFinal | apps/api/app/auto_edit_repository.py:171-273 | completed, duplicate, rejected and failed uploads keep their row |
| UploadService.UploadService.StorePart | apps/api/app/auto_edit_service.py:146-194 | accepts a part if and only if upload, number, size and checksum fit; otherwise says why and changes nothing |
| UploadService.UploadService.CompleteUpload | apps/api/app/auto_edit_service.py:196-357 | leaves the row that the answers call for, succeeds if and only if it is completed, replays a completed upload, and reports the error that fits the row |
| UploadService.PartIsRun | apps/api/app/auto_edit_service.py:146-194 | an accepted part is two steps of the runs |
| UploadService.ConcludedIsRun | apps/api/app/auto_edit_service.py:196-357 | whatever the collaborators answer, a call is a run to the row it leaves, which compares checksums only with what the caller gave |
| UploadService.ConcludedSpelledOut | apps/api/app/auto_edit_service.py:196-357 | the whole row that a call leaves, and the error it tells, for every answer of the collaborators |
| UploadService.AssetIff | apps/api/app/auto_edit_service.py:196-357 | a call makes an asset if and only if all parts are in, the checksum fits, and the file is no archive, clean, valid, and known or stored |
| UploadService.AssetHasChecksum | apps/api/app/auto_edit_service.py:226-232 | a call that makes an asset has the caller's checksum, or else the announced one; when they differ the upload fails without an asset |
| UploadService.MisreportedIff | apps/api/app/auto_edit_service.py:230-272 | of a file as expected, the upload is rejected if and only if it is an archive, infected or rejected by the scanner, and the caller is told otherwise if and only if it is the last |
| UploadService.RejectedIsMisreported | apps/api/app/auto_edit_service.py:230-272 | an upload of one byte that is rejected and reported as one that could not be scanned |
| MonitorLog.HashedInjective | apps/api/app/dr_g11_offline.py:378-406 | the hashed text determines release, sequence number, previous digest and payload text |
| MonitorLog.HashedSpelledOut | apps/api/app/dr_g11_offline.py:378 | the hashed text is release, number, previous digest and payload with bars between them |
| MonitorLog.DisposableMonitorStore.Append | apps/api/app/dr_g11_offline.py:368-383 | appends a later sample to the chain, refuses any other and changes nothing |
| MonitorLog.DisposableMonitorStore.Verify | apps/api/app/dr_g11_offline.py:385-410 | the loop returns the head if and only if the log is bound to the release and every row continues the chain |
| MonitorLog.VerifiedSpelledOut | apps/api/app/dr_g11_offline.py:385-410 | a log verifies if and only if every row has the next number, the digest before, a later time, a canonical and safe payload, and its own digest |
| MonitorLog.DisposableMonitorStore.PrepareSoak | apps/api/app/dr_g11_offline.py:412-444 | plans only over a verified log, with its span, every oversized gap, and its critical alerts and unhealthy dependencies |
| MonitorLog.OversizedAre | apps/api/app/dr_g11_offline.py:425-428 | the reported gaps are those that are too long, in order |
| MonitorLog.WholeSecondsAre | apps/api/app/dr_g11_offline.py:426-429 | times are truncated towards zero |
| MonitorLog.EveryLogVerifies | apps/api/app/dr_g11_offline.py:368-410 | whatever is appended, the log verifies |
| MonitorLog.PrefixVerifies | apps/api/app/dr_g11_offline.py:385-410 | every prefix of a verified log verifies |
| MonitorLog.HeadDeterminesLog | apps/api/app/dr_g11_offline.py:385-410 | two verified logs with the same head are equal, and of one release |
| MonitorLog.SoakSpan | apps/api/app/dr_g11_offline.py:425-429 | without oversized gaps the span is at most the maximum a gap for whole seconds, and otherwise at most that of samples as far apart as they may be, which is less than a second a gap more |
| MonitorLog.SoakSpanIsMet | apps/api/app/dr_g11_offline.py:425-429 | a verified log of every length meets the second bound exactly |
| MonitorLog.SoakSpanIff | apps/api/app/dr_g11_offline.py:425-429 | the maximum a gap bounds the span of all verified logs of n samples without oversized gaps if and only if n is at most 2 |
| MonitorLog.FractionsEscape | apps/api/app/dr_g11_offline.py:425-429 | a log of three appended samples that verifies, has no gap above 300 seconds and spans 601 |
| ReplayGuard.ServiceAuthVerifier.Verify | apps/api/app/bridge_auth.py:153-205 | each verdict if and only if its condition holds of the call and the store; only an accepted call changes the store, at its nonce |
| ReplayGuard.NonceWasProven | apps/api/app/bridge_auth.py:182-204 | in every run a nonce is in the store only because a complete, authentic call within the clock window carried it |
| ReplayGuard.NonceIsKept | apps/api/app/bridge_auth.py:196-204 | an accepted nonce is remembered for its whole lifetime, whatever comes after |
| ReplayGuard.NoRepeatsIff | apps/api/app/bridge_auth.py:180-204 | in every run no call is accepted twice, if and only if nonces live for twice the skew and one second |
| RateLimit.HumanRateLimiter.Check | apps/api/app/human_auth.py:167-180 | counts the request in its minute and admits it while the count is within the limit |
| RateLimit.CounterIsExact | apps/api/app/human_auth.py:167-180 | a counter outlives its minute and holds every request of it |
| RateLimit.AdmittedIff | apps/api/app/human_auth.py:167-180 | a request is admitted if and only if fewer than the limit came before it in its minute |
| RateLimit.RetryAfterReachesNextMinute | apps/api/app/human_auth.py:174-175 | waiting as told reaches the next minute, and waiting a second less does not |
| RateLimit.AtMostLimitAMinute | apps/api/app/human_auth.py:167-180 | at most the limit is admitted in a minute bucket |
| RateLimit.AtMostTwiceTheLimit | apps/api/app/human_auth.py:167-180 | at most twice the limit is admitted in any sixty seconds |
| Timeline.ValidateManifest | apps/api/app/manifest.py:83-105 | accepts if and only if durations, scene starts and cues fit; the error is the first found |
| Timeline.PythonAcceptsSpelledOut | apps/api/app/manifest.py:83-105 | what the checks ask for, in numbers |
| Timeline.CollectIssues | renderer/src/contract.ts:64-112 | reports exactly the issues there are |
| Timeline.IssuesSpelledOut | renderer/src/contract.ts:64-112 | each issue, in numbers |
| Timeline.ValidatorsAgree | renderer/src/contract.ts:64-112 | the renderer accepts if and only if the API does and every cue ends after it starts |
| Timeline.DriftIsBounded | apps/api/app/manifest.py:89-95 | scene `i` starts within `i + 1` frames of the durations before it |
| Timeline.CueOverlapIsBounded | apps/api/app/manifest.py:97-105 | of an accepted manifest, a later cue starts at most a frame per cue between them before an earlier one ends, when no cue between them ends before it starts |
| Timeline.RendererCuesAreApart | renderer/src/contract.ts:86-111 | of a manifest the renderer accepts, that holds of all cues |
| Timeline.PythonCuesApartIff | apps/api/app/manifest.py:97-105 | the API's validator alone guarantees it of two cues if and only if they are neighbours |
| Timeline.PythonCuesOverlap | apps/api/app/manifest.py:97-105 | an accepted manifest whose third cue starts almost ten seconds before its first ends |
| Timeline.ShownFrames | renderer/src/VerticalShort.tsx:29-33 | a cue is shown from the frame of its start up to that of its end, and for one frame at least |
| Timeline.CuesShareOneFrame | renderer/src/VerticalShort.tsx:29-33 | consecutive cues share at most one frame |

## Left out

Assumptions and abstractions:

- Binary floating point: seconds are exact reals, and `ceil(size / part_size)` is computed on integers.
- Tokenisation and Unicode normalisation are a parameter of the quality measures.
- SHA-256 and canonical JSON are parameters of the monitor log: the digest is injective, contains no bar and is never the zero digest, a text reads back as the payload it was written from, and the release name contains no bar.
- The nonce store's clock is the caller's.
- `ReplayGuard.NoRepeatsIff`: assumes that time does not go backwards; the rate limiter's bounds need no such assumption.
- Database transactions are atomic steps, and events an unordered collection.
- AnalyticsStore.AnalyticsRepository.RecoverIncompleteSyncIds: the source selects its rows without a lock, so that a completion committed between its select and its update is overwritten with `queued`; as an atomic step it cannot be, and `AnalyticsRuns.TerminalStaysIff` holds for recoveries only as far as nothing is committed in between.
- WebhookDeliveries.DeliveryRepository.RecoverIncompleteDeliveryIds: is atomic in the model and selects without a lock in the source, as above.
- Queue lists are not modelled: any call may name any job at any time, which covers duplicates and losses.
- `max_attempts` is at least one, as the settings demand (`apps/api/app/config.py`, lines 255 and 289).
- JobProtocol.DoneIsFinal: assumes one `process` call in flight per job and recovery only at a restart, because `schedule_retry`, `terminal_failure` and `finish_delivery` do not look at the status.
- Bridge calls with one idempotency key follow each other; calls with different keys interleave freely. The fingerprint stands for the payload.
- BridgeRequests.RecordedIdsStay: says nothing of the status, because a failed queue push lets `fail_request` overwrite a succeeded request; for the same reason nothing is claimed about events and deliveries being unique.
- Uploads: the calls on one upload follow each other; answers of storage, scanner, probe and duplicate search are parameters. Staged files are not lost, and their removal after completion is not modelled, so that the staged files of a completed upload are those it was made from.
- MonitorLog.DisposableMonitorStore.Append: starts from the normalised payload; what normalising a snapshot refuses, and the report's count of alerts, are not part of this model, and the deliveries of all alerts are one boolean.
- AnalyticsStore.AnalyticsRepository.CompleteSync: writes the row, the snapshot and the two events; metric points, features, assessment and insights, and the refusal of a provider result that claims an external call, are left out.
- BridgeService.BridgeStore.CompleteRequestRow: records identifiers and status; the event and the delivery inserted with them are left out (deliveries are in `WebhookDeliveries`).
- BridgeService.BridgeStore.FailRequestRow: the failure code and reason are left out.
- BridgeService.CreateDraftProject: the push of the delivery, the secret scan and the workspace look-up always succeed; that any of them raises is a step of `BridgeRequests`.
- UploadService.UploadService.CompleteUpload: a replay finds the media metadata and the asset that completing recorded; the errors for their absence are left out.
- ReplayGuard.ServiceAuthVerifier.Verify: the comparisons of the content hash and of the signature are booleans of the call, as are the shape of the nonce and whether the key is known; times are after the epoch.
- Timeline: the field checks of the schema are left out; the frame rate is any positive integer.

Not modelled at all:

- `build_scenes`, `build_highlights` and `_p95`: only easy members.
- The hashes and the provenance record of a derivation, beyond its manifest of timings.
- The upload and polling calls of the AssemblyAI provider before its word loop.
- The limits that `UploadService.initialize` puts on announced sizes, and file names.
- `ensure_secret_free`, workspace look-ups, list and summary reads, `create_sync` beyond its reservation, and `enqueue_due` beyond its activation.
- The other acceptance flows, the executors, the scripts, the user interface and the renderer's drawing.
