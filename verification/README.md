# Hermes Enterprise: verified models

Dafny models of the parts of this repository whose correctness is hardest to see
by reading one function: durable jobs and the transactional outbox, invitation
delivery, the run-log validator and the mock stream it must accept, canonical
JSON for review binding, skill prompt splitting, the plugin tree digest, the
readiness latch, the Bot Mode message line, decimal amounts, and the arrival
tracker. Each model takes the form of its source: code that updates rows, fields
or collections is a class or a method with a loop, tied by its contract to a
function of the old state; pure code is a function; what the source promises is
proved about those functions, over all inputs, all logs or all reachable states.

Verify everything with `dafny verify dfyconfig.toml`; the proofs are sized for
`--resource-limit 2000000`.

## How the pieces fit

- `Jobs` is the `jobs` and `job_ready` tables as values, one function per
  transaction, and `JobStore`, which performs them; `JobTurns` says what one
  turn leaves on each row, and `Drains` is about the Cron's pass. `JobLeases`
  adds the clock and the runners, and `LeaseHazards` shows that its promises are
  exact; `Outbox` adds the events and their publish jobs; `OutboxDelivery` adds
  hubs, runners, crashes and the direct hand-off.
- `Invitations` is the send/resend branch on one invitation row, with any number
  of overlapping, crashing and retried workers; `InvitationHazards` shows that
  its two exceptions are exact.
- `RunLog` is the one-pass validator; `RunLogSpec` says what its state and
  reports mean about whole logs; `RunLogReports` says what the report list holds
  and in which order; `RunLogProjection` separates interleaved runs; `MockStream`
  is the generator.
- `CanonicalJson` prints and reads JSON values over `JsonNumbers`, `JsonStrings`
  and `Ordering`; `NumberLayout` and `CanonicalForm` say which text that is;
  `HoleFreeJson` states its injectivity on the values themselves; `ReviewBinding`
  encodes and hashes the text over `Utf8`.
- `PromptSplit` is the greedy line packer and `PromptGreedy` says which split it
  makes; `PromptSections` is the section builder and `PromptRefusals` says what it
  refuses. `PluginTree` is the digest's byte stream with a reader of it, and
  `PluginPaths` says which paths it skips. `PolicyLatch` is the latch and its
  threads, and `PolicyRoutes` the route it compares.
- `RegexMatch` is ECMAScript backtracking for the constructs one expression
  uses; `BotMode` is that expression and the printer, and `BotModePrinter` says
  what the printer writes and refuses; `BotModeGrammar` is the accepted language
  without matching, and `BotModeFirst` says which of several decompositions is
  read.
- `UsdSums` and `TokenAmounts` are the wallet amounts over `Decimals`;
  `Arrivals` is the arrival bag.
- `Texts` is text as code points, shared by the Bot Mode, prompt and plugin tree
  modules; `FreshNames` finds names for workers yet to come; `Wrappers` holds the
  option and result types.

## Where the code and its prose differ

- `drainJobs` (apps/worker/src/jobs.ts:1014-1018) says a row another drainer
  holds is neither done nor failed; the loop counts it as failed.
  `Drains.FailedAsDocumentedExactly` says exactly when `failed` means what the
  comment says, and `Drains.HeldRowCountsAsFailed` is a drain where it does not.
- The claim comment promises one runner per job. That needs every runner to end
  inside its lease, and no revival and no resume under a runner: `failJob` and
  `finishJob` do not ask who holds the lock, and a finish or a pause whose commit
  landed unheard leaves its runner on the way to failing the job.
  `LeaseHazards.PromisesAreExact` and `LeaseHazards.ExclusionExactly` say that
  these three promises are the exact condition; three runs break one each.
- The delivery comments promise that a send is never repeated. Two things repeat
  it: a claim that finds the provider unconfigured while another worker is
  sending, or after an acceptance nobody recorded (jobs.ts:499-506), and a
  retryable error, a 503 say, for a send that was accepted.
  `InvitationHazards.ExceptionsAreExact` says that these steps, in every reachable
  state, are exactly those that make a second accepted send possible.
- The nightly validator keeps the rows whose payload names the run, so a guidance
  message without a run id makes it flag a sound log, and a row that fails the
  schema is reported only by the run it names;
  `RunLogProjection.NightlySliceIsExact` says exactly when the two agree.
- `canonicalJson` prints an array of one hole like an empty array, and both
  zeros alike; everything else is told apart.
- `validate_current` forbids a return to the preflight grant. Between the two
  locks of a provider check another thread may sight the assignment, and the
  call is then admitted on a preflight check; `PolicyLatch.LateCallsAreSplit`
  says this window is the only one.
- `formatTokenAmount` throws when `maxFraction` is 0 and the amount is positive
  but below one; every other input is formatted (`TokenAmounts.ThrowsExactly`).

## Assumptions

- A database transaction is one atomic step; statements of different
  transactions do not interleave. Ids handed out by a sequence are increasing
  within one transaction and never reused; transactions interleave.
- SHA-256 is a function parameter. Equal hashes of different bytes are named as
  collisions, not excluded.
- A JavaScript string is a sequence of UTF-16 units in `CanonicalJson`,
  `JsonStrings` and `ReviewBinding`, and of code points in `BotMode`, as the
  expression's `u` flag reads it. A Python string is a sequence of code points.
- A finite JavaScript number is zero with a sign, or a sign, the shortest
  round-tripping digits and the place of the decimal point, as section 6.1.6.1.20
  of ECMA-262 derives them; section 3.2.2.3 of RFC 8785 prints the same.
- A parsed stream event is its numeric id and the fields the validator reads;
  anything the schema rejects is a `Malformed` row with the run its payload names,
  if it names one.

## Model

| member | source | states |
|---|---|---|
| Jobs.JobStore.EnqueueJob | apps/worker/src/jobs.ts:229-252 | a known (kind, key) adds nothing and returns none; otherwise the job and its pointer appear together under a new id |
| Jobs.JobStore.ClaimJob | apps/worker/src/jobs.ts:107-124 | claims exactly an undone, unpaused job that is unlocked or whose lock has lapsed, for 120 seconds |
| Jobs.JobStore.ClaimNextJob | apps/worker/src/jobs.ts:127-150 | claims a job of the earliest time among those not done, not paused, not locked and due, and none only when there is none |
| Jobs.JobStore.FinishJob | apps/worker/src/jobs.ts:152-156 | marks done, unlocks and removes the pointer, whoever calls it |
| Jobs.JobStore.FinishFailedJob | apps/worker/src/jobs.ts:179-185 | the same, keeping at most 1000 characters of the error |
| Jobs.JobStore.FailJob | apps/worker/src/jobs.ts:188-210 | unlocks and moves both due times by the backoff, whoever calls it |
| Jobs.JobStore.PauseMemberProvisioningJob | apps/worker/src/jobs.ts:159-177 | pauses both rows of an undone provisioning job, or throws and changes nothing |
| Jobs.JobStore.FinishJobsAfterCommit | apps/worker/src/jobs.ts:337-346 | finishes every listed job in one step |
| Jobs.JobStore.ClaimRunFinish | apps/worker/src/jobs.ts:923-957 | one turn among others' transactions: claim or leave, then finish, pause, retry or give up by the outcome, and fail the job when a finish or a pause landed unheard; true exactly when run to done and heard |
| Jobs.JobStore.ResumePaused | apps/worker/src/jobs.ts:993-999 | lifts every pause and makes those jobs due |
| Jobs.JobStore.DueRows | apps/worker/src/jobs.ts:1000-1007 | the listed rows are the earliest due pointers that are not paused, each once, in order, up to the limit and none left out below it |
| Jobs.JobStore.DrainJobs | apps/worker/src/jobs.ts:985-1024 | lifts the pauses when enabled, takes the listed rows in turn; done counts the completed rows, failed the unfinished and the unclaimable ones |
| Jobs.AlwaysConsistent | apps/worker/src/jobs.ts:107-252 | after any transactions by anyone, a pointer exists exactly for an undone job, and (kind, key) is unique |
| Drains.DrainKeepsConsistent | apps/worker/src/jobs.ts:985-1024 | a drain keeps pointers and keys consistent whatever its jobs come to and others commit between |
| Drains.CountsExactly | apps/worker/src/jobs.ts:1009-1022 | the three counts are the numbers of rows run to done, claimed and not finished, and not claimable in their turn |
| Drains.FailedAsDocumentedExactly | apps/worker/src/jobs.ts:1013-1022 | failed counts exactly the claimed and unfinished rows, as its comment says, if and only if every row can still be claimed in its turn |
| Drains.UndisturbedFailedExactly | apps/worker/src/jobs.ts:1000-1022 | in a pass nobody disturbs, if and only if no listed row was locked past its turn when the query ran |
| Drains.HeldRowCountsAsFailed | apps/worker/src/jobs.ts:1013-1022 | a drain of one row another drainer holds: failed is 1, and nothing was claimed and left unfinished |
| Jobs.DoneIsAbsorbing | apps/worker/src/jobs.ts:107-210 | late fails, finishes, pauses and claims never bring a finished job back or touch its attempts; only a revival does |
| Jobs.PausedIsUnclaimable | apps/worker/src/jobs.ts:107-177 | a paused job stays unclaimable, by any stale worker's doing, until a resume or its own revival |
| Jobs.BackoffBounds | apps/worker/src/jobs.ts:195-198 | retries wait 30 to 3600 seconds, never less after more attempts, and at least what was asked up to the cap |
| JobTurns.BackoffIsWait | apps/worker/src/jobs.ts:195-198 | the wait after the n-th attempt is 30, 60, 120, 240, 480, 960, 1920 and then 3600 seconds, or what was asked when that is more, at most 3600 |
| JobTurns.RetryableThrowIsRetried | apps/worker/src/jobs.ts:941-957 | a retryable throw leaves the job undone, unlocked and not paused, its pointer kept, both due times moved by that wait, and the clipped error stored |
| JobTurns.TerminalThrowEnds | apps/worker/src/jobs.ts:946-948 | a throw that must not be retried leaves it done, unlocked and without a pointer, and the clipped error stored |
| JobTurns.CompletedEnds | apps/worker/src/jobs.ts:928-930 | a completed job is done, unlocked and without a pointer |
| JobTurns.UnheardFinishEnds | apps/worker/src/jobs.ts:926-957 | a finish that landed unheard leaves it done and without a pointer, whatever the failure after it writes |
| JobTurns.PauseHolds | apps/worker/src/jobs.ts:931-940 | a provisioning job that pauses is undone, unlocked and paused, and no claim succeeds on it |
| JobTurns.UnheardPauseHolds | apps/worker/src/jobs.ts:931-957 | unheard, it is still paused, with both due times moved by the failure |
| JobTurns.PauseOfAnotherKindIsRetried | apps/worker/src/jobs.ts:159-177 | a job of another kind that asks to pause is retried instead |
| JobTurns.TurnTouchesItsJobOnly | apps/worker/src/jobs.ts:923-957 | a turn adds no job and leaves every other job and pointer as they were |
| JobTurns.ClaimLocks | apps/worker/src/jobs.ts:107-124 | a claim counts an attempt and locks the job; it can be claimed again exactly after 120 seconds |
| JobTurns.EnqueueOnce | apps/worker/src/jobs.ts:229-252 | a new key makes a job that is due at once under an id not used before, and the same key again changes nothing |
| JobTurns.ResumeLifts | apps/worker/src/jobs.ts:993-999 | a resume makes exactly the paused pointers due and leaves the others and the jobs alone |
| JobTurns.ReviveRearms | apps/worker/src/routes/outbound-email.ts:158-173 | a revival makes a finished job claimable and due with its attempts kept and its error cleared, and changes no other |
| JobTurns.FinishAllEnds | apps/worker/src/jobs.ts:337-346 | finishing a list ends exactly the listed jobs |
| JobLeases.OneRunnerPerJob | apps/worker/src/jobs.ts:98-211 | in every run, answers lost or not, in which runners of unsettled jobs end inside their leases and only idle jobs are revived or resumed, no job has two runners |
| LeaseHazards.PromisesAreExact | apps/worker/src/jobs.ts:98-211 | after any run that keeps the three promises, a step keeps them if and only if no job can come to have two runners after it |
| LeaseHazards.ExclusionExactly | apps/worker/src/jobs.ts:98-211 | mutual exclusion over all runs holds if and only if all three promises are kept |
| LeaseHazards.OutlivedLeaseIsShared | apps/worker/src/jobs.ts:107-124 | in every reachable state, once the clock outruns the lease of an unsettled job's runner, the next claim shares the job |
| LeaseHazards.EarlyRevivalIsShared | apps/worker/src/routes/outbound-email.ts:158-173 | in every reachable state with a runner on a finished job, a revival and a claim share it |
| LeaseHazards.EarlyResumeIsShared | apps/worker/src/jobs.ts:993-999 | in every reachable state with a runner on a paused job, a resume and a claim share it |
| LeaseHazards.LapsedLeaseIsShared | apps/worker/src/jobs.ts:199-206 | from any state where a runner's job is claimable under it, three steps put two others on the job at the start of their leases |
| LeaseHazards.StaleFailSharesTheJob | apps/worker/src/jobs.ts:188-210 | a run in which a late fail lets two in-lease runners share a job |
| LeaseHazards.EarlyRevivalSharesTheJob | apps/worker/src/routes/outbound-email.ts:158-173 | a run in which reviving under a running job shares it between in-lease runners |
| LeaseHazards.UnheardPauseSharesTheJob | apps/worker/src/jobs.ts:930-949 | a run in which a pause lands unheard and is lifted: two in-lease runners share the job |
| JobLeases.TablesStayConsistent | apps/worker/src/jobs.ts:107-252 | the tables stay consistent in every run, disciplined or not |
| Outbox.KeyNamesLast | apps/worker/src/jobs.ts:1060 | equal publish keys end in the same last event id |
| Outbox.GroupsPartition | apps/worker/src/jobs.ts:1040-1055 | the groups partition the inserted rows: one group a stream, each holding its stream's rows whole and in order |
| Outbox.OfStreamIncreasing | apps/worker/src/jobs.ts:1049-1051 | a stream's rows keep the increasing id order of the inserts |
| Outbox.GroupsByFirstRow | apps/worker/src/jobs.ts:1040-1055 | groups stand in the order of their first rows |
| Outbox.OutboxStore.InsertByStream | apps/worker/src/jobs.ts:1040-1052 | stores every event under its id and returns the grouping of the stamped rows |
| Outbox.OutboxStore.EnqueueByStream | apps/worker/src/jobs.ts:1054-1083 | queues one publish job a group over its first to last id and keeps the created ones with their rows |
| Outbox.OutboxStore.PreparePublications | apps/worker/src/jobs.ts:1035-1085 | rows and jobs change together; the jobs are those of a partition of the inserted rows |
| OutboxDelivery.EveryGroupIsQueued | apps/worker/src/jobs.ts:1054-1064 | with fresh ids no range is suppressed as a duplicate: each group gets an unfinished job of exactly its range, and names stay distinct |
| OutboxDelivery.CommitStoresExactly | apps/worker/src/jobs.ts:1035-1052 | a commit stores exactly its events, each under the id it was given and in its workspace, and keeps the rows before it |
| OutboxDelivery.ReadsExactly | apps/worker/src/jobs.ts:353-375 | a runner reads exactly the committed events of its job's workspace and session from the first to the last id, and hands nothing over yet |
| OutboxDelivery.PublishesExactly | apps/worker/src/jobs.ts:377-386 | a call of a hub, heard or not, hands over exactly the batch it carries |
| OutboxDelivery.AtLeastOnce | apps/worker/src/jobs.ts:317-386 | when every publish job is done, in any reachable state, the hand-overs are exactly the committed events, each at its own stream's hub |
| OutboxDelivery.NothingIsForgotten | apps/worker/src/jobs.ts:1087-1099 | every committed event has reached its hub or has an unfinished job with a pointer whose range covers it |
| OutboxDelivery.OnlyItsOwnHub | apps/worker/src/jobs.ts:318-330 | nothing reaches a hub but committed events of that hub's stream |
| OutboxDelivery.HubsAreStreams | apps/worker/src/jobs.ts:318-330 | an event belongs to its session's hub, or without a session to its workspace's |
| OutboxDelivery.InvNext | apps/worker/src/routes/turns.ts:591-633 | commits, claims, reads, hand-offs heard or not, finishes, failures and crashes all keep each event answered for by a job |
| Invitations.RetryableIsNotTerminal | apps/worker/src/ops/invitation-diagnostics.ts:205-233 | a failure is retryable exactly when its reason is not one a later claim refuses, and exactly for which statuses, NaN and fractions included |
| Invitations.ReasonsExactly | apps/worker/src/ops/invitation-diagnostics.ts:211-236 | outcome unknown if and only if there is no numeric status above 0 (NaN aside), rejected if and only if the status is in the 400s other than 429 or the grant is invalid, unavailable otherwise, with waits of 30 seconds for 429 and 5 for the rest |
| Invitations.InvitationRecord.BeginDelivery | apps/worker/src/jobs.ts:534-605 | the row checks in their order, and `sending` recorded exactly when the provider may be called |
| Invitations.InvitationRecord.Fail | apps/worker/src/jobs.ts:607-611 | records a failure only on a pending row |
| Invitations.InvitationRecord.Settle | apps/worker/src/jobs.ts:662-695 | the row after a commit that landed, landed and threw, or was lost, and after the failure was recorded or lost in turn |
| Invitations.InvitationRecord.LoseConfiguration | apps/worker/src/jobs.ts:500-507 | marks queued and sending rows failed when the provider is missing |
| Invitations.InvitationRecord.RunDelivery | apps/worker/src/jobs.ts:493-712 | the provider is called exactly from a sendable row with capacity; for every branch the reason stored, the reason and the wait told to the job, the delivery state and the provider id, by the error's status and by how the commit went |
| Invitations.AtMostOnce | apps/worker/src/jobs.ts:534-711 | unless a claim without a provider hides a send or a retryable error answers an accepted one, no run of any workers gets two sends accepted, commits lost or unheard |
| Invitations.NothingSendsPastAnAcceptance | apps/worker/src/jobs.ts:555-570 | after an acceptance no later claim reaches the provider, whoever crashed and whatever was recorded |
| Invitations.DeliveredMeansAccepted | apps/worker/src/jobs.ts:548-554 | a delivered row has an accepted send behind it |
| InvitationHazards.ExceptionsAreExact | apps/worker/src/jobs.ts:493-711 | from every reachable state, a step is one of the two exceptions if and only if a second accepted send is possible after it |
| InvitationHazards.HiddenSendIsRepeated | apps/worker/src/jobs.ts:493-511 | from every reachable state, a claim without a provider during a send, or after an unrecorded acceptance, lets it be repeated |
| InvitationHazards.AskedForAgainIsRepeated | apps/worker/src/ops/invitation-diagnostics.ts:225-232 | from every reachable state, so does a retryable error for an accepted send |
| InvitationHazards.UnconfiguredSendsTwice | apps/worker/src/jobs.ts:493-511 | a run with two accepted sends when a claim finds no provider during a send |
| InvitationHazards.RetryableAfterAcceptingSendsTwice | apps/worker/src/ops/invitation-diagnostics.ts:225-232 | a run with two accepted sends after a retryable error for an accepted one |
| InvitationHazards.AtMostOnceExactly | apps/worker/src/jobs.ts:493-711 | at-most-once over all runs holds if and only if neither can happen |
| RunLog.CheckRun | packages/shared/src/run-log.ts:107-205 | one row's reports and state change equal the functional step |
| RunLog.ReportMissing | packages/shared/src/run-log.ts:208-222 | the missing finals in the order runs and turns were first seen |
| RunLog.ValidateRunLog | packages/shared/src/run-log.ts:69-228 | the loop's violations, verdict and summary equal the specification's |
| RunLogSpec.StateMeansLog | packages/shared/src/run-log.ts:61-82 | every field of the running state means a fact about the whole log read so far |
| RunLogSpec.FoundIsBroken | packages/shared/src/run-log.ts:84-206 | the rules reported at a row are exactly those the row breaks against the rows before it |
| RunLogSpec.ReportsAreExact | packages/shared/src/run-log.ts:84-206 | the reports, their order and their number are fixed by the stateless rules |
| RunLogReports.ReportedExactly | packages/shared/src/run-log.ts:84-206 | the list holds an entry for a place, id and rule if and only if the row at that place has that id and breaks that rule |
| RunLogReports.ReportedInOrder | packages/shared/src/run-log.ts:84-206 | row entries come by row, and within a row by the order of the rules in the walk |
| RunLogSpec.MissingIsExact | packages/shared/src/run-log.ts:208-222 | exactly one report for each turn that streamed and has no standing final |
| RunLogReports.MissingInOrder | packages/shared/src/run-log.ts:208-222 | missing finals come by run, then by turn, each in the order in which the log first shows them |
| RunLogReports.SummaryExactly | packages/shared/src/run-log.ts:224-228 | the summary has each run the log touches, with its standing finals and its last status |
| RunLogReports.StepAfterEndExactly | packages/shared/src/run-log.ts:113-130 | a step is reported as after the end if and only if its run's last status is stopped, error or completed |
| RunLogSpec.ValidIffWellFormed | packages/shared/src/run-log.ts:69-228 | a log is accepted if and only if its rows pass the pairwise rules on order, starts, terminal statuses, finals, resets and guidance |
| RunLogProjection.RunsDoNotInterfere | packages/shared/src/run-log.ts:75-228 | what is reported about a run is what its own projection reports |
| RunLogProjection.ValidIffEveryProjectionIs | packages/shared/src/run-log.ts:75-228 | a log is valid if and only if ids increase and every run's projection is valid, finals required or not |
| RunLogProjection.NightlySliceIsExact | apps/worker/src/ops/validator.ts:80-110 | the nightly slice of a run is accepted exactly when its projection is, no row naming the run fails the schema, and its guidance was recorded under it |
| RunLogProjection.NightlySliceRejectsSoundLog | apps/worker/src/ops/validator.ts:88-94 | a sound log the nightly slice flags |
| RunLogProjection.NightlySliceSeesMalformedRows | apps/worker/src/ops/validator.ts:88-94 | a malformed row that names the run fails its nightly slice and not its projection |
| MockStream.Builder.Push | packages/shared/src/mock-stream.ts:56-72 | appends one row and advances id and time, or rejects an id of 20 digits and changes nothing |
| MockStream.Builder.PushAll | packages/shared/src/mock-stream.ts:56-72 | a straight run of pushes appends consecutive rows, up to the first rejected id |
| MockStream.MockRunStream | packages/shared/src/mock-stream.ts:102-222 | the rows of the scenario under consecutive ids and times, or failure exactly when an id outgrows 19 digits |
| MockStream.ScenariosAsDocumented | packages/shared/src/mock-stream.ts:84-101 | each scenario ends in its documented status; a stop or a provider error streams nothing, any other its text once before one final, after a superseded attempt only in the retry; only a proposal has a row after its end |
| MockStream.ShapeIsWellFormed | packages/shared/src/mock-stream.ts:84-101 | a run that starts first, streams one turn before its final and is silent after its end is well formed |
| MockStream.MockProjection | packages/shared/src/mock-stream.ts:102-222 | in a concatenation of runs, each run's projection is its own stream |
| MockStream.GeneratedLogsAreValid | packages/shared/src/mock-stream.ts:56-222 | the generated streams under consecutive ids are all emitted exactly when the ids stay within 19 digits, and their rows end to end are then accepted with a final for every streamed turn |
| MockStream.RepeatedRunIsRejected | packages/shared/src/mock-stream.ts:117-128 | the same run twice is rejected, so distinct runs matter |
| JsonNumbers.NumberRoundTrip | packages/shared/src/request-review.ts:19 | reading a printed number gives it back, for every sign, digits and magnitude, but for the sign of zero |
| NumberLayout.WholeLayout | packages/shared/src/request-review.ts:19 | with no more digits than stand before the point, at most 21, the text is the sign, the digits and zeros up to the point, and no dot |
| NumberLayout.PointedLayout | packages/shared/src/request-review.ts:19 | a point inside the digits stands after exactly that many of them |
| NumberLayout.SmallLayout | packages/shared/src/request-review.ts:19 | a fraction with at most five zeros after the point is `0.`, those zeros and the digits |
| NumberLayout.ExponentLayout | packages/shared/src/request-review.ts:19 | any other magnitude has one digit before the dot and the signed exponent, one less than the place of the point |
| NumberLayout.ExponentExactly | packages/shared/src/request-review.ts:19 | an exponent is written if and only if the point stands beyond the 21st digit or six or more zeros before the first |
| NumberLayout.ZeroIsBare | packages/shared/src/request-review.ts:19 | both zeros are `0` |
| JsonNumbers.PrintIsInjective | packages/shared/src/request-review.ts:19 | two numbers print alike if and only if they are the same number, zeros merged |
| JsonStrings.EscapeRoundTrip | packages/shared/src/request-review.ts:18 | the escaped units read back as the string, whatever follows the closing quote |
| JsonStrings.EscapeWellFormed | packages/shared/src/request-review.ts:18 | escaping leaves no lone surrogate |
| JsonStrings.ShortForms | packages/shared/src/request-review.ts:18 | the quote, the backslash and the five named controls have two-unit escapes |
| JsonStrings.LongForm | packages/shared/src/request-review.ts:18 | other controls and lone surrogates are `\u` and four lower-case hex digits of the unit |
| JsonStrings.PlainIsCopied | packages/shared/src/request-review.ts:18 | every other unit outside the surrogates is copied |
| JsonStrings.PairIsCopied | packages/shared/src/request-review.ts:18 | a surrogate pair is copied |
| JsonStrings.EscapeInPieces | packages/shared/src/request-review.ts:18 | a string that is not cut inside a pair is escaped piece by piece |
| Ordering.SortSorts | packages/shared/src/request-review.ts:24 | sorting distinct keys orders them and keeps them |
| Ordering.SortedIsUnique | packages/shared/src/request-review.ts:24 | a set of keys has one sorted listing |
| Ordering.LessExactly | packages/shared/src/request-review.ts:24 | a key comes before another if and only if it is a proper prefix or has the smaller unit where they first differ |
| CanonicalJson.RoundTrip | packages/shared/src/request-review.ts:17-27 | before any delimiter, reading the canonical text gives the value and stops at the delimiter |
| CanonicalForm.LiteralForms | packages/shared/src/request-review.ts:18 | `null`, `true` and `false` |
| CanonicalForm.ArrayForm | packages/shared/src/request-review.ts:20 | an array is its items' texts with commas between brackets, a hole having no text |
| CanonicalForm.ObjectForm | packages/shared/src/request-review.ts:21-25 | an object is its escaped keys in sorted order, each with a colon and its value's text, with commas between braces |
| CanonicalJson.SameValueSameText | packages/shared/src/request-review.ts:21-25 | values equal up to member order print alike |
| CanonicalJson.CanonicalIsInjective | packages/shared/src/request-review.ts:17-27 | two values print alike if and only if they denote the same JSON value |
| CanonicalJson.SparseArraysCollide | packages/shared/src/request-review.ts:20 | the one exception: an array of one hole prints like the empty array |
| HoleFreeJson.HoleFreeIsInjective | packages/shared/src/request-review.ts:17-27 | values without holes print alike if and only if they are the same, item by item and key by key, but for member order and the sign of zero |
| CanonicalJson.LoneHole | packages/shared/src/request-review.ts:20 | arrays of different content that denote alike are the empty one and the lone hole |
| Utf8.Utf8RoundTrip | packages/shared/src/request-review.ts:38 | decoding UTF-8 gives the scalar values back, so no two share their bytes |
| Utf8.PointBytes | packages/shared/src/request-review.ts:38 | one to four bytes by magnitude, a first byte that says how many and continuation bytes, six bits each, the highest first |
| ReviewBinding.PrintWellFormed | packages/shared/src/request-review.ts:37-38 | the canonical text never holds a lone surrogate |
| ReviewBinding.TextEncodeIsInjective | packages/shared/src/request-review.ts:38 | on well-formed text the encoder is injective |
| ReviewBinding.TextEncodeMergesLoneSurrogates | packages/shared/src/request-review.ts:38 | on ill-formed text it is not |
| ReviewBinding.EncodedInPieces | packages/shared/src/request-review.ts:38 | a text is encoded piece by piece, unless the cut parts a surrogate pair |
| ReviewBinding.UnitEncodes | packages/shared/src/request-review.ts:38 | a unit outside the surrogates is encoded as its code point, a lone surrogate as EF BF BD |
| ReviewBinding.PairEncodes | packages/shared/src/request-review.ts:38 | a pair is the four bytes of 65536 plus the ten bits of its high and the ten of its low unit |
| ReviewBinding.HashedBytesAreTheRequest | packages/shared/src/request-review.ts:36-38 | two requests hash the same bytes if and only if id, kind and payload agree |
| CanonicalForm.HashedTextIs | packages/shared/src/request-review.ts:36-37 | what is hashed is the object text of id, kind and payload, in that order and no version |
| CanonicalForm.HexIs | packages/shared/src/request-review.ts:40 | two lower-case hex digits a byte, the high half first |
| CanonicalForm.BindingIs | packages/shared/src/request-review.ts:36-41 | the binding holds the version and `sha256:` before the hex of the hash of the encoded text |
| CanonicalForm.RefusedExactly | packages/shared/src/request-review.ts:26 | a request is refused if and only if its payload holds something JSON cannot say |
| ReviewBinding.EqualHashMeansSameRequestOrCollision | packages/shared/src/request-review.ts:36-41 | equal bound hashes mean the same request or a collision of the hash, and conversely |
| ReviewBinding.BindingsAgreeExactly | packages/shared/src/request-review.ts:36-41 | two bindings are equal if and only if the versions are and the requests are the same or their bytes collide |
| PromptSplit.ContinuationChunks | runtime/hermes/enterprise_bridge/runtime_policy.py:419-434 | the loop raises exactly when a stripped line exceeds the limit, and else returns the packing's chunks |
| PromptSplit.GreedyIsASplit | runtime/hermes/enterprise_bridge/runtime_policy.py:419-434 | the chunks are the non-blank pieces, stripped, of a split of the text at line boundaries within the limit |
| PromptSplit.GreedyIsOptimal | runtime/hermes/enterprise_bridge/runtime_policy.py:419-434 | no split at line boundaries within the limit has fewer non-blank pieces |
| PromptGreedy.ChunksExactly | runtime/hermes/enterprise_bridge/runtime_policy.py:419-434 | among all splits at line boundaries within the limit, the chunks are those of one in which no piece could take the first line of the next, and every such split has them |
| PromptSplit.SucceedsExactly | runtime/hermes/enterprise_bridge/runtime_policy.py:423-424 | the loop succeeds if and only if some split fits the limit |
| PromptSplit.NothingIsLost | runtime/hermes/enterprise_bridge/runtime_policy.py:419-434 | the text is the chunks in order with only white space around them and a line break in every inner gap; chunks are non-empty, stripped and within the limit |
| PromptSections.DecodesEveryText | runtime/hermes/enterprise_bridge/runtime_policy.py:469-472 | strict decoding accepts the encoding of every text |
| PromptSections.BuildSkillPromptSections | runtime/hermes/enterprise_bridge/runtime_policy.py:446-484 | the loop returns the sections, or the first refusal in manifest order |
| PromptRefusals.PackageExactly | runtime/hermes/enterprise_bridge/runtime_policy.py:460-474 | which package trouble is reported, by what is wrong: not the reviewed package, no file, other bytes than pinned, bytes that encode no text, a reserved marker; and else the text the bytes encode |
| PromptRefusals.SkillExactly | runtime/hermes/enterprise_bridge/runtime_policy.py:475-478 | a sound text is refused, and how, if and only if a stripped line is longer than 4000 characters, or it is all white space |
| PromptRefusals.RefusesExactly | runtime/hermes/enterprise_bridge/runtime_policy.py:446-484 | the first refused skill decides; without one it is refused if and only if there are more than 99 chunks or the framed characters, counted section by section, exceed 8000 |
| PromptRefusals.RenderedLength | runtime/hermes/enterprise_bridge/runtime_policy.py:437-443 | up to 99 sections below 10000 characters, the framed length is 74, and for each section 78, the digits of its length and its text, with 2 between |
| PromptSections.IdsInOrder | runtime/hermes/enterprise_bridge/runtime_policy.py:481 | section ids compare as their numbers do, up to 99 |
| PromptSections.ListedInBuiltOrder | runtime/hermes/enterprise_bridge/runtime_policy.py:28-33 | however sections are registered, sorting their ids gives the built order |
| PromptSections.SectionsPinTheSkills | runtime/hermes/enterprise_bridge/runtime_policy.py:446-484 | successful sections are, manifest by manifest, chunks that give back a text with the pinned digest, without reserved markers, at most 99 and 8000 framed characters |
| PluginTree.Feed | runtime/hermes/enterprise_bridge/runtime_policy.py:540-556 | the loop refuses a symlink, then an empty tree, and else feeds the frames of the wanted files |
| PluginTree.TreeStream | runtime/hermes/enterprise_bridge/runtime_policy.py:533-557 | a tree with an unskipped symlink is refused, then one without a hashed file; else the stream is over the tree's files, whatever order the walk gave, and a reader of four-byte lengths, names, eight-byte lengths and contents finds exactly the hashed paths in order with their contents, and no byte over |
| PluginTree.StreamReads | runtime/hermes/enterprise_bridge/runtime_policy.py:549-554 | that reader gives every name and content of a list of files back in order, and consumes every byte |
| PluginTree.HashedPathsAreSorted | runtime/hermes/enterprise_bridge/runtime_policy.py:540-547 | the hashed files are exactly the unskipped regular files, each once, sorted by path |
| PluginPaths.SkippedExactly | runtime/hermes/enterprise_bridge/runtime_policy.py:542 | a path is left out if and only if it has a whole part `__pycache__`, or its last part ends in `.pyc` or `.pyo` after at least one character |
| PluginTree.FramesAgree | runtime/hermes/enterprise_bridge/runtime_policy.py:549-554 | frames with field-sized lengths come apart from what follows in one way only |
| PluginTree.StreamFixesFiles | runtime/hermes/enterprise_bridge/runtime_policy.py:533-557 | two trees share their stream if and only if they hold the same paths with the same bytes |
| PolicyLatch.PhaseAcceptsExactly | runtime/hermes/enterprise_bridge/cloud_managed.py:289-298 | a history of observations passes if and only if it promotes at most once and never returns |
| PolicyLatch.CurrentExactly | runtime/hermes/enterprise_bridge/runtime_policy.py:140-154 | when a check passes, what it changes, and that a failing armed latch shuts |
| PolicyLatch.AdmitsExactly | runtime/hermes/enterprise_bridge/runtime_policy.py:156-176 | an uninterrupted provider check admits exactly on a current state and the bound route; an armed refusal shuts the latch, an unarmed one changes nothing |
| PolicyRoutes.SecondLockExactly | runtime/hermes/enterprise_bridge/runtime_policy.py:160-176 | the second lock passes if and only if a binding is held whose provider, key and mode are the agent's, empty when absent, and whose URL is the agent's without all its trailing slashes |
| PolicyRoutes.RouteReadsAgent | runtime/hermes/enterprise_bridge/runtime_policy.py:165-170 | the route compared is exactly those attributes |
| PolicyRoutes.SlashesChangeNothing | runtime/hermes/enterprise_bridge/runtime_policy.py:167 | slashes appended to the agent's URL change no answer and no state |
| PolicyRoutes.FileTroubleSays | runtime/hermes/enterprise_bridge/runtime_policy.py:145-149 | an armed latch that finds its file gone or changed stores which |
| PolicyRoutes.BindingTroubleSays | runtime/hermes/enterprise_bridge/cloud_managed.py:523-559 | with the file in order, a role binding that differs is what it stores |
| PolicyRoutes.PhaseTroubleSays | runtime/hermes/enterprise_bridge/cloud_managed.py:289-298 | with the binding in order, a phase that may not follow, and whether it was a return |
| PolicyRoutes.LocalTroubleSays | runtime/hermes/enterprise_bridge/cloud_managed.py:538-559 | with the phase in order, a failing local check, its text cut to 500 characters, and the phase is kept |
| PolicyRoutes.FailedRouteSays | runtime/hermes/enterprise_bridge/runtime_policy.py:163-176 | a failed second lock stores whether the binding was missing or differed |
| PolicyRoutes.UnarmedRefuses | runtime/hermes/enterprise_bridge/runtime_policy.py:143-144 | a latch that is not ready or has no validator or digest refuses and stays as it is |
| PolicyRoutes.InitializerOpensAndShuts | runtime/hermes/enterprise_bridge/runtime_policy.py:120-138 | the initializer opens the latch once with its digest, phase and binding, and its failure shuts it |
| PolicyLatch.NativePolicyState.constructor | runtime/hermes/enterprise_bridge/runtime_policy.py:110-118 | the latch starts closed |
| PolicyLatch.NativePolicyState.SetReady | runtime/hermes/enterprise_bridge/runtime_policy.py:120-126 | opens with the digest, the validator and the binding |
| PolicyLatch.NativePolicyState.SetFailed | runtime/hermes/enterprise_bridge/runtime_policy.py:128-138 | closes, forgets digest, validator and binding, and tries to remove the file, which may survive |
| PolicyLatch.NativePolicyState.EnsureCurrentNow | runtime/hermes/enterprise_bridge/cloud_managed.py:523-559 | the checks in their order under one lock, the phase kept even when a later check fails |
| PolicyLatch.NativePolicyState.CheckRouteNow | runtime/hermes/enterprise_bridge/runtime_policy.py:160-176 | the second lock compares the agent's normalised route with the binding, or fails closed |
| PolicyLatch.NativePolicyState.EnsureProviderCurrent | runtime/hermes/enterprise_bridge/runtime_policy.py:156-176 | both locks in order |
| PolicyLatch.CalledOnlyWhenReady | runtime/hermes/enterprise_bridge/runtime_policy.py:156-176 | in every interleaving a call passes its second lock only while the latch is ready and the route is the bound one |
| PolicyLatch.FailsClosed | runtime/hermes/enterprise_bridge/runtime_policy.py:128-154 | after the first failure no check passes and no call is admitted again |
| PolicyLatch.LateCallsAreSplit | runtime/hermes/enterprise_bridge/cloud_managed.py:523-537 | no check accepts a preflight grant after a sighted assignment, and a call does so if and only if the sighting fell between its two locks |
| PolicyLatch.SplitCallsHappen | runtime/hermes/enterprise_bridge/runtime_policy.py:156-160 | an interleaving in which it does |
| RegexMatch.GreedyTakesRun | packages/shared/src/partner-workflow.ts:16 | greedy repetition takes its whole run when what follows matches there |
| RegexMatch.LazyStopsFirst | packages/shared/src/partner-workflow.ts:16 | lazy repetition stops at the first place where what follows matches |
| RegexMatch.RepeatChooses | packages/shared/src/partner-workflow.ts:16 | any repetition stops at the last such place when greedy, the first when lazy |
| BotMode.NotInsideDisplay | packages/shared/src/partner-workflow.ts:16 | inside a display neither the profile nor the colon can match |
| BotMode.FormatParses | packages/shared/src/partner-workflow.ts:23-42 | every accepted input's line parses to the trimmed display, the profile and the body less its leading white space |
| BotModePrinter.LineExactly | packages/shared/src/partner-workflow.ts:23-31 | the line is, literally, the head, the robot and a blank, the trimmed display, ` (@`, the profile, `): ` and the body |
| BotModePrinter.LineIsAReading | packages/shared/src/partner-workflow.ts:16-31 | the line is the grammar's text of one legal reading, with one blank after the robot, the display and the colon |
| BotModePrinter.RefusesExactly | packages/shared/src/partner-workflow.ts:10-30 | the first field at fault is named: a trimmed display outside 1 to 64 units or with a colon, a line feed or a parenthesis, then a profile outside its alphabet or length, then a body outside 1 to 8000 units |
| BotModePrinter.TrimExactly | packages/shared/src/partner-workflow.ts:11 | trimming takes away the white space at both ends and nothing else |
| BotModePrinter.UnitsExactly | packages/shared/src/partner-workflow.ts:10-29 | lengths count code points above the basic plane twice |
| BotMode.SameLineSameMessage | packages/shared/src/partner-workflow.ts:23-31 | accepted inputs with the same line share trimmed display, profile and whole body |
| BotModeFirst.ParsedIsFirst | packages/shared/src/partner-workflow.ts:33-42 | a parsed message is read off the first legal decomposition of the whole text: a robot before none, more white space after it, a shorter display, a body without leading white space |
| BotModeFirst.ParseIsTheFirstReading | packages/shared/src/partner-workflow.ts:33-42 | a text parses to nothing exactly without a legal decomposition, and else to the message in its first one |
| BotModeFirst.RobotIsTaken | packages/shared/src/partner-workflow.ts:16 | a text with two decompositions and different displays, and the one it parses to |
| BotModeGrammar.ParsesExactly | packages/shared/src/partner-workflow.ts:16 | the parser accepts exactly the texts with a legal decomposition, legacy form included |
| UsdSums.CentsAreNear | packages/shared/src/wallets.ts:92-93 | one value's cents are within half a cent of it, and exact with at most two decimals |
| UsdSums.CentsAreNearest | packages/shared/src/wallets.ts:92-93 | one value's cents are the nearest whole number of cents, the greater when two are as near |
| UsdSums.SumIsNear | packages/shared/src/wallets.ts:88-96 | a sum is null exactly when nothing is present, and else within half a cent for every value added |
| UsdSums.SumForgetsOrder | packages/shared/src/wallets.ts:91-94 | the order of the values does not matter |
| UsdSums.SumsCompose | packages/shared/src/wallets.ts:88-96 | summing two sums is summing everything, nulls included |
| UsdSums.FromCentsIsExact | packages/shared/src/wallets.ts:95 | the printed sum says exactly the cents added up |
| UsdSums.SumSays | packages/shared/src/wallets.ts:88-96 | the sum has no leading zero and exactly two decimals, and denotes the sum of the values' cents |
| TokenAmounts.GroupedInThrees | packages/shared/src/wallets.ts:104 | grouping adds commas and nothing else, exactly every three digits from the right, none in front |
| TokenAmounts.KeptDigits | packages/shared/src/wallets.ts:100-103 | the digits kept are the amount rounded down to the shown places, without a trailing zero |
| TokenAmounts.FormatReadsBack | packages/shared/src/wallets.ts:99-107 | the text reads back as the largest shown amount not above the true one, exact when all decimals fit; the `<0.0…1` form appears exactly for positive amounts below one unit, and throws for no digits |
| TokenAmounts.TextExactly | packages/shared/src/wallets.ts:99-107 | character for character: the whole tokens without leading zeros in groups of three, and only if a digit is kept a point and the kept digits without a trailing zero |
| TokenAmounts.ThrowsExactly | packages/shared/src/wallets.ts:105 | it throws if and only if no digits are allowed and the amount is positive and below one token |
| TokenAmounts.HalfATokenThrows | packages/shared/src/wallets.ts:105 | half a token with no digits throws |
| TokenAmounts.SmallestIsOneUnit | packages/shared/src/wallets.ts:105 | the number after `<` is one unit of the last shown place |
| TokenAmounts.SmallestSpelled | packages/shared/src/wallets.ts:105 | the small form is `<0.`, zeros, and a one in the last of the allowed places |
| Arrivals.FirstKnown | apps/client/src/app/fresh.ts:42 | the first known index, or 0 when none is known |
| Arrivals.ArrivalBag.constructor | apps/client/src/app/fresh.ts:26-28 | a new bag knows the ids it starts with and holds no arrival |
| Arrivals.ArrivalBag.MarkArrivals | apps/client/src/app/fresh.ts:38-55 | the loop's new bag and answer equal the specification's |
| Arrivals.CallDone | apps/client/src/app/fresh.ts:38-55 | one call in closed form for each id, repeats in the list included |
| Arrivals.ArrivesExactly | apps/client/src/app/fresh.ts:41-47 | a sighting counts if and only if the id was never listed before, some id was, and in an ordered list a known id stands ahead of it or none is listed |
| Arrivals.FreshExactly | apps/client/src/app/fresh.ts:1-14 | over any history with a clock that does not run backwards, an id is reported exactly when listed now and its first sighting counted as an arrival less than 5 seconds before |
| Arrivals.AnswersExactly | apps/client/src/app/fresh.ts:38-55 | so a call answers an id if and only if it lists it and such a sighting lies less than 5000 ms back, at or before the call |
| Arrivals.OneWindow | apps/client/src/app/fresh.ts:38-55 | an id is never reported in two separate windows |

## Left out

- Postgres, row-level security, Durable Objects, Workflows, queues and the WorkOS client: their calls are atomic steps or nondeterministic outcomes.
- Retention: rows of `jobs` and `stream_events` are never deleted here.
- Jobs.JobStore.EnqueueJob: ids are consecutive numbers, because only their freshness matters; `ON CONFLICT` on the pointer can then never fire and is kept as a branch.
- Jobs.JobStore.DrainJobs: the lift of the pauses and the query read one clock, and a database error in a claim or in recording a failure, which ends the pass early, is not modelled; what had happened by then is a shorter pass.
- Revivals of a finished job are one transaction; the key check's variant also resets the attempts, replaces the payload and may move a waiting job forward.
- Capacity reservations behind an invitation are one boolean the claim sees; the expiry sweep before it is the `Leave` step, and moving the expiry job's due time is not modelled.
- OutboxDelivery.AtLeastOnce: audience scoping of hub events is taken to keep every event, because the code that scopes them only narrows recipients; the order inside one hub call is not tracked there (`Outbox.OfStreamIncreasing` gives it for prepared batches).
- The direct hand-off finishes the publish jobs it was given; that the route names the right job id is taken from `outcome.publishJobId`.
- JavaScript objects with getters, symbols, non-enumerable members or a changed prototype of their members: `Held` values have plain members, one a key.
- Zod schemas, enum tuples and catalogs, apart from the three Bot Mode schemas and the id limit of the mock stream.
- The `JSONL` wrapper of the mock stream, and the payload fields no rule reads.
- PromptSections.BuildSkillPromptSections: packages and file reads are values given at the start, because a file that changes during the loop is caught by the digest compared in the same iteration.
- PluginTree.TreeStream: a root that is itself a symlink or missing is refused before the walk and is not modelled; names that do not encode, and lengths beyond the four- and eight-byte fields, make the source raise and are excluded by `Framable`.
- PolicyLatch.NativePolicyState.EnsureCurrentNow: the local checks after the phase are one value, the first that raises, because none of them changes state; an agent that is absent is refused by the wrapper before any lock.
- The general regular-expression engines of JavaScript and Python: only the constructs of the one Bot Mode expression.
- UsdSums.SumIsNear: values are digits with an optional fraction, as the schemas require. `BigInt` reads more (an empty string, white space, hexadecimal digits) and `split` ignores a second point; what those texts come to is not modelled.
- Arrivals.FreshExactly: `Date.now()` going backwards is excluded, because a deleted arrival is not restored; the React hook around the bag only rebuilds it when the scope changes.
- Liveness: that a job is eventually run, or a hub eventually answers, is not stated.
