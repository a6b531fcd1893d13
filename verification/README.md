# Kong Certificate Lite: renewal engine

A Dafny 4.11 model of the parts of Kong Certificate Lite that renew certificates and push them to Kong, with
proofs. `dafny verify dfyconfig.toml` checks all of it.

Time is a whole number of nanoseconds since 0000-01-01 in UTC. The clock, the ACME client, Kong's answers,
failing statements and partial file writes are inputs, so every statement holds for all of them.

| file | subject |
|---|---|
| `Wrappers`, `Text`, `Calendar`, `Domain` | result types, Go's string functions, the Gregorian calendar, the entities |
| `CronField`, `Cron` | cron fields, the bounded search for the next slot, when that search succeeds |
| `Notification`, `RenewalScheduler` | due test, expiry windows, one scheduler round and any sequence of rounds |
| `SchedulerLifecycle` | Start, Stop, the loop and cancellation, interleaved |
| `TimeText`, `Tables` | timestamps as text; certificate and job tables; the guard of issue and renew |
| `Pem`, `AcmeMachine` | certificate files; any number of calls interleaved statement by statement |
| `AcmeOverlap`, `AcmeCooldown`, `JobConservation`, `IssuedFiles`, `EditRaces` | what every interleaving keeps |
| `Database`, `JobUseCase`, `KongSync`, `AcmeUseCase`, `CertificateUseCase`, `FormLines` | the program's own methods on mutable state |
| `Links`, `LinkRuns`, `SyncFacts`, `SyncRaces` | the link table over sequential runs, what a sync means, and syncs that overlap |
| `AcmeRefinement`, `AcmeOutcome` | method and machine agree; what an issue or renewal that returns nil has done |

## Results that are not what one might expect

- Two issue or renew jobs of one certificate can run at once, because the guard's query and the insert are
  separate statements (`AcmeOverlap.OverlapHappens`).
- The five-year horizon of the cron search is too short for 29 February around a non-leap century such as
  1900, and for some dates with a weekday; the search then returns a time that does not match.
- `*/9223372036854775807` in a field with minimum 1 wraps the loop counter around; the extra values lie outside
  every range, so no slot changes.
- Kong can be made to create a second certificate for a link in five ways: it answers a create with success but
  without an id, it names a certificate by white space only, in a create or in a later update, the link row cannot
  be written after a create, or two syncs overlap. `LinkRuns.CreatedTwiceIff` is the exact condition for sequential
  runs, `SyncRaces.CreatedTwiceIff` for all interleavings.
- Nothing keeps other calls out between the read and the write of a sync, so a failing sync can empty a Kong id
  that another has stored, and a sync can undo an unlink (`SyncRaces`).
- An edit whose row was read before an issue can change the names of the certificate after it
  (`EditRaces.StaleEditChangesNames`).
- A job whose MarkIssued, UpsertSyncTarget, target update or Complete fails runs for good. Jobs in progress aside
  there are no other running jobs, and an issue or renew job of this kind shuts its certificate
  (`JobConservation.AbandonedRunsForGood`, `AcmeOverlap.AbandonedJobShuts`).
- Day and weekday of a schedule must both match. The crontab utility of POSIX.1-2017 accepts either when both
  are restricted; the model follows the code.

## Model

| member | source | states |
|---|---|---|
| `CronField.ParseField` | internal/usecase/scheduler.go:239-274 | the parser loop gives the union of what the comma segments denote, or fails when some segment is neither `*`, nor `*/k` with k > 0, nor a number in range |
| `CronField.AddSteps` | internal/usecase/scheduler.go:253-260 | a step segment as the 64-bit counter computes it: the multiples of the step from the minimum, plus -1 and the least int64 when the counter wraps around |
| `CronField.FieldMeaning` | internal/usecase/scheduler.go:239-279 | inside the range a value is allowed exactly when some segment denotes it, so wrap-around never shows |
| `CronField.NumberMeaning` | internal/usecase/scheduler.go:262-270 | a number in decimal allows itself alone, and does not parse outside the range |
| `CronField.StepMeaning` | internal/usecase/scheduler.go:253-260 | `*/k` parses exactly for k > 0 and allows the values that lie a multiple of k above the minimum |
| `CronField.FieldNotEmpty` | internal/usecase/scheduler.go:239-274 | a field that parses allows some value of its range |
| `CronField.FieldRoundTrip` | internal/usecase/scheduler.go:239-274 | every non-empty list of values of the range, written in decimal with commas, parses back to exactly its set |
| `Cron.ParseExpression` | internal/usecase/scheduler.go:186-214 | the parser method computes ParsedExpression, whose meaning is the next row |
| `Cron.ExpressionMeaning` | internal/usecase/scheduler.go:186-214 | words without white space joined by single spaces parse exactly when there are five and word i parses in the range of field i (minute, hour, day, month, weekday), and field i then allows what word i denotes |
| `Cron.DailyMeaning` | internal/usecase/scheduler.go:186-233 | `m h * * *` in decimal parses and matches a time exactly when its minute is m and its hour h |
| `Cron.ParsedIsUsable` | internal/usecase/scheduler.go:186-214 | every schedule that parses allows some minute, hour, day, month and weekday |
| `Cron.Next` | internal/usecase/scheduler.go:216-233 | the minute loop returns the least whole UTC minute after its argument that matches all five fields, or the end of the horizon of 2,635,200 minutes when none comes before it |
| `Cron.NextIsUnique` | internal/usecase/scheduler.go:216-225 | that description determines the result |
| `Cron.WeeklySlot` | internal/usecase/scheduler.go:216-233 | with one weekday and one time of day the next slot is at that time on that weekday, at most seven days ahead |
| `Cron.MondayMorning` | internal/usecase/scheduler.go:186-233 | `0 3 * * 1` from midnight on Monday, 1 January 2024, gives 03:00 of the same day |
| `Cron.SlotsIncrease` | internal/usecase/scheduler.go:141-158 | slots of successive loop turns strictly increase, so none fires twice |
| `Cron.NextFindsIff` | internal/usecase/scheduler.go:216-225 | the result is before the end of the horizon exactly when a match lies in it, and then it matches |
| `Cron.FoundByDays` | internal/usecase/scheduler.go:216-233 | a match lies in the horizon exactly when an allowed day of the calendar meets the window at an allowed time of day |
| `Cron.YearlyDateFound` | internal/usecase/scheduler.go:216-233 | weekday unrestricted and some allowed date valid in a common year: found from every start |
| `Cron.MonthlyDayFound` | internal/usecase/scheduler.go:216-233 | month unrestricted and some allowed day up to 28: found from every start, whatever the weekdays |
| `Cron.LeapDayFoundIff` | internal/usecase/scheduler.go:216-233 | only 29 February allowed: found exactly when a leap day has an allowed time inside the window |
| `Cron.LeapDayFound` | internal/usecase/scheduler.go:216-233 | 29 February with the weekday unrestricted and no non-leap century among the next four years: found |
| `Cron.HorizonAdequateIff` | internal/usecase/scheduler.go:216-233 | for every schedule: a match lies in the horizon of every start if and only if the days allowed by day, month and weekday leave no gap as long as the horizon |
| `Calendar.CalendarRepeats` | internal/usecase/scheduler.go:227-233 | dates and weekdays repeat every 146,097 days |
| `Cron.OneCycleDecides` | internal/usecase/scheduler.go:216-233 | so the starts of one 400-year cycle decide whether the horizon is long enough |
| `Cron.NoGapOfDates` | internal/usecase/scheduler.go:218-224 | weekday unrestricted: there is no such gap, and the horizon is enough from every start, if and only if an allowed date exists in every year |
| `Cron.NothingAfterLeapDay1896` | internal/usecase/scheduler.go:218-224 | a start from which no schedule without a yearly date is found: the end of 29 February 1896 |
| `Cron.NewYearMondayNotFound` | internal/usecase/scheduler.go:218-224 | for `0 0 1 1 1` from 2018-01-01 the search gives the end of its horizon, which does not match |
| `Calendar.DayOfDate` | internal/usecase/scheduler.go:227-233 | day numbers and proleptic Gregorian dates are inverse to each other (with the contract of DateOf) |
| `Calendar.MonthsFollow` | internal/usecase/scheduler.go:227-233 | consecutive months are as long as in the Gregorian calendar, so one anchor fixes the day number of every date |
| `Calendar.WeekdaysFollow` | internal/usecase/scheduler.go:227-233 | 1 January 2018 is a Monday and weekdays follow each other, which fixes the weekday of every day |
| `Calendar.AddDateIsShift` | internal/usecase/scheduler.go:174 | moving a UTC instant by whole calendar days is a shift by that many times 24 hours, across months and leap days |
| `Notification.DueIffRemainingDays` | docs/ARCHITECTURE.md:215 | an eligible certificate is due exactly when its remaining days, rounded up, are at most its setting |
| `Notification.DueStaysDue` | internal/usecase/scheduler.go:161-176 | once due it stays due at all later times while its expiry is kept and its setting does not shrink |
| `Notification.DueIff` | internal/usecase/scheduler.go:161-176 | due exactly when: renewed automatically, with an expiry, a positive setting and both paths, active, warned of or expired, and at most the setting of days of 24 hours left |
| `Notification.RemainingDaysIsCeiling` | internal/usecase/notification.go:60 | the remaining days are the least whole number of days of 24 hours that covers the remaining time |
| `Notification.NotificationIffInWindow` | internal/usecase/notification.go:52-85 | each threshold is announced exactly in the 48 hours that start 14, 7, 3 or 0 days before expiry |
| `Notification.NoticesInHours` | internal/usecase/notification.go:52-85 | the same windows in hours before expiry, and the severity and contents of the notice |
| `RenewalScheduler.KeyInjective` | internal/usecase/scheduler.go:130 | equal de-duplication keys mean the same certificate, event and UTC date |
| `RenewalScheduler.Scheduler.ExpiryNotificationSent` | internal/usecase/scheduler.go:126-139 | answers whether the key was remembered and remembers it |
| `RenewalScheduler.Scheduler.RunOnce` | internal/usecase/scheduler.go:91-124 | attempts, collected errors, remembered keys and notices of one round, for any answers of the list and the renewer; an id is attempted exactly when a listed certificate of that id meets every condition of DueIff |
| `RenewalScheduler.FailuresIff` | internal/usecase/scheduler.go:97-105 | the collected errors are those of the attempts that failed |
| `RenewalScheduler.FailuresInOrder` | internal/usecase/scheduler.go:97-105 | in the order of the attempts |
| `RenewalScheduler.AttemptsAreTheDue` | internal/usecase/scheduler.go:91-105 | a round attempts exactly the due certificates, each once, whatever fails |
| `RenewalScheduler.AttemptsInListOrder` | internal/usecase/scheduler.go:91-105 | in list order |
| `RenewalScheduler.AtMostOncePerDay` | internal/usecase/scheduler.go:107-139 | over any sequence of rounds of one scheduler since its start, no certificate, event and UTC date is announced twice |
| `RenewalScheduler.AtMostThreePerWindow` | internal/usecase/scheduler.go:107-139 | one scheduler since its start announces a threshold of a fixed expiry at most three times |
| `RenewalScheduler.AnnouncedAtLeastOnce` | internal/usecase/notification.go:52-85 | rounds at most 48 hours apart that begin before a window and reach its start announce its threshold, inside the window |
| `RenewalScheduler.OneNoticePerRound` | internal/usecase/notification.go:60-82 | one round announces at most one threshold per certificate |
| `SchedulerLifecycle.RunInvariant` | internal/usecase/scheduler.go:60-159 | mutex, roles and channels stay consistent in every interleaving of Start, Stop, the loop and cancellation |
| `SchedulerLifecycle.OneLoopNoDoubleClose` | internal/usecase/scheduler.go:60-89 | at most one loop is launched, and neither channel is closed twice |
| `SchedulerLifecycle.LateStartNeverLaunches` | internal/usecase/scheduler.go:60-70 | a Start that locks after stopped was set never reaches its go statement |
| `SchedulerLifecycle.StartLaunches` | internal/usecase/scheduler.go:60-70 | a first Start that nothing interrupts launches the loop and frees the mutex |
| `SchedulerLifecycle.LeavesOnlyWhenTold` | internal/usecase/scheduler.go:141-158 | in every interleaving the loop leaves only after cancellation or after the stop channel was closed |
| `SchedulerLifecycle.TurnAfterTurn` | internal/usecase/scheduler.go:141-158 | until then each turn of the loop can lead through RunOnce to the next |
| `SchedulerLifecycle.NoRunAfterStop` | internal/usecase/scheduler.go:72-89 | once the Stop that set stopped has returned, no RunOnce is in progress or started by the loop |
| `SchedulerLifecycle.WayOutIsOpen` | internal/usecase/scheduler.go:72-89 | whenever a Stop waits and the loop has not left, a statement other than the timer firing or RunOnce taking the lock is enabled, and brings the exit nearer |
| `SchedulerLifecycle.OnlyLingeringDelays` | internal/usecase/scheduler.go:60-159 | and no statement of any caller but those two takes the exit further away |
| `SchedulerLifecycle.WaitingStopCanReturn` | internal/usecase/scheduler.go:72-89 | so from every state of a run in which a Stop waits, some continuation of at most eight statements lets it return |
| `TimeText.FormatOrder` | internal/adapter/sqlite/job_repository.go:173-184 | for years 0000 to 9999 the order of the texts is the order of the times floored to the second |
| `TimeText.FormatShows` | internal/adapter/sqlite/job_repository.go:173 | a formatted time shows year, month, day, hour, minute and second, each in its place |
| `TimeText.ParseOfFormat` | internal/adapter/sqlite/certificate_repository.go:482-490 | parsing a formatted time gives that floor |
| `TimeText.FormatOfParse` | internal/adapter/sqlite/certificate_repository.go:482-490 | formatting a parsed time gives the text back |
| `TimeText.ChronologicalIff` | internal/adapter/sqlite/job_repository.go:261-266 | on the instants from 0 up to a bound, text order is the order of whole seconds if and only if the bound is at most the year 10000 |
| `Tables.CooldownText` | internal/adapter/sqlite/job_repository.go:164-195 | the text comparison of the failed-job query is a comparison of instants: less than 15 minutes and one second old |
| `Tables.GuardIsExact` | internal/usecase/acme.go:270-296 | with no running job the guard blocks exactly while some failed job is that recent, and the retry time is 15 minutes after the start of the newest failed job |
| `Tables.GuardInSeconds` | internal/usecase/acme.go:270-296 | in seconds: allowed again 901 seconds after the newest failed job started, and until then told to retry at 900 seconds |
| `AcmeOverlap.OverlapMeansEarlyRead` | internal/usecase/acme.go:108-120 | in every interleaving, two running issue or renew jobs of a certificate mean that the second call read the table before the first job was inserted |
| `AcmeOverlap.AtMostOneRunning` | internal/usecase/acme.go:184-196 | when guard and insert are one step, at most one such job runs |
| `AcmeOverlap.OverlapHappens` | internal/usecase/acme.go:108-112 | plain mutual exclusion is false: a run with two running jobs of one certificate |
| `AcmeOverlap.InsertsJob` | internal/usecase/acme.go:112-120 | a call past the guard inserts its job whatever jobs of its certificate run by then, and they all go on |
| `AcmeOverlap.AbandonedJobShuts` | internal/usecase/acme.go:140-142 | an abandoned issue or renew job shuts its certificate: while its row names it, every call that gets past the guard had read the table before that job was inserted |
| `AcmeCooldown.CooldownHolds` | internal/usecase/acme.go:270-296 | a failed job started in second s, with completed jobs not cleared between its failure and a later insert for the certificate: that call read its clock at s + 15 min + 1 s or later, or read the table before the failed job was inserted; certificates may be deleted at any time |
| `AcmeCooldown.StaysCooled` | internal/usecase/acme.go:270-296 | along any run without clearing, the failed job stays in the table or the certificate is gone for good, and no admission of the certificate is too early |
| `JobConservation.RunningRowsAreJobsInProgress` | internal/usecase/job.go:84-127 | in every interleaving, with any clearing of completed jobs, the running rows are exactly the jobs in progress and those whose call returned on a repository error |
| `JobConservation.CompletedAtMostOnce` | internal/usecase/job.go:93-120 | each job is completed at most once, and once its call is done it was completed or abandoned |
| `JobConservation.CompleteFindsItsRow` | internal/usecase/job.go:98-119 | Complete finds its row, still running, at both of its statements |
| `JobConservation.AbandonedRunsForGood` | internal/usecase/acme.go:140-142 | a job whose call returned on a repository error before completing it stays running in every continuation |
| `JobConservation.NoErrorsNoLeaks` | internal/usecase/acme.go:140-142 | without repository errors no call leaves its job running |
| `JobConservation.ConservationWithoutErrors` | internal/adapter/sqlite/job_repository.go:122-136 | without repository errors the running rows are exactly the operations between Create and Complete, and each is completed exactly once |
| `Pem.PathsDistinct` | internal/usecase/acme.go:391-397 | no file of one certificate is a file of another, nor its chain its key |
| `Pem.ExpiryIff` | internal/usecase/acme.go:409-428 | a chain has an expiry exactly when its first certificate block parses, and it is the NotAfter of that block |
| `IssuedFiles.RunShapes` | internal/adapter/sqlite/certificate_repository.go:107-215 | in every run a row is pending, active or failed, and paths and expiry are all set or all unset |
| `IssuedFiles.FailedIsNotPicked` | internal/usecase/scheduler.go:161-176 | once failed, a certificate is not picked by the scheduler until a call marks it issued |
| `IssuedFiles.FileEffects` | internal/usecase/acme.go:380-407 | a statement never touches the files of another certificate |
| `IssuedFiles.ActiveMatchesFiles` | internal/usecase/acme.go:130-142 | when calls on one certificate do not overlap and certificate writes work, an active certificate has at its paths the chain and key of one ACME result, and its stored expiry is the NotAfter of the first certificate of that chain |
| `Databases.Database.MarkCertificateIssued` | internal/adapter/sqlite/certificate_repository.go:170-193 | one UPDATE: paths, expiry text and active status of one row, or not found |
| `Databases.Database.UpdateCertificateStatus` | internal/adapter/sqlite/certificate_repository.go:195-215 | one UPDATE of one status, or not found |
| `Databases.Database.UpdateCertificate` | internal/adapter/sqlite/certificate_repository.go:107-151 | one UPDATE of the form columns; paths, expiry and status are kept |
| `Databases.Database.CreateJob` | internal/adapter/sqlite/job_repository.go:67-90 | a running row with a fresh id, if the foreign keys hold |
| `Databases.Database.UpdateJob` | internal/adapter/sqlite/job_repository.go:92-120 | status and end of one row, or not found |
| `Databases.Database.DeleteCompletedJobs` | internal/adapter/sqlite/job_repository.go:122-136 | the running rows remain, and the count is the number of rows removed |
| `Databases.Database.SetLinkedTargets` | internal/adapter/sqlite/certificate_repository.go:299-342 | the transaction ends with exactly the requested links, or is rolled back on any failing statement or unknown id |
| `Databases.Database.UpsertSyncTarget` | internal/adapter/sqlite/certificate_repository.go:363-388 | one row of the pair is replaced under its old id, or inserted |
| `Databases.LinkedBelow` | internal/adapter/sqlite/certificate_repository.go:271-297 | the linked targets in increasing order, each once |
| `Databases.LinkFromMapping` | internal/adapter/sqlite/certificate_repository.go:444-480 | reading a link row and writing it back changes nothing, not even the text of its time |
| `JobUseCases.JobUseCase.Create` | internal/usecase/job.go:84-91 | a job starts running under a fresh id |
| `JobUseCases.JobUseCase.Complete` | internal/usecase/job.go:93-120 | the row is finished with success or failed exactly when both statements work and the row exists |
| `JobUseCases.JobUseCase.ClearCompleted` | internal/usecase/job.go:122-127 | running rows stay as they are, all others go |
| `Links.RelinkedMeaning` | internal/adapter/sqlite/certificate_repository.go:299-342 | after the replacement the links are exactly the requested ones, kept rows keep every field, new rows are blank and not synced, other certificates are untouched |
| `Links.AdminClient.SyncCertificate` | internal/adapter/kong/admin_client.go:73-125 | one request with these fields in their places, POST for a blank id and PATCH otherwise, and the id or error each kind of answer gives |
| `Links.ClientResultIff` | internal/adapter/kong/admin_client.go:90-125 | the client has an id exactly when Kong sent one, or accepted the request of a link that already has one |
| `Links.SyncedLinkFacts` | internal/usecase/kong_sync.go:146-174 | a sync leaves a link synced with an id, a time and no error, or failed with a reason, and never empties its Kong id |
| `LinkRuns.RunSound` | internal/usecase/kong_sync.go:133-178 | in every sequential run a link that says synced has a non-empty Kong id, an empty error and a time |
| `LinkRuns.SyncKeepsRows` | internal/usecase/kong_sync.go:133-178 | a sync that nothing interrupts adds and removes no link row and changes no other row |
| `LinkRuns.KongIdStays` | internal/adapter/sqlite/certificate_repository.go:363-388 | in every sequential run, while a link row lives its Kong id never becomes empty again |
| `LinkRuns.RequestUpdatesIff` | internal/adapter/kong/admin_client.go:84-88 | in every sequential run a request is an update if and only if an earlier sync of the row stored a usable id and no sync after that one stored a blank id |
| `LinkRuns.CreatedTwiceIff` | internal/adapter/kong/admin_client.go:84-124 | in every sequential run Kong creates more than one certificate for a link row if and only if its first answer with success, or one that stored a blank id, is followed by another answer with success and no usable id was stored in between |
| `LinkRuns.AtMostOneCreate` | internal/adapter/kong/admin_client.go:84-124 | so in a sequential run at most one is created when the first answer with success stored a usable id and no answer stored a blank one |
| `LinkRuns.NextRequestUpdatesIff` | internal/adapter/kong/admin_client.go:84-124 | for any link, answer and outcome of the row write: the next request is an update if and only if the stored result, or else the old id, is not blank |
| `LinkRuns.NoIdCreatesTwice` | internal/adapter/kong/admin_client.go:110-122 | a create answered with success and no id is followed by a second create, whether the body is empty, unreadable or without an id |
| `LinkRuns.RefusalIsNoCreate` | internal/adapter/kong/admin_client.go:100-108 | one that is refused or never answered is not counted, and the next request is the first create |
| `LinkRuns.BlankIdCreatesTwice` | internal/adapter/kong/admin_client.go:117-124 | so is a create answered with the id `" "` |
| `LinkRuns.LaterBlankIdCreatesTwice` | internal/adapter/kong/admin_client.go:84-88 | so is an update answered with that id |
| `LinkRuns.LostWriteCreatesTwice` | internal/usecase/kong_sync.go:176-178 | so is a create after which the link row could not be written |
| `SyncRaces.WriteIsUpsert` | internal/adapter/sqlite/certificate_repository.go:363-388 | the write of the interleaving model is the upsert of the repository |
| `SyncRaces.AlwaysOrderly` | internal/usecase/kong_sync.go:125-178 | in every interleaving a link that says synced has a non-empty Kong id, an empty error and a time, and row ids are unique |
| `SyncRaces.WriteEmptiesIff` | internal/usecase/kong_sync.go:146-176 | a write takes a stored Kong id away if and only if the sync had read none and has not been given one |
| `SyncRaces.WriteAddsRowIff` | internal/adapter/sqlite/certificate_repository.go:363-388 | a write adds a link row if and only if the pair has been unlinked since it was read |
| `SyncRaces.UndisturbedIsSequential` | internal/usecase/kong_sync.go:116-178 | an interleaving in which no relink, delete or other sync touches a row between the read and the write of a sync of it has the table and the creates of a sequential run, so the rows above hold of it |
| `SyncRaces.RequestUpdatesIff` | internal/adapter/kong/admin_client.go:84-88 | in every interleaving a request is an update if and only if the sync had read a usable id, which the answers and the order of the statements determine |
| `SyncRaces.CreatedTwiceIff` | internal/usecase/kong_sync.go:125-176 | in every interleaving Kong creates more than one certificate for a link row if and only if two syncs that read the row without a usable id are answered with success |
| `SyncRaces.OverlapCreatesTwice` | internal/usecase/kong_sync.go:157-176 | two overlapping syncs with good answers create two certificates |
| `SyncRaces.OverlapEmptiesId` | internal/usecase/kong_sync.go:146-176 | a refused sync takes away the id that another has stored meanwhile |
| `SyncRaces.OverlapUndoesUnlink` | internal/adapter/sqlite/certificate_repository.go:363-388 | a sync that ends after its target was unlinked links it again |
| `KongSync.KongCertificateTags` | internal/usecase/kong_sync.go:210-219 | the second tag is wildcard exactly when some SNI contains an asterisk |
| `KongSync.KongSyncUseCase.SyncLinkedTarget` | internal/usecase/kong_sync.go:133-208 | job, request, link row and completion of one target, and what an error at each statement leaves |
| `KongSync.KongSyncUseCase.SyncCertificate` | internal/usecase/kong_sync.go:51-79 | the loop over the links, up to the first error |
| `KongSync.KongSyncUseCase.SyncCertificateTarget` | internal/usecase/kong_sync.go:81-114 | the sync of one chosen link, or not found |
| `SyncFacts.FinishedSync` | internal/usecase/kong_sync.go:51-79 | a sync that returns nil has handled every link exactly once: one row update, one request with the files in order, one finished job; all else is unchanged |
| `SyncFacts.RequestsCarry` | internal/usecase/kong_sync.go:146-158 | the request for a link carries the chain as certificate, the key as key, the SNIs, the tags and the id the link had |
| `SyncFacts.StopsAtFirstError` | internal/usecase/kong_sync.go:66-79 | a sync of a certificate ends without an error exactly when no statement of any target fails; otherwise it stops at the first target with a failing statement, with the earlier targets handled and nothing of the later ones written or sent |
| `SyncFacts.FaultsLeave` | internal/usecase/kong_sync.go:133-208 | what the failure of each statement of the sync of one target leaves |
| `SyncFacts.EveryLinkSettled` | internal/usecase/kong_sync.go:146-178 | each link then says synced after Kong was sent, in this sync, the read chain as certificate, the read key as key, the SNIs and tags, or failed with a reason |
| `SyncFacts.SyncSettlesAll` | internal/usecase/kong_sync.go:51-79 | so after every sync of a certificate that returns nil, in terms of the text of the files at its two paths; other links and tables are unchanged |
| `SyncFacts.SyncSettlesOne` | internal/usecase/kong_sync.go:81-114 | so after a sync of one target that returns nil: that link is settled, one finished job has been added, at most one request sent, and nothing else has changed |
| `SyncFacts.OneFollowsOps` | internal/usecase/kong_sync.go:133-178 | the sync of one link does to it what its step does in the run model, and the creates counted there are the POST requests sent that Kong answered with success |
| `SyncFacts.SyncFollowsOps` | internal/usecase/kong_sync.go:51-79 | so does the sync of a whole certificate, failed or not |
| `AcmeUseCases.ParseCertificateExpiry` | internal/usecase/acme.go:409-428 | the NotAfter of the first certificate block decides, by index, even when that block does not parse |
| `AcmeUseCases.AcmeUseCase.EnsureAcmeOperationAllowed` | internal/usecase/acme.go:259-296 | allowed exactly when both queries work, no issue or renew job runs and none failed within the cooldown |
| `AcmeUseCases.AcmeUseCase.WriteIssuedFiles` | internal/usecase/acme.go:380-407 | what is on disk after complete, partial and refused writes |
| `AcmeUseCases.AcmeUseCase.FailOperation` | internal/usecase/acme.go:298-352 | status and job are both written even if the first write fails |
| `AcmeUseCases.AcmeUseCase.IssueCertificate` | internal/usecase/acme.go:96-170 | the whole new state, for every failing statement, client result and partial file write |
| `AcmeUseCases.AcmeUseCase.RenewCertificate` | internal/usecase/acme.go:172-257 | the same for a renewal, followed by the sync when it succeeded |
| `AcmeRefinement.AloneIsRun` | internal/usecase/acme.go:96-257 | a call that nothing interrupts is a run of the interleaving machine |
| `AcmeRefinement.UninterruptedCall` | internal/usecase/acme.go:96-257 | that run leaves the tables and files that the method leaves, for every environment |
| `AcmeOutcome.ValidIsSane` | internal/db/migrations/001_initial.sql:45-58 | every valid state of the use case meets the hypothesis of the theorems below |
| `AcmeOutcome.OperationEnds` | internal/usecase/acme.go:96-257 | an issue or renewal not in error ended in exactly one of two ways: failed, with one failed job and links and requests unchanged; or active with the NotAfter of the first certificate of the client result, its paths and files, and one successful job; the client result, the file writes and the expiry decide which |
| `AcmeOutcome.AdmitsIff` | internal/usecase/acme.go:96-120 | a call inserts its job exactly when no earlier statement fails, the certificate is there and readable, no issue or renew job of it runs, and none that failed started less than 901 seconds ago |
| `AcmeOutcome.SucceedsIff` | internal/usecase/acme.go:122-152 | an operation goes well exactly when: a renewal finds both files, the client gives a result, the directory is set, neither text is empty, both writes work, and the first certificate of the chain parses |
| `AcmeOutcome.OperationLeaves` | internal/usecase/acme.go:96-352 | row, files, job and error of every admitted operation, whichever of its statements fail |
| `AcmeOutcome.IssueNilMeansFailedOrIssued` | internal/usecase/acme.go:96-170 | so for an issue that returns nil |
| `AcmeOutcome.NilMeansFailedOrDelivered` | internal/usecase/acme.go:172-257 | so for a renewal that returns nil, and in the second case every link then says synced after Kong was sent the new chain as certificate, the new key as key, and the SNIs, or failed with a reason |
| `AcmeOutcome.BothEndingsHappen` | internal/usecase/acme.go:172-257 | both endings happen to a certificate that was created, linked and issued: a client error gives the first, a good result the second with the link synced |
| `FormLines.SplitLines` | internal/usecase/certificate.go:261-278 | the loop with its seen map gives the distinct non-empty trimmed lines |
| `FormLines.LinesAreItems` | internal/usecase/certificate.go:261-278 | items are trimmed, non-empty, newline-free and distinct |
| `FormLines.CollectComplete` | internal/usecase/certificate.go:264-275 | an item is there exactly when some line is it with white space around |
| `FormLines.FirstOccurrenceOrder` | internal/usecase/certificate.go:264-275 | items keep the order of their first lines |
| `FormLines.LinesOfJoin` | internal/usecase/certificate.go:162-165 | joining such a list with newlines and splitting it again gives the list |
| `FormLines.UniqueSortedIds` | internal/usecase/certificate.go:382-399 | the strictly increasing list of exactly the positive ids |
| `FormLines.SortedIsUnique` | internal/usecase/certificate.go:382-399 | such a list is determined by its elements, so order and duplicates of the request do not matter |
| `CertificateUseCases.ValidateCertificateInput` | internal/usecase/certificate.go:222-259 | accepts exactly a name, a valid email, a domain, an SNI and 1 to 90 days |
| `CertificateUseCases.IssuedKeepsNames` | internal/usecase/certificate.go:162-165 | whatever the form contains, an edit of an issued certificate keeps domains, SNIs and primary domain |
| `CertificateUseCases.NamesNeverChange` | internal/usecase/certificate.go:153-174 | so over every sequential run, while the certificate exists |
| `EditRaces.EditKeepsNamesIff` | internal/usecase/certificate.go:153-174 | when other operations come between the Get and the UPDATE of an edit: the names are kept if and only if nothing is written, or the row read was issued under these names, or it was not issued and the form repeats them |
| `EditRaces.EditedFromNow` | internal/usecase/certificate.go:153-174 | with nothing between its two statements an edit is the sequential edit |
| `EditRaces.StaleEditChangesNames` | internal/usecase/certificate.go:154-173 | a form whose row was read before the issue changes the names after it |
| `EditRaces.NamesStayWithoutOpenEdits` | internal/usecase/certificate.go:153-174 | in every interleaving, if no edit of a certificate is in progress at a moment when it is issued, its names never change afterwards |
| `CertificateUseCases.AllLinkedTargetsSynced` | internal/usecase/certificate.go:323-333 | shown as synced exactly when there are links and each is synced, with an id that is not blank and no error |
| `CertificateUseCases.CertificateUseCase.Create` | internal/usecase/certificate.go:144-151 | the form columns and derived names in a new pending row without paths or expiry, other rows kept; or no change on any error |
| `CertificateUseCases.CertificateUseCase.Update` | internal/usecase/certificate.go:153-174 | the form columns, the names of the form or the locked ones, paths, expiry and status kept; or no change on any error |
| `CertificateUseCases.CertificateUseCase.Delete` | internal/usecase/certificate.go:176-185 | the row and its links go, its jobs stay |
| `CertificateUseCases.CertificateUseCase.UpdateLinkedTargets` | internal/usecase/certificate.go:187-212 | links become exactly the positive requested ids with kept rows untouched; an unknown id or any error changes nothing |

## Left out

- HTTP handlers, templates, forms as HTML, sessions and login: user interface.
- The ACME protocol and its client library: any result or error, an input here.
- HTTP, TLS and JSON of the Kong client: only method choice, answer kinds and the returned id are kept.
- PEM and X.509 decoding: a chain is a list of blocks, a certificate block has a NotAfter or does not parse.
- The SQL engine: tables are maps with the schema's keys, and each statement is atomic.
- created_at and updated_at columns, job messages and logs, and the wording of most errors.
- Reading job rows with unreadable timestamps: the program writes every timestamp itself.
- The RFC 3339 layout and time.Parse's tolerance for fractions, one-digit hours and surrounding text: never written.
- JSON encoding of the domain and SNI columns: lists are stored as lists.
- validateJobInput on arbitrary strings: job types and states are enumerations, and callers pass constants.
- Kong target editing and connection checks: targets are a set of ids; a check is one more kind of job in the machine.
- Missing dependencies (nil repositories or clients) and an ACME use case without a sync: the program always wires them.
- MkdirAll and path cleaning of the certificate directory: paths are the directory, a slash, the id and the file name.
- notifyJobResult: it sends a message and changes nothing; the answer of the notifier is ignored.
- Email syntax: whether the address parses is part of the form input.
- Floating point in the remaining-days ceiling, and duration saturation near 292 years: whole nanoseconds instead.
- Monotonic clock readings: the machine's clock never goes back.
- Start, Stop and loop as methods of a class: they are concurrent, so they are steps of a state machine.
- Liveness after a crash: the program has no recovery for jobs left running.
- The methods of the use cases are sequential: in `KongSync` a link row is written back as it was read; overlapping syncs are in `SyncRaces`.
- Edits in `AcmeMachine` write any profile in one statement; the two statements of an edit are in `EditRaces`.
- A renewal whose sync overlaps other calls: in the machine syncs are calls of their own; the combined theorem is sequential.
- Cron.LeapDayFound: sufficient only; the exact conditions are LeapDayFoundIff and HorizonAdequateIff.
- Requests that Kong never answered: whether it created a certificate cannot be known, and none is counted.
- FormLines.UniqueSortedIds: sorts by insertion instead of sort.Slice; SortedIsUnique shows that any correct sort gives the same list.
