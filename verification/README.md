# A Dafny model of doevoe

doevoe is a self-hosted mail queue: an API puts emails into one SQLite table, one worker claims and
delivers them with retries, an admin can cancel and requeue them, and a notifier reports failures.
This project models that behaviour in Dafny 4.11 and proves what holds in every run of it.
`dafny verify dfyconfig.toml` checks the whole project.

## How the model is laid out

| files | what they model |
|---|---|
| `Text`, `SortedTexts`, `Calendar`, `TimeText`, `TimeParse`, `MonthFilter` | text order, the Gregorian calendar, timestamps as text, the month filter |
| `Backoff`, `Emails`, `Stores` | the retry schedule; each SQL statement as a function on the table; the database object whose methods refine those functions, with both halves of the admin handlers |
| `Protocol`, `ProtocolInvariant`, `ProtocolRuns`, `Overtaking` | the delivery protocol as a state machine with one step per statement or goroutine action, its invariant, and properties of whole runs |
| `Schedules`, `TickOutcomes`, `Workers` | the worker object: `Tick` with its goroutines and channel map, under any schedule, as a refinement of the protocol; what a whole tick makes of each row |
| `AdminActions` | cancel and retry, with any run of the protocol between their read and their write |
| `ManyWorkers`, `WindowLimits` | the same table shared by several workers, with a clock and waiting for tokens; exactly which settings are safe |
| `Idempotency` | posting with an idempotency key, alone and in every interleaving |
| `LineEndings`, `Messages`, `MessageParsing` | the message printer and a reader that inverts it |
| `Sender` | the walk over the mail hosts of a recipient domain |
| `Digest`, `RateAlerts`, `MonthlyReports`, `Notifiers` | the notifier: three state machines and the object that follows them |
| `Statistics`, `MonthlyQueries` | the grouped queries, the dashboard and the monthly numbers built from them |

Conventions. The `emails` table only grows, so it is a sequence and a row's id is its position. A time
is a number of nanoseconds since the year 0; a stored time is its text. A statement is one atomic step,
because the database has a single connection (internal/store/store.go:88). Runs are sequences of
labels; a label fixes everything nondeterministic about a step: which due rows the database returns,
what a Send reports, whether a write fails. The protocol lets cancels and requeues happen at any time
with any arguments; `AdminActions` adds the handlers' reads and decisions before them. A panic in a Send and a failed domain lookup are handled by the code
like a temporary error and are modelled as one. A failed outcome write and a crash are steps. The
result of a Send is what the code sees, so a message accepted by a mail host whose QUIT fails counts as
a failure.

## What does not hold as documented

The code was followed where it and its documentation differ; each point has a proved exact condition.

- The month range is said to be equivalent to the old prefix filter (internal/store/stats.go:108-111).
  It is, except for the month 9999-12, whose range is empty (`MonthFilter.RangeIsPrefixExactly`).
- The 45 minute window is said to exceed the longest a claim can last (internal/delivery/worker.go:44-59).
  A claim also waits for its domain's tokens: with batches of 10, two Sends per domain and 30 minutes
  per Send it lasts up to 150 minutes (`ManyWorkers.ClaimsAreShort`). With one worker the sequential
  ticks protect it all the same. With several workers open claims stay exclusive if and only if
  ceil(batch / limit) Send bounds and the store time are at most 45 minutes less one second
  (`WindowLimits.WindowExactly`); three emails of one domain break it under the defaults
  (`WindowLimits.DefaultsNeedOneWorker`).
- Digests are said to be sent at most once per hour (README.md:207-211). The stored time is cut to the
  second, so that holds after a digest if and only if its tick fell on a whole second
  (`Digest.HourKeptExactly`, with two digests of one run less than an hour apart in
  `Digest.GapCanBeUnderAnHour`). `Digest.FollowExactly` says which two digests can follow each other,
  failed state reads and writes included.
- A fresh install is said not to get a report for its incomplete install month (README.md:218-224). No
  report is sent in that month, but one about it is sent if and only if a tick of the next month can
  send a report (`MonthlyReports.InstallMonthReportedExactly`).
- Custom header names are checked for line breaks and reserved names only. Reading a message gives back
  the header pairs that were written if and only if no custom name contains a colon or starts with a
  blank (`MessageParsing.HeadersRoundTripExactly`, `MessageParsing.BlankNamesAreAccepted`); a colon can
  make a second "From" (`MessageParsing.ColonNameRepeatsFrom`).
- A retry stores the recipient the admin submitted if and only if it differs from the one the handler
  read or nobody re-addressed the email since (`AdminActions.SubmittedIsStoredExactly`): an unchanged
  form loses against another admin's correction (`AdminActions.UnchangedRecipientLosesRace`).

## Model

| member | source | states |
|---|---|---|
| Calendar.DateRoundTrip | internal/store/store.go:122-124 | day numbers and valid Gregorian dates are in one-to-one correspondence |
| Calendar.GregorianYears | internal/store/store.go:122-124 | the month-by-month calendar agrees with the closed rule for leap years |
| TimeText.FmtOrder | internal/store/store.go:124 | on years 0000-9999 comparing the written texts is comparing the times, and equal texts are equal seconds |
| TimeText.FmtOrderExactly | internal/store/store.go:124 | text order is time order below a bound if and only if every second below it has a four-digit year |
| TimeParse.ParseInvertsFmt | internal/store/store.go:124-129 | every written second reads back as itself |
| TimeParse.FmtInvertsParse | internal/store/store.go:126-129 | every text that parses is the rendering of the second it denotes |
| TimeParse.TruncatesToSecond | internal/store/store.go:124-129 | writing and reading a time loses the fraction of its second and nothing else |
| TimeParse.FmtReads | internal/store/store.go:124 | the text has the RFC 3339 form and its digits are the calendar date and the clock time |
| TimeParse.MalformedIsYearOne | internal/store/store.go:126-129 | a text that does not parse reads as the first instant of year 1 |
| MonthFilter.RangeIsPrefix | internal/store/stats.go:108-119 | the half-open range of a month selects exactly the stamps with that month's prefix, December rollover included |
| MonthFilter.RangeIsPrefixExactly | internal/store/stats.go:108-119 | it does so for every month if and only if the month is not the last of year 9999 |
| MonthFilter.MalformedIsLiteral | internal/store/stats.go:112-117 | a malformed prefix selects exactly the texts that start with it |
| Emails.ClaimExists | internal/store/emails.go:66-74 | for every table, limit and time there is a set of earliest due rows of the right size to claim |
| Stores.Store.EnqueueEmail | internal/store/emails.go:32-52 | inserts one queued row with the given columns and the defaults, or fails on the unique key and changes nothing |
| Stores.Store.FindByIdempotencyKey | internal/store/emails.go:58-64 | finds a row with the key if and only if there is one; NULL keys match nothing |
| Stores.Store.ClaimDue | internal/store/emails.go:66-87 | claims queued due rows, earliest first and up to the limit, changes only their status and stamp, and returns them as they now are |
| Stores.Store.SelectDue | internal/store/emails.go:71-73 | the rows taken are due, distinct, as many as limit and supply allow, and none left is due earlier |
| Stores.Store.RequeueStaleSending | internal/store/emails.go:94-100 | releases exactly the sending rows stamped no later than the cutoff and counts them |
| Stores.Store.MarkSent | internal/store/emails.go:102-105 | whatever the status was: sent, one more attempt, the time set, the error cleared, no other column or row changed |
| Stores.Store.MarkRetry | internal/store/emails.go:107-111 | whatever the status was: queued for the given time with the error, one more attempt, no other column or row changed |
| Stores.Store.MarkFailed | internal/store/emails.go:113-116 | whatever the status was: failed with the error, one more attempt, no other column or row changed |
| Stores.Store.CancelEmail | internal/store/emails.go:139-148 | succeeds exactly on a queued row and changes the table exactly if it succeeds |
| Stores.Store.RequeueEmail | internal/store/emails.go:150-186 | succeeds exactly on a row that is neither in flight nor sent, sets exactly the named columns, and a refused call changes nothing |
| Stores.Store.BeginCancel | internal/admin/admin.go:555-565 | reads the row and refuses exactly a missing or not queued one |
| Stores.Store.EndCancel | internal/admin/admin.go:566-571 | writes under the guard on the table as it is by then, and answers by whether the guard matched |
| AdminActions.CancelIsLinearizable | internal/store/emails.go:133-148 | whatever runs between read and write, a cancel is the handler run in one step, at the read if it refuses there and else at the write; success and a changed row coincide |
| AdminActions.CanceledMeansNoSend | internal/store/emails.go:118-148 | after a successful cancel no Send of the email starts until a retry of it |
| Stores.Store.BeginRetry | internal/admin/admin.go:523-547 | reads the row, refuses by its status, and drops a recipient equal to the one read |
| Stores.Store.EndRetry | internal/admin/admin.go:548-553 | writes under the guard on the table as it is by then, and answers by whether the guard matched |
| AdminActions.RetryReplies | internal/store/emails.go:150-186 | a retry answers success exactly if its write restarts the row, a refusal changes nothing, and no other row changes |
| AdminActions.NoRecipientKeepsAddress | internal/admin/admin.go:537-548 | a retry without a submitted recipient leaves the recipient and the recorded first address, whatever ran in between |
| AdminActions.ReplacedAddressIsRecorded | internal/store/emails.go:170-174 | a new recipient records the replaced address in an empty original_to, and only if the address changes |
| AdminActions.SubmittedIsStoredExactly | internal/admin/admin.go:537-548 | the submitted recipient is stored if and only if it differs from the one read or the row still has that one |
| AdminActions.RetryIsLinearizableExactly | internal/admin/admin.go:523-553 | under the same condition, and only then, the interleaved retry is the handler run in one step at its write |
| AdminActions.SubmittedIsStored | internal/admin/admin.go:537-548 | if nobody else re-addresses the email in between, its recipient is the submitted one, whatever else runs |
| Stores.Store.ListPendingFailures | internal/store/notify.go:38-54 | lists exactly the pending emails, in the order of their ids |
| ProtocolInvariant.StepFlights | internal/delivery/worker.go:62-144 | every step keeps each claimed row equal to its snapshot until its goroutine writes its outcome |
| ProtocolInvariant.StepAttempts | internal/store/emails.go:102-186 | every step keeps attempts at most 8, and at most 7 while queued or sending |
| ProtocolInvariant.StepAccounts | internal/delivery/worker.go:129-136 | every step keeps successful Sends equal to the lost ones plus one if sent or still unwritten |
| ProtocolInvariant.StepTokens | internal/delivery/worker.go:82-104 | every step keeps each domain's channel equal to the goroutines holding its token, within the limit |
| ProtocolInvariant.StepBackoff | internal/delivery/worker.go:164-173 | every step keeps a retried row's due time at least the first delays of the schedule after its first attempt |
| ProtocolInvariant.RunInv | internal/delivery/worker.go:25-144 | the whole invariant holds in every state of every run, crashes and failed writes included |
| ProtocolRuns.NeverInFlightTwice | internal/delivery/worker.go:62-144 | in every reachable state no email is in flight twice and its row is still exactly as claimed |
| ProtocolRuns.MarkWritesOwnClaim | internal/store/emails.go:102-116 | the unguarded outcome write replaces exactly the claimed row by a function of it, never another actor's change |
| ProtocolRuns.SettledStep | internal/store/emails.go:118-155 | no step but a requeue of this email changes a failed or canceled row, and none changes a sent row |
| ProtocolRuns.SentIsAbsorbing | internal/store/emails.go:150-155 | a sent row never changes again and no Send of it starts |
| ProtocolRuns.SettledUntilRequeue | internal/store/emails.go:133-186 | after a cancel took effect no Send of the email starts until a requeue of it |
| ProtocolRuns.HistCounts | internal/delivery/worker.go:129-136 | the successes and losses in the state are the numbers of such events in the run |
| ProtocolRuns.AtMostOneSuccessfulSend | internal/delivery/worker.go:129-136 | over every run an email has at most one successful Send plus one per crash or failed write that hit it before it was recorded |
| ProtocolRuns.SentOnce | internal/delivery/worker.go:109-144 | without crashes and failed outcome writes no email is successfully sent twice |
| ProtocolRuns.WritesAreBounded | internal/delivery/worker.go:164-173 | between admin requeues every outcome write uses up one of eight attempts |
| ProtocolRuns.ExhaustedAtEight | internal/delivery/worker.go:164-173 | a temporary error fails the email exactly at attempt 8 and requeues it before |
| ProtocolRuns.AttemptsApart | internal/delivery/backoff.go:5-17 | in every run, from the first outcome write of an email to one k writes later without a requeue in between, the ticks are at least the first k delays apart, 148860 s at the eighth |
| ProtocolRuns.OneOutcomePerTick | internal/delivery/worker.go:93-144 | under every schedule each claimed email gets exactly one outcome write in its tick |
| ProtocolRuns.DomainCap | internal/delivery/worker.go:78-104 | under every schedule at most the configured number of Sends, or two, run at once to addresses whose domains are equal up to letter case |
| ProtocolRuns.TickIsBounded | internal/delivery/worker.go:93-106 | the goroutines of a tick take a bounded number of steps whatever happens in between |
| ProtocolRuns.NoDeadlock | internal/delivery/worker.go:96-104 | while a goroutine is unfinished some goroutine can take a step |
| ProtocolRuns.NoSystemEmailPending | internal/notify/notifier.go:67-73 | over every run no system email is a pending failure |
| ProtocolRuns.FirstAddressKept | internal/store/emails.go:157-186 | over every run original_to is empty while the address is the first one, and otherwise is the first one |
| ProtocolRuns.AddressKeptExactly | internal/store/emails.go:170-174 | the first address survives every series of retries if and only if it is not empty |
| Overtaking.ClaimTakesAhead | internal/store/emails.go:66-74 | a claim that passes over a due row takes a full batch from the rows ahead of it |
| Overtaking.OvertakingStep | internal/store/emails.go:33-87 | no clean step with later times adds a row ahead of a waiting one |
| Overtaking.BoundedOvertaking | internal/store/emails.go:66-87 | a due email is claimed within ceil(m / batch) claims, m counting the queued rows due no later |
| Workers.Worker.Move | internal/delivery/worker.go:96-144 | a goroutine takes exactly the next step of its code, unless it is finished or its channel is full; what the steps amount to is stated by `Tick` |
| Workers.Worker.WriteOutcome | internal/delivery/worker.go:132-173 | the end of process writes exactly the protocol's outcome for every result, failed writes included |
| Workers.Worker.StartTick | internal/delivery/worker.go:62-103 | a tick claims rows that are due or stuck for 45 minutes, all of them unless the batch is full, stamps them, and leaves other rows alone; in between come the statements of others that succeed |
| Workers.Worker.Tick | internal/delivery/worker.go:62-173 | under every schedule the tick terminates as a run of the protocol, each claimed row ends as its domain load, Send reply and write came out (sent, failed, or queued after the wait for its attempt), is pending exactly if its failure is reported, and no other row changes but for the release of stuck ones |
| TickOutcomes.ClaimedEmailSettles | internal/delivery/worker.go:109-173 | from the claim on, a row nobody else has a statement on is settled by its own goroutine's answers alone, whatever the schedule |
| ManyWorkers.ClaimsAreShort | internal/delivery/worker.go:74-104 | over every timed run with any number of workers no goroutine outlives ceil(batch / limit) Send bounds and the store time after its tick's clock |
| ManyWorkers.YoungClaimIsKept | internal/delivery/worker.go:60-64 | a claim at most 45 minutes less one second old is never stale, second truncation included |
| ManyWorkers.TimedRunInv | internal/delivery/worker.go:44-64 | if that fits the window less one second, open claims stay exclusive and own their rows over every timed run |
| WindowLimits.Overlap | internal/delivery/worker.go:74-104 | a run within all bounds in which the last of a batch wait for tokens until another worker claims an email in flight |
| WindowLimits.WindowExactly | internal/delivery/worker.go:44-64 | for all settings the stale requeue never releases an open claim if and only if ceil(batch / limit) Send bounds and the store time are at most 45 minutes less one second |
| WindowLimits.OneWaveIsSafe | internal/delivery/sender.go:51-61 | with 30 minutes per Send several workers are safe if and only if the batch is no larger than the limit |
| WindowLimits.DefaultsNeedOneWorker | internal/delivery/worker.go:70-81 | under the defaults a run with three emails of one domain breaks exclusiveness |
| Idempotency.EnqueueOrReplay | internal/api/api.go:164-186 | a failed insert whose key exists is answered as a replay with the existing id |
| Idempotency.PostEmail | internal/api/api.go:134-162 | run alone, a post answers with the id of the row it created if and only if the key is new, replays an older row otherwise, and is a run of the interleaved machine |
| Idempotency.OneRowOneCreation | internal/api/api.go:134-186 | in every interleaving at most one row of the key exists, at most one answer is 202, and all successful answers have one id |
| Idempotency.AllServed | internal/api/api.go:134-186 | without database errors every request succeeds and exactly one created the row if it was new |
| Idempotency.ProtocolIsElsewhere | internal/store/emails.go:66-186 | no other statement on the table adds, removes or changes a row of the key |
| Idempotency.UniqueRun | internal/store/store.go:57-58 | over every run of the delivery protocol an API key and idempotency key have at most one row |
| LineEndings.ToLfInvertsFromLf | internal/delivery/message.go:166-168 | the first replacement is a left inverse of the second |
| LineEndings.CrlfIdempotent | internal/delivery/message.go:166-168 | normalising twice is normalising once |
| LineEndings.NoBareLf | internal/delivery/message.go:166-168 | every LF of the result has its CR |
| LineEndings.CrlfJoinsLines | internal/delivery/message.go:166-168 | the result is the lines of the text joined by CRLF |
| LineEndings.CrlfKeepsLines | internal/delivery/message.go:166-168 | the sequence of lines is unchanged |
| LineEndings.CrlfAddsNone | internal/delivery/message.go:147-155 | a boundary that does not occur in a body does not occur in its normalised form |
| Messages.SortKeys | internal/delivery/message.go:111-115 | the keys come out in ascending order, each once |
| Messages.BuildMessage | internal/delivery/message.go:83-164 | the builder's loops and writes refine the message that the next rows and `MessageParsing.BuiltSaysEmail` say in terms of the email |
| Messages.StandardErrorsFirst | internal/delivery/message.go:91-109 | a refused email is reported for the first raw value that breaks a line, in the order From, To, Reply-To, Subject |
| Messages.CustomErrorsInOrder | internal/delivery/message.go:103-126 | then for headers that do not decode, then for the refused custom header with the smallest name |
| Messages.BuildsExactlyAcceptable | internal/delivery/message.go:84-126 | a message is built if and only if no value or name breaks a line, no name is reserved and the custom headers decode |
| MessageParsing.HeadRoundTrip | internal/delivery/message.go:128-143 | the first empty line ends the header block and the header lines are exactly those written |
| MessageParsing.FieldsRoundTripExactly | internal/delivery/message.go:129 | a header list comes back through unfolding as the same pairs if and only if no name has a colon or starts with a blank |
| MessageParsing.HeadersRoundTripExactly | internal/delivery/message.go:103-143 | the same for every built message, in terms of its custom names |
| MessageParsing.BlankNamesAreAccepted | internal/delivery/message.go:69-77 | a name that starts with a blank is accepted and changes the value before it |
| MessageParsing.FramingRoundTripExactly | internal/delivery/message.go:147-155 | multipart framing is inverted if and only if no part contains the delimiter, for every boundary without a line break |
| MessageParsing.MessageRoundTrip | internal/delivery/message.go:128-163 | every built message splits into exactly the written header lines and body |
| MessageParsing.BuiltSaysEmail | internal/delivery/message.go:128-163 | every built message has the From, To, Reply-To, Subject, Date, Message-ID and MIME-Version lines of its email, a line for each custom pair, and the type and body of its form |
| MessageParsing.EachFieldOnce | internal/delivery/message.go:111-143 | each of these fields occurs once, in any letter case, and no Cc, Bcc or DKIM-Signature, as long as no custom name has a colon |
| MessageParsing.ColonNameRepeatsFrom | internal/delivery/message.go:69-77 | a name with a colon is accepted and can pass for a second From |
| MessageParsing.MultipartRoundTrip | internal/delivery/message.go:145-155 | reading a two-part message gives back the text and HTML parts in order with normalised line endings, for every quotable boundary that occurs in neither |
| Sender.Send | internal/delivery/sender.go:120-145 | tries at most three hosts in preference order and stops at the first acceptance or permanent refusal |
| Sender.SendDecides | internal/delivery/sender.go:130-145 | success, failure for good and the code of a Send in terms of the first host that accepts, answers 500 or more, or does not exist |
| Sender.WalkDecides | internal/delivery/sender.go:130-145 | a Send fails temporarily if and only if all candidates do |
| Sender.TriedArePreferred | internal/delivery/sender.go:124-128 | no host left out is preferred to one that was tried |
| Digest.DigestConservation | internal/notify/notifier.go:89-121 | every inserted failure is in a digest, pending or dropped, and repeated only by a fault |
| Digest.DroppedExactly | internal/notify/notifier.go:89-121 | over every run an id is dropped exactly once for each of its insertions between a tick's list and that tick's successful clear |
| Digest.RepeatedExactly | internal/notify/notifier.go:104-115 | and repeated exactly once for each digest that lists it and whose tick did not clear |
| Digest.FailureConservation | internal/notify/notifier.go:89-121 | per failure, insertions and repeats equal digests, pending and late insertions |
| Digest.ListingsConserve | internal/notify/notifier.go:89-121 | the same counted on the run's own insertions and on the lists of its digests |
| Digest.ExactlyOneDigest | internal/notify/notifier.go:89-121 | a failure never inserted late and never repeated is in exactly one digest or pending per insertion, whatever happens to others |
| Digest.DigestsNeverOutnumber | internal/notify/notifier.go:67-121 | if every digest's tick clears, digests never outnumber the failures of user emails that were reported in the run |
| Digest.AtomicTicksDropNothing | internal/store/notify.go:33-59 | an id that is never inserted inside a tick has no late insertion |
| Digest.LateFailureIsDropped | internal/notify/notifier.go:90-112 | such a failure can be deleted without being in any digest |
| Digest.CooldownExactly | internal/notify/notifier.go:94-97 | the next digest passes from one hour after the second of the last one |
| Digest.DigestSpacing | internal/notify/notifier.go:94-121 | over every run, faults included, a digest whose tick read the time is more than one hour less one second after one whose tick stored it |
| Digest.FollowExactly | internal/notify/notifier.go:94-121 | two digests can follow each other if and only if the time was not stored, not read, or an hour from the second of the first has passed |
| Digest.HourKeptExactly | internal/notify/notifier.go:94-97 | a full hour is kept after a digest if and only if its tick fell on a whole second |
| Digest.GapCanBeUnderAnHour | internal/notify/notifier.go:94-97 | a run with two digests less than an hour apart |
| RateAlerts.AlertsExactly | internal/notify/notifier.go:151-163 | a tick alerts if and only if there are enough attempts, at least the threshold's share of them failed, no alert is remembered, and the email can be queued |
| RateAlerts.RemembersExactly | internal/notify/notifier.go:151-179 | an alert is remembered until a tick reads it and stores that the share is below the threshold, for all faults |
| RateAlerts.ErrsExactly | internal/notify/notifier.go:139-179 | an error is reported if and only if the counts, the alert or the state could not be read, queued or stored |
| RateAlerts.AlertsAlternate | internal/notify/notifier.go:145-180 | a recovery lies between two alerts of a domain when the write of the first and the read of the second succeeded |
| RateAlerts.AlternationExactly | internal/notify/notifier.go:145-180 | for given faults every series alternates if and only if every write but the last and every read but the first succeeds, or no rate can reach the threshold |
| RateAlerts.FaultAlertsTwice | internal/notify/notifier.go:151-171 | a lost write or a lost read alerts twice in a row |
| RateAlerts.RearmedAlerts | internal/notify/notifier.go:172-179 | after a stored recovery the next elevated tick alerts again, however many ticks lie between |
| MonthlyReports.PreviousIsPredecessor | internal/notify/notifier.go:225-229 | the reported month is the calendar predecessor on every day of the month |
| MonthlyReports.NaiveSubtractionExactly | internal/notify/notifier.go:225-229 | subtracting a month from the day itself is right if and only if the previous month has that day |
| MonthlyReports.ReportsInOrder | internal/notify/notifier.go:216-291 | reports are about strictly increasing months, at most one per month, none in the install month |
| MonthlyReports.ReportedExactly | internal/notify/notifier.go:216-291 | a month gets a report if and only if it is after the install month and a tick in it could read and enqueue, with no failed read before it in the month |
| MonthlyReports.OnePerMonthExactly | internal/notify/notifier.go:218-291 | for given faults no series of ticks reports on a month twice if and only if no report can lose its mark and be followed by a tick that reads |
| MonthlyReports.InstallMonthReportedExactly | internal/notify/notifier.go:218-291 | the install month is reported if and only if a tick of the next month could |
| MonthlyReports.Lines | internal/notify/notifier.go:242-272 | the two loops with the map they delete from print exactly the active, then the quiet domains |
| MonthlyReports.OneLinePerDomain | internal/notify/notifier.go:242-272 | each domain active in either month gets exactly one line and no other gets any |
| MonthlyReports.NoActivityExactly | internal/notify/notifier.go:242-272 | a report is never empty, and says that there was no activity exactly if there was none |
| Notifiers.Notifier.DigestTick | internal/notify/notifier.go:89-121 | a digest tick is a run of the digest machine, lists exactly the pending emails, and queues one email exactly if a digest is sent: a system email from and to the configured addresses, due at once |
| Notifiers.Notifier.RateTick | internal/notify/notifier.go:123-183 | each domain's outcome depends on that domain alone; one such system email is queued for each alerted domain, in order; the first error is returned and stops nothing |
| MonthlyQueries.MonthlyStatsSay | internal/store/notify.go:61-64 | the month's query counts per domain exactly the emails whose timestamp starts with that month |
| MonthlyQueries.LinesAreRight | internal/notify/notifier.go:230-272 | every line of a report gives its domain's true counts in the reported month and the compared one |
| MonthlyQueries.ActiveDomainsHaveOneLine | internal/notify/notifier.go:230-272 | a domain has exactly one line if it has emails in either month and else none |
| Notifiers.Notifier.StatsTick | internal/notify/notifier.go:216-291 | a statistics tick is a step of the report machine, queues one such system email exactly if it reports, about the month before, with true counts in every line |
| Notifiers.Notifier.PermanentFailure | internal/notify/notifier.go:67-73 | only failures of user emails are recorded, so none of the notifier's own emails ever is |
| Statistics.GroupsConserve | internal/store/stats.go:21-85 | grouped counts add up to the total if the groups cover the rows |
| Statistics.SummaryAddsUp | internal/store/stats.go:43-62 | sent, failed, queued and canceled add up to the total in every table |
| Statistics.SummaryCounts | internal/store/stats.go:43-62 | each number of the summary is the number of emails created in the window with the status it names, sending ones counted as queued |
| Statistics.CancelMovesOne | internal/store/stats.go:43-62 | canceling a queued email of the window moves one from queued to canceled |
| Statistics.RowsInOrder | internal/store/stats.go:21-85 | the grouped rows come by ascending date and name |
| Statistics.DomainsConserve | internal/store/stats.go:64-85 | per-domain counts add up to the summary, and each domain appears once |
| Statistics.WindowIsDays | internal/admin/admin.go:268-289 | a window of whole days selects exactly the stamps whose date is one of its days, the last included |
| Statistics.FillGaps | internal/admin/admin.go:363-378 | the series has one entry for each of the consecutive dates, zero where the query has no row |
| Statistics.DashboardConserves | internal/admin/admin.go:348-381 | the series' sums equal the summary and the per-domain sums of the same window |
| Statistics.StampedRun | internal/store/emails.go:32-52 | every table the delivery protocol reaches has well-formed stamps, so the dashboard's sums hold in it |
| Statistics.Dashboard | internal/admin/admin.go:340-378 | exactly 7, 30 or 90 consecutive dates ending today, each with the sent and failed emails of that date, adding up to the headline, per-domain and total numbers |

## Left out

- HTTP routing, request validation, sessions, templates, styles and charts: user interface without a deep invariant.
- SMTP, TLS and sockets: a delivery to one host is an arbitrary answer, and the bound of a Send, with the statements around it, is a parameter of `ManyWorkers`.
- DKIM, keys, hashes, random tokens, DNS and JSON decoding: opaque; the encoders of addresses and subjects are assumed to write no CR or LF where the builder does not check it.
- Configuration, schema migration, and the domain and API key tables: they would add easy members only.
- FailureRate, FailureReasons and ListEmails: single queries that no modelled property spans; the rate alert takes their answers as parameters.
- Text of notification bodies beyond which emails and domains they list, and the order of the dashboard's domain list.
- Row loops that only copy result rows of the grouped queries into slices: the queries are functions.
- TimeParse.ParseSeconds: reads only the form the store writes, without fractions of a second or zone offsets, because nothing else is ever stored.
- TimeParse.FmtInvertsParse: is about that form only; a text with a fraction or an offset, which the program's parser also reads, is not the rendering of its second.
- TimeText.FmtTime: years before 0000 are not modelled.
- Text.Lower: folds ASCII letters only, where the program folds Unicode.
- Protocol.Enabled: a tick's clock lies before the last day of year 9999, where timestamp texts stop being ordered.
- Overtaking.BoundedOvertaking: an insert whose time was read in or before the waiting email's second but is executed later is excluded by a hypothesis; each such insert can go ahead of it.
- Workers.Worker.Tick: interference is a finite list of statements placed anywhere between the goroutines' steps; the protocol itself has no such bound.
- Messages.Trusted: the boundary is printable ASCII without quote and backslash, which covers the hexadecimal ones the program draws, and the message id and date carry no line break.
- MessageParsing.ReadField: a name is what stands before the first colon; names that are empty or have characters outside printable ASCII are read like others.
- AdminActions.RetryReplies: the address parser and database errors are not modelled; a submitted recipient is an already parsed address that is not empty.
- ManyWorkers.Possible: a goroutine takes a free token at once; delays of the scheduler count as part of the Send bound or the store time.
- MonthlyReports.ReportedExactly: state writes succeed, reads and enqueues may fail; what failed writes can do is settled by `MonthlyReports.OnePerMonthExactly`.
- Statistics.DashboardConserves: the four queries see one state of the table; a write between two of them can make the sums differ.
- Statistics.Dashboard: today is at least 90 days after the start of year 0 and before the last day of year 9999, where timestamp texts stop being ordered.
- RateAlerts.Rate: rates and the threshold are exact, where the program uses floating point.
