# Mail job progress counter

A Dafny model of the progress tracking of a bulk mail job. Each mail job row
(`mail_jobs`) holds `total_count`, `sent_count`, `failed_count` and a `status`
enum. One background worker run (`MailSenderJob#perform`) sends one message.
On success it increments `sent_count`. On any error it re-reads the row,
increments `failed_count` and re-raises, so the queue retries the run. After
either increment, once `sent_count + failed_count >= total_count`, the run
writes `completed` (success path) or `failed` (rescue path).

Files:

- `mail_job.dfy`, module `MailJobs`: the attribute values of a row as a
  datatype `Row`. Also the `status` enum and its integer encoding, the
  validations, `remaining_count`, and the column defaults of a new row.
- `mail_sender_job.dfy`, module `MailSenderJob`: the row as the worker
  changes it in place (class `MailJob`, methods `RecordSuccess` and
  `RecordFailure`), one worker run (`Perform`), and one unit with its
  retries (`RunUnit`). `Apply` and `ApplyAll` describe the same changes
  as functions on `Row`. The lemmas state what any sequence of reports
  does to a row.

Each run is one atomic, sequential step. The environment's choices are
inputs, bundled in an `Attempt` value: the random draw, whether the e-mail
row is found, and whether delivery succeeds. A missing job row is a null
`MailJob?`.

What the code does:

- The status written depends on which kind of report finds the threshold
  reached. A success at the threshold writes `completed` even when failures
  were counted (`CompletedDespiteFailures`).
- Reports after the threshold still count, and each one overwrites the
  status. The final status is that of the last report (`FinalStatus`,
  `TerminalStatusOverwritten`).
- `retry: 3` allows up to four runs of one unit: the first run plus three
  retries. Every failed run increments `failed_count`. So a unit that always
  fails adds four failures, and `sent_count + failed_count` can exceed
  `total_count` (`RunUnit`, `RetriesOvershootTotal`, `ReportsWithinTotal`).
- Nothing in the modelled code writes `processing`. A new row starts as
  `pending`, the column default.

## Model

| member | source | states |
|---|---|---|
| `MailJobs.StatusValue` | app/models/mail_job.rb:2 | every status is stored as an integer in 0..3 |
| `MailJobs.StatusFromValue` | app/models/mail_job.rb:2 | an integer denotes a status exactly when it is in 0..3 |
| `MailJobs.StatusValueRoundTrip` | app/models/mail_job.rb:2 | decoding the stored integer of a status gives that status back |
| `MailJobs.StatusFromValueRoundTrip` | app/models/mail_job.rb:2 | encoding a decoded integer gives the integer back |
| `MailJobs.StatusValueInjective` | app/models/mail_job.rb:2 | no two statuses share an integer |
| `MailJobs.TotalCountValid` | app/models/mail_job.rb:4 | total_count is greater than 0 |
| `MailJobs.CountsValid` | app/models/mail_job.rb:5 | sent_count and failed_count are at least 0 |
| `MailJobs.Valid` | app/models/mail_job.rb:4-5 | the row passes both validations |
| `MailJobs.RemainingCount` | app/models/mail_job.rb:12-14 | remaining is at most 0 exactly when sent + failed reach the total; with non-negative counters it never exceeds the total |
| `MailJobs.Create` | db/migrate/20250913104841_create_mail_jobs.rb:5-8 | a row is stored exactly when total_count > 0; it starts valid, with both counters 0, status pending (integer 0) and remaining equal to the total |
| `MailSenderJob.TerminalStatus` | app/jobs/mail_sender_job.rb:21-33 | a success writes completed and a failure writes failed |
| `MailSenderJob.ThresholdReached` | app/jobs/mail_sender_job.rb:21 | the completion check fires exactly when remaining_count <= 0 |
| `MailSenderJob.Apply` | app/jobs/mail_sender_job.rb:18-33 | one report adds 1 to its own counter and leaves the other counter and the total alone; at the threshold the status becomes that report's terminal status, otherwise it is unchanged; remaining drops by 1; validity is kept |
| `MailSenderJob.ApplyAll` | app/jobs/mail_sender_job.rb:18-33 | the row after reports applied in order, one `Apply` per report; the total never changes, and once the reports reach the total the status is the last report's terminal status |
| `MailSenderJob.MailJob.Valid` | app/models/mail_job.rb:4-5 | the in-place row passes both validations |
| `MailSenderJob.MailJob.constructor` | db/migrate/20250913104841_create_mail_jobs.rb:5-8 | a new row holds the values `Create` gives and is valid |
| `MailSenderJob.MailJob.RecordSuccess` | app/jobs/mail_sender_job.rb:18-23 | sent_count + 1, failed_count and total unchanged; status completed iff the threshold now holds, else unchanged; the row stays valid |
| `MailSenderJob.MailJob.RecordFailure` | app/jobs/mail_sender_job.rb:27-33 | failed_count + 1, sent_count and total unchanged; status failed iff the threshold now holds, else unchanged; the row stays valid |
| `MailSenderJob.EarlyError` | app/jobs/mail_sender_job.rb:7-15 | an attempt reaches the success increment exactly when there is no simulated error, the e-mail is found and delivery succeeds; otherwise the first error in source order is raised: the simulated error, then a missing e-mail, then a failed delivery |
| `MailSenderJob.AttemptReport` | app/jobs/mail_sender_job.rb:7-18 | an attempt reports a success exactly when no error is raised before the increment |
| `MailSenderJob.Perform` | app/jobs/mail_sender_job.rb:5-36 | with no job row the run raises RecordNotFound and records nothing; otherwise the row gets exactly one report, the run returns iff it reached the increment and otherwise re-raises the error that stopped it, and a raising run never changes sent_count |
| `MailSenderJob.FirstSuccess` | app/jobs/mail_sender_job.rb:3 | the index of the first succeeding attempt: every earlier attempt fails, and the one at the index succeeds unless there is none |
| `MailSenderJob.UnitReports` | app/jobs/mail_sender_job.rb:3-35 | a unit reports one failure per attempt up to its first success, then that success, and stops |
| `MailSenderJob.UnitReportCounts` | app/jobs/mail_sender_job.rb:28-35 | a unit records as many failures as it had failed attempts, and one success iff some attempt succeeded |
| `MailSenderJob.RunUnit` | app/jobs/mail_sender_job.rb:3-36 | between 1 and 4 runs take place; the row ends as the unit's reports make it; failed_count rises by the number of failed runs and sent_count by 1 iff a run returned; a unit that never succeeds ends with the last run's error |
| `MailSenderJob.ApplyAllCounts` | app/jobs/mail_sender_job.rb:18-28 | after any reports, each counter has grown by the number of reports of its kind and the total is unchanged |
| `MailSenderJob.CountersOrderIndependent` | app/jobs/mail_sender_job.rb:18-28 | the counters do not depend on the order in which reports arrive |
| `MailSenderJob.CountersNeverDecrease` | app/jobs/mail_sender_job.rb:18-28 | along any sequence of reports neither counter ever decreases |
| `MailSenderJob.RemainingAfterReports` | app/models/mail_job.rb:12-14 | each report takes exactly one off remaining_count |
| `MailSenderJob.ValidAfterReports` | app/models/mail_job.rb:4-5 | reports keep a valid row valid |
| `MailSenderJob.ThresholdStaysReached` | app/jobs/mail_sender_job.rb:21-31 | once the completion check has fired it fires for every later report |
| `MailSenderJob.FinalStatus` | app/jobs/mail_sender_job.rb:21-33 | the status is the starting one until the reports reach the total, and from then on the terminal status of the last report |
| `MailSenderJob.SettledJob` | app/jobs/mail_sender_job.rb:18-33 | a fresh row that receives exactly total_count reports ends with one count per kind and the status of the last report |
| `MailSenderJob.ReportsWithinTotal` | app/jobs/mail_sender_job.rb:18-28 | from a fresh row, sent + failed stays within the total exactly while there have been at most total_count reports |
| `MailSenderJob.UnitFailingEveryAttempt` | app/jobs/mail_sender_job.rb:3-35 | a unit failing every attempt records four failures and no success |
| `MailSenderJob.CompletedDespiteFailures` | app/jobs/mail_sender_job.rb:21-22 | total - 1 failures followed by a success leave the row completed with failed_count = total - 1 |
| `MailSenderJob.TerminalStatusOverwritten` | app/jobs/mail_sender_job.rb:21-32 | total successes make the row completed; one more failure overwrites it to failed, with sent + failed past the total |
| `MailSenderJob.RetriesOvershootTotal` | app/jobs/mail_sender_job.rb:3-35 | one always-failing unit on a fresh row adds four failures and makes the row failed when the total is at most four |

## Left out

- Sidekiq queuing and concurrency: each run is one atomic step. The stale in-memory `failed_count` between the lookup at line 12 and the check at line 21 is not modelled. Nor are concurrent runs on the same row.
- `rand < 0.3`: `Attempt.roll` stands for the draw's result. The probability is not modelled.
- `Email.find`, `MailJob.find` and `TestMailer.notification(...).deliver_now` are opaque. Each becomes a found/succeeded input, or a null job.
- Errors from `increment!` or `update!` themselves (database errors) are not modelled. In the source such an error on the success path would enter the rescue. The model also assumes a row that passes its validations (`requires Valid()` on the class methods). `update!` on a row that fails them would raise `RecordInvalid`, and such a row is not modelled.
- `RunUnit` takes a row that exists. A unit whose row is missing raises `RecordNotFound` on every run and records nothing; `Perform` covers one such run, but no unit-level member runs it through the retries.
- `rescue StandardError` catches only standard errors. An exception outside that class (a worker shutdown during delivery, say) would escape without being counted; `Attempt.deliveryOk` treats every delivery failure as a rescued one. `Perform` takes `simulate` as an explicit argument, so the source's default of `false` has no counterpart.
- `RunUnit` takes exactly `MaxAttempts` draws, one per run the queue may make. Draws after the first success are ignored. Retry backoff and the dead set are not modelled.
- Integer width: counters are unbounded integers. The 32-bit column limit is not modelled.
- `progress_percentage` (float division and rounding), the `job_id` and timestamp columns, and the enum's generated query methods are not modelled.
- `Email` (random sampling, format and uniqueness validations), the feature-flag service and its Unleash configuration, routes, controllers (including the `bulk_send` stub; there is no dispatcher in the code), the health endpoint and the debug tracer are outside this model.
