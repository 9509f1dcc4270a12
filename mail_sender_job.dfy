/** The worker that sends one message of a mail job and reports the outcome
    to the job's row. Each run of `Perform` is one attempt; an attempt that
    raises is run again by the queue up to `RetryLimit` more times. The row
    is the class `MailJob`, changed in place; `Apply` and `ApplyAll` give
    the same changes as functions on `MailJobs.Row`, and the lemmas below
    state what any sequence of reports does to a row. */
module MailSenderJob {
  import opened MailJobs

  /** `retry: 3`: a run that raises is retried at most three times. */
  const RetryLimit: nat := 3

  /** The first run plus its retries. */
  const MaxAttempts: nat := 1 + RetryLimit

  /** The kind of report one attempt makes to the row: the success path
      increments `sent_count`, the rescue path `failed_count`. */
  datatype Report = Success | Failure

  /** The status each kind of report writes once the reports reach the total. */
  function TerminalStatus(rep: Report): (s: Status)
    ensures s == Completed <==> rep == Success
    ensures s == Failed <==> rep == Failure
  {
    match rep
    case Success => Completed
    case Failure => Failed
  }

  /** The completion check made after each increment. It fires exactly when
      nothing remains. */
  function ThresholdReached(r: Row): (reached: bool)
    ensures reached <==> RemainingCount(r) <= 0
  {
    r.sentCount + r.failedCount >= r.totalCount
  }

  /** The row after one report: one counter goes up by one, and the status
      is overwritten with the report's terminal status when the check
      fires; otherwise the status is left as it was. */
  function Apply(r: Row, rep: Report): (next: Row)
    ensures next.totalCount == r.totalCount
    ensures next.sentCount == r.sentCount + (if rep == Success then 1 else 0)
    ensures next.failedCount == r.failedCount + (if rep == Failure then 1 else 0)
    ensures ThresholdReached(next) ==> next.status == TerminalStatus(rep)
    ensures !ThresholdReached(next) ==> next.status == r.status
    ensures RemainingCount(next) == RemainingCount(r) - 1
    ensures MailJobs.Valid(r) ==> MailJobs.Valid(next)
  {
    var counted := match rep
      case Success => r.(sentCount := r.sentCount + 1)
      case Failure => r.(failedCount := r.failedCount + 1);
    if ThresholdReached(counted) then counted.(status := TerminalStatus(rep)) else counted
  }

  /** The row after a sequence of reports, applied in order. */
  function ApplyAll(r: Row, reps: seq<Report>): (last: Row)
    ensures last.totalCount == r.totalCount
    ensures reps != [] && ThresholdReached(last) ==> last.status == TerminalStatus(reps[|reps| - 1])
  {
    if reps == [] then r else Apply(ApplyAll(r, reps[..|reps| - 1]), reps[|reps| - 1])
  }

  /** The persisted row of a mail job, as the worker sees and updates it. */
  class MailJob {
    var totalCount: int
    var sentCount: int
    var failedCount: int
    var status: Status

    /** The row's current column values. */
    function Attributes(): Row
      reads this
    {
      Row(totalCount, sentCount, failedCount, status)
    }

    /** The row passes its validations. */
    predicate Valid()
      reads this
    {
      MailJobs.Valid(Attributes())
    }

    /** A freshly created row with the column defaults. */
    constructor (totalCount: int)
      requires totalCount > 0
      ensures Valid()
      ensures Create(totalCount) == Some(Attributes())
    {
      this.totalCount := totalCount;
      sentCount := 0;
      failedCount := 0;
      status := Pending;
    }

    /** The success path after delivery: `increment!(:sent_count)`, then
        `completed` when the reports have reached the total. */
    method RecordSuccess()
      requires Valid()
      modifies this
      ensures Valid()
      ensures Attributes() == Apply(old(Attributes()), Success)
      ensures sentCount == old(sentCount) + 1
      ensures failedCount == old(failedCount) && totalCount == old(totalCount)
      ensures status == if ThresholdReached(Attributes()) then Completed else old(status)
    {
      sentCount := sentCount + 1;
      if sentCount + failedCount >= totalCount {
        status := Completed;
      }
    }

    /** The rescue path on the re-read row: `increment!(:failed_count)`,
        then `failed` when the reports have reached the total. */
    method RecordFailure()
      requires Valid()
      modifies this
      ensures Valid()
      ensures Attributes() == Apply(old(Attributes()), Failure)
      ensures failedCount == old(failedCount) + 1
      ensures sentCount == old(sentCount) && totalCount == old(totalCount)
      ensures status == if ThresholdReached(Attributes()) then Failed else old(status)
    {
      failedCount := failedCount + 1;
      if sentCount + failedCount >= totalCount {
        status := Failed;
      }
    }
  }

  /** The exceptions an attempt can end with. */
  datatype Error = SimulatedError | EmailNotFound | JobNotFound | DeliveryFailed

  /** How one run of the worker ends: normally, or by raising (which makes
      the queue retry it). */
  datatype Outcome = Returned | Raised(error: Error)

  /** What the environment decides in one attempt: whether the random draw
      falls under 0.3, whether the e-mail row is found, and whether the
      mailer delivers without raising. */
  datatype Attempt = Attempt(roll: bool, emailFound: bool, deliveryOk: bool)

  /** The exception raised before the success increment, for a job whose
      row exists; `None` when the attempt reaches the increment. The
      simulated error comes first, then a missing e-mail, then a failed
      delivery. */
  function EarlyError(simulate: bool, a: Attempt): (e: Option<Error>)
    ensures e.None? <==> !(simulate && a.roll) && a.emailFound && a.deliveryOk
    ensures simulate && a.roll ==> e == Some(SimulatedError)
    ensures !(simulate && a.roll) && !a.emailFound ==> e == Some(EmailNotFound)
    ensures !(simulate && a.roll) && a.emailFound && !a.deliveryOk ==> e == Some(DeliveryFailed)
    ensures e != Some(JobNotFound)
  {
    if simulate && a.roll then Some(SimulatedError)
    else if !a.emailFound then Some(EmailNotFound)
    else if !a.deliveryOk then Some(DeliveryFailed)
    else None
  }

  /** The report an attempt makes to an existing row. */
  function AttemptReport(simulate: bool, a: Attempt): (rep: Report)
    ensures rep == Success <==> EarlyError(simulate, a).None?
  {
    if EarlyError(simulate, a).None? then Success else Failure
  }

  /** One run of the worker. `job` is the row `MailJob.find` returns, or
      null when there is none; then the lookup in the rescue raises again
      and nothing is recorded. Otherwise the row receives exactly the
      attempt's report, and the run ends with the error that stopped it. */
  method Perform(job: MailJob?, simulate: bool, a: Attempt) returns (outcome: Outcome)
    requires job != null ==> job.Valid()
    modifies job
    ensures job == null ==> outcome == Raised(JobNotFound)
    ensures job != null ==> job.Valid()
    ensures job != null ==> job.Attributes() == Apply(old(job.Attributes()), AttemptReport(simulate, a))
    ensures job != null ==> outcome == match EarlyError(simulate, a)
                                       case None => Returned
                                       case Some(e) => Raised(e)
    ensures outcome.Raised? && job != null ==> job.sentCount == old(job.sentCount)
  {
    var raised: Option<Error> := None;
    if simulate && a.roll {
      raised := Some(SimulatedError);
    } else if !a.emailFound {
      raised := Some(EmailNotFound);
    } else if job == null {
      raised := Some(JobNotFound);
    } else if !a.deliveryOk {
      raised := Some(DeliveryFailed);
    } else {
      job.RecordSuccess();
    }
    if raised.Some? {
      if job == null {
        return Raised(JobNotFound);
      }
      job.RecordFailure();
      return Raised(raised.value);
    }
    return Returned;
  }

  /** The index of the first attempt that succeeds, or `|draws|` when none does. */
  function FirstSuccess(simulate: bool, draws: seq<Attempt>): (k: nat)
    ensures k <= |draws|
    ensures forall j :: 0 <= j < k ==> AttemptReport(simulate, draws[j]) == Failure
    ensures k < |draws| ==> AttemptReport(simulate, draws[k]) == Success
  {
    if draws == [] then 0
    else if AttemptReport(simulate, draws[0]) == Success then 0
    else 1 + FirstSuccess(simulate, draws[1..])
  }

  /** The reports one unit makes to its row when its attempts draw `draws`:
      a failure per attempt up to the first success, then that success. */
  function UnitReports(simulate: bool, draws: seq<Attempt>): (reps: seq<Report>)
    ensures FirstSuccess(simulate, draws) < |draws| ==> |reps| == FirstSuccess(simulate, draws) + 1
    ensures FirstSuccess(simulate, draws) == |draws| ==> |reps| == |draws|
    ensures forall i :: 0 <= i < FirstSuccess(simulate, draws) ==> reps[i] == Failure
    ensures FirstSuccess(simulate, draws) < |draws| ==> reps[FirstSuccess(simulate, draws)] == Success
  {
    if draws == [] then []
    else if AttemptReport(simulate, draws[0]) == Success then [Success]
    else [Failure] + UnitReports(simulate, draws[1..])
  }

  /** A unit records one failure per failed attempt, and one success when
      some attempt succeeds. */
  lemma {:induction false} UnitReportCounts(simulate: bool, draws: seq<Attempt>)
    ensures multiset(UnitReports(simulate, draws))[Failure] == FirstSuccess(simulate, draws)
    ensures multiset(UnitReports(simulate, draws))[Success] ==
            if FirstSuccess(simulate, draws) < |draws| then 1 else 0
  {
    if draws != [] && AttemptReport(simulate, draws[0]) == Failure {
      UnitReportCounts(simulate, draws[1..]);
      assert UnitReports(simulate, draws) == [Failure] + UnitReports(simulate, draws[1..]);
    }
  }

  /** One unit as the queue runs it: attempts run until one returns or
      `MaxAttempts` have raised, each attempt reporting to the row. */
  method RunUnit(job: MailJob, simulate: bool, draws: seq<Attempt>) returns (attempts: nat, outcome: Outcome)
    requires |draws| == MaxAttempts
    requires job.Valid()
    modifies job
    ensures job.Valid()
    ensures attempts == |UnitReports(simulate, draws)| && 1 <= attempts <= MaxAttempts
    ensures job.Attributes() == ApplyAll(old(job.Attributes()), UnitReports(simulate, draws))
    ensures outcome.Returned? <==> FirstSuccess(simulate, draws) < |draws|
    ensures outcome.Raised? ==> outcome == Raised(EarlyError(simulate, draws[|draws| - 1]).value)
    ensures job.failedCount == old(job.failedCount) + FirstSuccess(simulate, draws)
    ensures job.sentCount == old(job.sentCount) + if outcome.Returned? then 1 else 0
    ensures job.totalCount == old(job.totalCount)
  {
    ghost var start := job.Attributes();
    ghost var all := UnitReports(simulate, draws);
    ghost var first := FirstSuccess(simulate, draws);
    ghost var reps: seq<Report> := [];
    var i := 0;
    var done := false;
    outcome := Returned;
    while i < |draws| && !done
      invariant 0 <= i <= |all|
      invariant job.Valid()
      invariant reps == all[..i]
      invariant job.Attributes() == ApplyAll(start, reps)
      invariant done ==> i == first + 1 && first < |draws|
      invariant !done ==> i <= first
      invariant i > 0 ==> (done <==> outcome.Returned?)
      invariant !done && i > 0 ==> outcome == Raised(EarlyError(simulate, draws[i - 1]).value)
    {
      outcome := Perform(job, simulate, draws[i]);
      assert AttemptReport(simulate, draws[i]) == all[i];
      ApplyAllSnoc(start, reps, all[i]);
      assert all[..i + 1] == all[..i] + [all[i]];
      reps := reps + [all[i]];
      done := outcome.Returned?;
      i := i + 1;
    }
    attempts := i;
    assert i == |all| by {
      if !done {
        assert i == |draws| && first == |draws|;
      }
    }
    assert reps == all;
    UnitReportCounts(simulate, draws);
    ApplyAllCounts(start, all);
  }

  /** Applying one more report is one more step of `Apply`. */
  lemma ApplyAllSnoc(r: Row, reps: seq<Report>, rep: Report)
    ensures ApplyAll(r, reps + [rep]) == Apply(ApplyAll(r, reps), rep)
  {
    assert (reps + [rep])[..|reps|] == reps;
  }

  /** Among the reports, the number of each kind. */
  lemma {:induction false} ReportKindsTotal(reps: seq<Report>)
    ensures multiset(reps)[Success] + multiset(reps)[Failure] == |reps|
  {
    if reps != [] {
      ReportKindsTotal(reps[1..]);
      assert reps == [reps[0]] + reps[1..];
      assert multiset(reps) == multiset{reps[0]} + multiset(reps[1..]);
      if reps[0] == Success {
        assert multiset{reps[0]}[Success] == 1 && multiset{reps[0]}[Failure] == 0;
      } else {
        assert multiset{reps[0]}[Success] == 0 && multiset{reps[0]}[Failure] == 1;
      }
    }
  }

  /** Each report adds one to its own counter and nothing else; so the
      counters depend only on how many reports of each kind there were. */
  lemma {:induction false} ApplyAllCounts(r: Row, reps: seq<Report>)
    ensures ApplyAll(r, reps).totalCount == r.totalCount
    ensures ApplyAll(r, reps).sentCount == r.sentCount + multiset(reps)[Success]
    ensures ApplyAll(r, reps).failedCount == r.failedCount + multiset(reps)[Failure]
  {
    if reps != [] {
      var init := reps[..|reps| - 1];
      ApplyAllCounts(r, init);
      assert reps == init + [reps[|reps| - 1]];
    }
  }

  /** The order in which reports arrive does not change the counters. */
  lemma CountersOrderIndependent(r: Row, a: seq<Report>, b: seq<Report>)
    requires multiset(a) == multiset(b)
    ensures ApplyAll(r, a).sentCount == ApplyAll(r, b).sentCount
    ensures ApplyAll(r, a).failedCount == ApplyAll(r, b).failedCount
  {
    ApplyAllCounts(r, a);
    ApplyAllCounts(r, b);
  }

  /** Counters never decrease: a later point in a sequence of reports has
      counters at least those of an earlier one. */
  lemma CountersNeverDecrease(r: Row, reps: seq<Report>, i: nat, j: nat)
    requires i <= j <= |reps|
    ensures ApplyAll(r, reps[..i]).sentCount <= ApplyAll(r, reps[..j]).sentCount
    ensures ApplyAll(r, reps[..i]).failedCount <= ApplyAll(r, reps[..j]).failedCount
  {
    ApplyAllCounts(r, reps[..i]);
    ApplyAllCounts(r, reps[..j]);
    assert reps[..j] == reps[..i] + reps[i..j];
  }

  /** Every report takes exactly one off `remaining_count`. */
  lemma RemainingAfterReports(r: Row, reps: seq<Report>)
    ensures RemainingCount(ApplyAll(r, reps)) == RemainingCount(r) - |reps|
  {
    ApplyAllCounts(r, reps);
    ReportKindsTotal(reps);
  }

  /** Reports keep a valid row valid. */
  lemma {:induction false} ValidAfterReports(r: Row, reps: seq<Report>)
    requires MailJobs.Valid(r)
    ensures MailJobs.Valid(ApplyAll(r, reps))
  {
    if reps != [] {
      ValidAfterReports(r, reps[..|reps| - 1]);
    }
  }

  /** Once the check has fired, it fires for every later report too. */
  lemma ThresholdStaysReached(r: Row, reps: seq<Report>, i: nat)
    requires i <= |reps|
    requires ThresholdReached(ApplyAll(r, reps[..i]))
    ensures ThresholdReached(ApplyAll(r, reps))
  {
    RemainingAfterReports(r, reps[..i]);
    RemainingAfterReports(r, reps);
  }

  /** The status after a sequence of reports: until the reports reach the
      total it is the starting status; from then on it is the terminal
      status of the LAST report, whatever came before it, so a later report
      overwrites an earlier terminal status. */
  lemma {:induction false} FinalStatus(r: Row, reps: seq<Report>)
    ensures ApplyAll(r, reps).status ==
            if reps != [] && ThresholdReached(ApplyAll(r, reps))
            then TerminalStatus(reps[|reps| - 1])
            else r.status
  {
    if reps != [] {
      var init := reps[..|reps| - 1];
      FinalStatus(r, init);
      RemainingAfterReports(r, init);
      RemainingAfterReports(r, reps);
    }
  }

  /** A job that receives exactly one report per unit ends with one count
      per report kind and the terminal status of the last report, which is
      `completed` whenever the last report is a success, even with failures
      counted before it. */
  lemma SettledJob(total: int, reps: seq<Report>)
    requires total > 0 && |reps| == total
    ensures ApplyAll(Create(total).value, reps) ==
            Row(total, multiset(reps)[Success], multiset(reps)[Failure], TerminalStatus(reps[|reps| - 1]))
  {
    var r := Create(total).value;
    ApplyAllCounts(r, reps);
    RemainingAfterReports(r, reps);
    FinalStatus(r, reps);
  }

  /** From a fresh row, `sent_count + failed_count` stays within the total
      exactly while there have been at most `total_count` reports. */
  lemma ReportsWithinTotal(total: int, reps: seq<Report>)
    requires total > 0
    ensures var last := ApplyAll(Create(total).value, reps);
            last.sentCount + last.failedCount <= total <==> |reps| <= total
  {
    ApplyAllCounts(Create(total).value, reps);
    RemainingAfterReports(Create(total).value, reps);
  }

  /** A unit that raises on every attempt records `MaxAttempts` failures,
      one per attempt, and no success. */
  lemma UnitFailingEveryAttempt(simulate: bool, draws: seq<Attempt>)
    requires |draws| == MaxAttempts
    requires forall j :: 0 <= j < |draws| ==> EarlyError(simulate, draws[j]).Some?
    ensures multiset(UnitReports(simulate, draws))[Failure] == MaxAttempts
    ensures multiset(UnitReports(simulate, draws))[Success] == 0
  {
    UnitReportCounts(simulate, draws);
  }

  /** The number of each kind among `n` reports of one kind. */
  lemma UniformCounts(n: nat, rep: Report)
    ensures multiset(seq(n, _ => rep))[rep] == n
    ensures multiset(seq(n, _ => rep))[if rep == Success then Failure else Success] == 0
  {
    var reps := seq(n, _ => rep);
    var other := if rep == Success then Failure else Success;
    ReportKindsTotal(reps);
    assert other !in reps;
    assert other !in multiset(reps);
  }

  /** A success that reaches the total writes `completed` although every
      other report was a failure. */
  lemma CompletedDespiteFailures(total: int)
    requires total > 0
    ensures ApplyAll(Create(total).value, seq(total - 1, _ => Failure) + [Success]) ==
            Row(total, 1, total - 1, Completed)
  {
    var failures := seq(total - 1, _ => Failure);
    var reps := failures + [Success];
    UniformCounts(total - 1, Failure);
    assert multiset(reps) == multiset(failures) + multiset{Success};
    SettledJob(total, reps);
  }

  /** A report past the total overwrites the terminal status: after
      `total_count` successes the row is `completed`, and one more failure
      makes it `failed` with the counters past the total. */
  lemma TerminalStatusOverwritten(total: int)
    requires total > 0
    ensures ApplyAll(Create(total).value, seq(total, _ => Success)).status == Completed
    ensures ApplyAll(Create(total).value, seq(total, _ => Success) + [Failure]) ==
            Row(total, total, 1, Failed)
  {
    var r := Create(total).value;
    var successes := seq(total, _ => Success);
    var reps := successes + [Failure];
    UniformCounts(total, Success);
    assert multiset(reps) == multiset(successes) + multiset{Failure};
    SettledJob(total, successes);
    ApplyAllCounts(r, reps);
    RemainingAfterReports(r, reps);
    FinalStatus(r, reps);
  }

  /** A unit that raises on every attempt records `MaxAttempts` failures
      against the total: on a fresh row of at most `MaxAttempts` messages
      it alone drives the row to `failed` and past its total. */
  lemma RetriesOvershootTotal(total: int, simulate: bool, draws: seq<Attempt>)
    requires total > 0 && |draws| == MaxAttempts
    requires forall j :: 0 <= j < |draws| ==> EarlyError(simulate, draws[j]).Some?
    ensures ApplyAll(Create(total).value, UnitReports(simulate, draws)) ==
            Row(total, 0, MaxAttempts, if total <= MaxAttempts then Failed else Pending)
  {
    var r := Create(total).value;
    var reps := UnitReports(simulate, draws);
    UnitFailingEveryAttempt(simulate, draws);
    ReportKindsTotal(reps);
    ApplyAllCounts(r, reps);
    RemainingAfterReports(r, reps);
    FinalStatus(r, reps);
  }
}
