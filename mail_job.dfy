/** The attribute view of one `mail_jobs` row: the `status` enum, the
    validations on the three counters, the derived `remaining_count`, and
    the column defaults a freshly created row starts from. Everything here
    is a value; the object that the worker updates in place is the class
    `MailSenderJob.MailJob`. */
module MailJobs {

  datatype Option<+T> = None | Some(value: T)

  /** The `status` enum. The column stores the integer of `StatusValue`. */
  datatype Status = Pending | Processing | Completed | Failed

  /** The integer the enum maps each status to. */
  function StatusValue(s: Status): (v: int)
    ensures 0 <= v <= 3
  {
    match s
    case Pending => 0
    case Processing => 1
    case Completed => 2
    case Failed => 3
  }

  /** The status an integer column value denotes; `None` for an integer the
      enum does not map (read back as nil, refused on assignment). */
  function StatusFromValue(v: int): (s: Option<Status>)
    ensures s.Some? <==> 0 <= v <= 3
  {
    if v == 0 then Some(Pending)
    else if v == 1 then Some(Processing)
    else if v == 2 then Some(Completed)
    else if v == 3 then Some(Failed)
    else None
  }

  /** Encoding then decoding a status gives it back. */
  lemma StatusValueRoundTrip(s: Status)
    ensures StatusFromValue(StatusValue(s)) == Some(s)
  {
  }

  /** Decoding then encoding an integer the enum maps gives it back. */
  lemma StatusFromValueRoundTrip(v: int)
    requires StatusFromValue(v).Some?
    ensures StatusValue(StatusFromValue(v).value) == v
  {
  }

  /** No two statuses share an integer. */
  lemma StatusValueInjective(s: Status, t: Status)
    requires StatusValue(s) == StatusValue(t)
    ensures s == t
  {
    StatusValueRoundTrip(s);
    StatusValueRoundTrip(t);
  }

  /** The columns of a row that the core reads and writes. */
  datatype Row = Row(totalCount: int, sentCount: int, failedCount: int, status: Status)

  /** `total_count` must be present and greater than 0. */
  predicate TotalCountValid(r: Row)
  {
    r.totalCount > 0
  }

  /** `sent_count` and `failed_count` must be at least 0. */
  predicate CountsValid(r: Row)
  {
    r.sentCount >= 0 && r.failedCount >= 0
  }

  /** A row that passes every validation of the model. */
  predicate Valid(r: Row)
  {
    TotalCountValid(r) && CountsValid(r)
  }

  /** `remaining_count`: the units not yet reported. It is at most 0 exactly
      when the reports have reached the total, and a valid row never has
      more remaining than its total. */
  function RemainingCount(r: Row): (n: int)
    ensures n <= 0 <==> r.sentCount + r.failedCount >= r.totalCount
    ensures CountsValid(r) ==> n <= r.totalCount
  {
    r.totalCount - r.sentCount - r.failedCount
  }

  /** A row as `create` stores it: both counters and the status take their
      column defaults (0, 0 and the integer 0, that is `pending`), or
      nothing is stored when `total_count` fails validation. */
  function Create(totalCount: int): (r: Option<Row>)
    ensures r.Some? <==> totalCount > 0
    ensures r.Some? ==> Valid(r.value) && r.value.totalCount == totalCount
    ensures r.Some? ==> r.value.sentCount == 0 && r.value.failedCount == 0
    ensures r.Some? ==> StatusValue(r.value.status) == 0 && r.value.status == Pending
    ensures r.Some? ==> RemainingCount(r.value) == totalCount
  {
    if totalCount > 0 then Some(Row(totalCount, 0, 0, Pending)) else None
  }
}
