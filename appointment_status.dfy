/** The five appointment statuses and which of them hold a time slot. */
module AppointmentStatus {
  import opened Wrappers

  datatype Status = Pending | Confirmed | Completed | Cancelled | NoShow

  /** The status as it is stored and sent in forms. */
  function Name(s: Status): string {
    match s
    case Pending => "pending"
    case Confirmed => "confirmed"
    case Completed => "completed"
    case Cancelled => "cancelled"
    case NoShow => "no_show"
  }

  /** The schema's enum check; `None` for any other text. */
  function FromName(n: string): (r: Option<Status>)
    ensures r.Some? ==> Name(r.value) == n
  {
    if n == "pending" then Some(Pending)
    else if n == "confirmed" then Some(Confirmed)
    else if n == "completed" then Some(Completed)
    else if n == "cancelled" then Some(Cancelled)
    else if n == "no_show" then Some(NoShow)
    else None
  }

  lemma NameRoundTrip(s: Status)
    ensures FromName(Name(s)) == Some(s)
  {
  }

  /** Only these statuses are considered by the conflict queries. */
  predicate Blocking(s: Status) {
    s == Pending || s == Confirmed
  }
}
