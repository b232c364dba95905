/** The staff member's appointment list: the status changes it offers for
    each appointment, its edit button and its "Vencida" (overdue) badge.
    These rules live only in the interface; the save action enforces none
    of them. */
module AppointmentsTableUi {
  import opened AppointmentStatus

  /** `getStatusActions`: the statuses offered as next steps for an
      appointment whose status is the text `status`. */
  function StatusActions(status: string): (r: seq<string>)
    ensures r != [] <==> status == "pending" || status == "confirmed"
    ensures forall i :: 0 <= i < |r| ==> r[i] != "pending" && r[i] != status
    ensures forall i :: 0 <= i < |r| ==> FromName(r[i]).Some?
    ensures forall i, j :: 0 <= i < j < |r| ==> r[i] != r[j]
  {
    if status == "pending" then ["confirmed", "cancelled"]
    else if status == "confirmed" then ["completed", "no_show", "cancelled"]
    else []
  }

  /** Every offered step leads from an open status (pending or confirmed)
      to a later one; nothing is offered from completed, cancelled or
      no_show. */
  lemma ActionsOnlyMoveForward(s: Status)
    ensures Blocking(s) <==> StatusActions(Name(s)) != []
    ensures forall i :: 0 <= i < |StatusActions(Name(s))| ==>
              FromName(StatusActions(Name(s))[i]).value != Pending
              && FromName(StatusActions(Name(s))[i]).value != s
  {
  }

  /** The edit button (the pencil) of a row. */
  predicate ShowEditButton(status: string) {
    status != "completed" && status != "cancelled"
  }

  /** The overdue badge: a pending appointment whose date is before the
      current moment (both as clock readings). */
  predicate ShowOverdueBadge(status: string, appointmentDate: int, now: int) {
    appointmentDate < now && status == "pending"
  }

  /** A no_show appointment keeps its edit button although it offers no
      status change; completed and cancelled ones have neither. */
  lemma EditButtonAndActions()
    ensures ShowEditButton("no_show") && StatusActions("no_show") == []
    ensures !ShowEditButton("completed") && StatusActions("completed") == []
    ensures !ShowEditButton("cancelled") && StatusActions("cancelled") == []
  {
  }

  /** An overdue appointment can still be edited and moved on. */
  lemma OverdueIsActionable(status: string, appointmentDate: int, now: int)
    requires ShowOverdueBadge(status, appointmentDate, now)
    ensures ShowEditButton(status) && StatusActions(status) == ["confirmed", "cancelled"]
  {
  }
}
