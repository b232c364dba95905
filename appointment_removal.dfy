/** `deleteAppointmentAction` and `cancelAppointmentAction`: the hard delete
    of an appointment, and its cancellation with a note appended. */
module AppointmentRemoval {
  import opened Wrappers
  import opened Text
  import opened AppointmentStatus
  import opened Store

  datatype RemovalError =
    | InvalidId          // "ID inválido"
    | NotFound           // "Cita no encontrada"
    | CannotCancelCompleted  // "No se puede cancelar una cita que ya fue completada"
    | AlreadyCancelled   // "La cita ya está cancelada"

  /** The two success messages of the delete. */
  datatype DeleteMessage =
    | AppointmentDeleted           // "Cita eliminada exitosamente"
    | CompletedAppointmentDeleted  // "Cita completada eliminada exitosamente"

  /** The delete action: any found appointment is removed, whatever its
      status; only the message tells a completed one apart. */
  function Delete(db: Db, id: int): (r: (Result<DeleteMessage, RemovalError>, Db)) {
    if id <= 0 then (Err(InvalidId), db)
    else if id !in db.appointments.rows then (Err(NotFound), db)
    else
      var message := if db.appointments.rows[id].status == Completed
                     then CompletedAppointmentDeleted else AppointmentDeleted;
      (Ok(message), db.(appointments := Remove(db.appointments, id)))
  }

  /** A refused delete changes nothing; an accepted one removes exactly
      that appointment, completed or not, and leaves every other row and
      the id counter as they were. */
  lemma DeleteOutcome(db: Db, id: int)
    ensures Delete(db, id).0.Err? <==> id <= 0 || id !in db.appointments.rows
    ensures Delete(db, id).0.Err? ==> Delete(db, id).1 == db
    ensures Delete(db, id).0.Ok? ==>
              var t := Delete(db, id).1.appointments;
              && Delete(db, id).1 == db.(appointments := t)
              && t.rows.Keys == db.appointments.rows.Keys - {id}
              && (forall k :: k in t.rows ==> t.rows[k] == db.appointments.rows[k])
              && t.nextId == db.appointments.nextId
              && (Delete(db, id).0.value == CompletedAppointmentDeleted
                  <==> db.appointments.rows[id].status == Completed)
  {
  }

  lemma DeletePreservesConsistency(db: Db, id: int)
    requires Consistent(db)
    ensures Consistent(Delete(db, id).1)
  {
  }

  /** What a cancellation appends before the reason. */
  const Marker := "\n[CANCELADA]: "

  /** The notes after cancelling: with a non-empty reason, the old notes
      (or nothing), a new line, the `[CANCELADA]:` marker and the reason,
      trimmed; without one, the old notes. */
  function CancelNotes(notes: Option<string>, reason: Option<string>): Option<string> {
    if reason.Some? && reason.value != "" then
      var previous := if notes.Some? then notes.value else "";
      Some(Trim(previous + Marker + reason.value))
    else notes
  }

  lemma CancelNotesWithoutReason(notes: Option<string>, reason: Option<string>)
    requires reason.None? || reason == Some("")
    ensures CancelNotes(notes, reason) == notes
  {
  }

  /** When the old notes do not start with white space and the reason does
      not end with it, the trim removes nothing: the reason is appended on
      a new line. */
  lemma CancelNotesAppends(notes: string, reason: string)
    requires notes != [] && !IsSpace(notes[0])
    requires reason != [] && !IsSpace(reason[|reason| - 1])
    ensures CancelNotes(Some(notes), Some(reason)) == Some(notes + Marker + reason)
  {
    var s := notes + Marker + reason;
    assert s[0] == notes[0] && s[|s| - 1] == reason[|reason| - 1];
    TrimKeeps(s);
  }

  /** Without previous notes the leading new line is trimmed away. */
  lemma CancelNotesOnEmpty(notes: Option<string>, reason: string)
    requires notes.None? || notes == Some("")
    requires reason != [] && !IsSpace(reason[|reason| - 1])
    ensures CancelNotes(notes, Some(reason)) == Some("[CANCELADA]: " + reason)
  {
    var core := "[CANCELADA]: " + reason;
    assert core[0] == '[' && core[|core| - 1] == reason[|reason| - 1];
    assert Marker == "\n" + "[CANCELADA]: ";
    assert "" + Marker + reason == "\n" + core;
    TrimDropsLeading("\n", core);
  }

  /** The cancel action: completed and cancelled appointments are refused;
      any other status becomes cancelled and the notes are updated. */
  function Cancel(db: Db, id: int, reason: Option<string>): (r: (Result<(), RemovalError>, Db)) {
    if id <= 0 then (Err(InvalidId), db)
    else if id !in db.appointments.rows then (Err(NotFound), db)
    else
      var a := db.appointments.rows[id];
      if a.status == Completed then (Err(CannotCancelCompleted), db)
      else if a.status == Cancelled then (Err(AlreadyCancelled), db)
      else
        var a' := a.(status := Cancelled, notes := CancelNotes(a.notes, reason));
        (Ok(()), db.(appointments := Put(db.appointments, id, a')))
  }

  /** The status machine of the cancel action, and what it writes: only
      `status` and `notes` of that one appointment. */
  lemma CancelOutcome(db: Db, id: int, reason: Option<string>)
    requires id > 0 && id in db.appointments.rows
    ensures var a, r := db.appointments.rows[id], Cancel(db, id, reason);
            && (a.status == Completed ==> r == (Err(CannotCancelCompleted), db))
            && (a.status == Cancelled ==> r == (Err(AlreadyCancelled), db))
            && (a.status in {Pending, Confirmed, NoShow} ==>
                  r.0.Ok? && r.1 == db.(appointments := r.1.appointments)
                  && r.1.appointments.rows.Keys == db.appointments.rows.Keys
                  && r.1.appointments.nextId == db.appointments.nextId
                  && r.1.appointments.rows[id]
                     == a.(status := Cancelled, notes := CancelNotes(a.notes, reason))
                  && forall k :: k in db.appointments.rows && k != id ==>
                       r.1.appointments.rows[k] == db.appointments.rows[k])
  {
  }

  /** Cancelling succeeds at most once. */
  lemma CancelTwiceRefused(db: Db, id: int, reason: Option<string>, reason2: Option<string>)
    requires Cancel(db, id, reason).0.Ok?
    ensures Cancel(Cancel(db, id, reason).1, id, reason2) == (Err(AlreadyCancelled), Cancel(db, id, reason).1)
  {
  }

  /** A cancelled appointment no longer blocks its slot, so cancelling
      keeps the store consistent. */
  lemma CancelPreservesConsistency(db: Db, id: int, reason: Option<string>)
    requires Consistent(db)
    ensures Consistent(Cancel(db, id, reason).1)
  {
  }

  method DeleteAppointment(db: Database, id: int) returns (r: Result<DeleteMessage, RemovalError>)
    requires db.Valid()
    modifies db
    ensures db.Valid()
    ensures (r, db.Snapshot()) == Delete(old(db.Snapshot()), id)
  {
    DeletePreservesConsistency(db.Snapshot(), id);
    if id <= 0 {
      return Err(InvalidId);
    }
    if id !in db.appointments.rows {
      return Err(NotFound);
    }
    var status := db.appointments.rows[id].status;
    db.appointments := Remove(db.appointments, id);
    r := Ok(if status == Completed then CompletedAppointmentDeleted else AppointmentDeleted);
  }

  method CancelAppointment(db: Database, id: int, reason: Option<string>) returns (r: Result<(), RemovalError>)
    requires db.Valid()
    modifies db
    ensures db.Valid()
    ensures (r, db.Snapshot()) == Cancel(old(db.Snapshot()), id, reason)
  {
    CancelPreservesConsistency(db.Snapshot(), id, reason);
    if id <= 0 {
      return Err(InvalidId);
    }
    if id !in db.appointments.rows {
      return Err(NotFound);
    }
    var a := db.appointments.rows[id];
    if a.status == Completed {
      return Err(CannotCancelCompleted);
    }
    if a.status == Cancelled {
      return Err(AlreadyCancelled);
    }
    var notes := CancelNotes(a.notes, reason);
    db.appointments := Put(db.appointments, id, a.(status := Cancelled, notes := notes));
    r := Ok(());
  }
}
