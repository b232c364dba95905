/** `deleteConsultationRoom`: a room with staff members or appointments is
    deactivated, with a message naming the non-zero counts; a room without
    them is removed. A found room is never refused. */
module RoomRemoval {
  import opened Wrappers
  import opened Text
  import opened Store

  datatype Outcome =
    | Deactivated(message: string)
    | Removed  // "Cuarto de consulta eliminado exitosamente"

  datatype RemovalError =
    | InvalidId  // "ID de cuarto de consulta inválido"
    | NotFound   // "Cuarto de consulta no encontrado"

  /** The `relations` array: only the non-zero counts, staff first. */
  function Relations(staff: nat, appointments: nat): (r: seq<string>) {
    (if staff > 0 then [NatToString(staff) + " psicólogo(s)"] else [])
    + (if appointments > 0 then [NatToString(appointments) + " cita(s)"] else [])
  }

  const DeactivatedPrefix := "El cuarto de consulta ha sido desactivado porque tiene "
  const DeactivatedSuffix := " asignado(s). Los datos históricos se mantendrán."

  function DeactivatedMessage(staff: nat, appointments: nat): (m: string) {
    DeactivatedPrefix + Join(Relations(staff, appointments), " y ") + DeactivatedSuffix
  }

  /** The message names exactly the non-zero counts, joined by " y ". */
  lemma MessageListsNonZeroCounts(staff: nat, appointments: nat)
    ensures var middle := Join(Relations(staff, appointments), " y ");
            && (staff > 0 && appointments > 0 ==>
                  middle == NatToString(staff) + " psicólogo(s)" + " y " + NatToString(appointments) + " cita(s)")
            && (staff > 0 && appointments == 0 ==> middle == NatToString(staff) + " psicólogo(s)")
            && (staff == 0 && appointments > 0 ==> middle == NatToString(appointments) + " cita(s)")
            && (staff == 0 && appointments == 0 ==> middle == "")
  {
    var r := Relations(staff, appointments);
    if staff > 0 && appointments > 0 {
      assert r[1..] == [NatToString(appointments) + " cita(s)"];
    }
  }

  /** Some stored staff member or appointment uses the room. */
  predicate Referenced(db: Db, id: int) {
    (exists k :: k in db.staff.rows && db.staff.rows[k].consultationRoomId == Some(id))
    || (exists k :: k in db.appointments.rows && db.appointments.rows[k].consultationRoomId == Some(id))
  }

  lemma CountsMeanReferences(db: Db, id: int)
    ensures (|StaffInRoom(db, id)| > 0 || |AppointmentsInRoom(db, id)| > 0) <==> Referenced(db, id)
  {
    if exists k :: k in db.staff.rows && db.staff.rows[k].consultationRoomId == Some(id) {
      var k :| k in db.staff.rows && db.staff.rows[k].consultationRoomId == Some(id);
      assert k in StaffInRoom(db, id);
    }
    if exists k :: k in db.appointments.rows && db.appointments.rows[k].consultationRoomId == Some(id) {
      var k :| k in db.appointments.rows && db.appointments.rows[k].consultationRoomId == Some(id);
      assert k in AppointmentsInRoom(db, id);
    }
  }

  /** `!id || id <= 0` rejects 0 and negative ids before any lookup. */
  function Delete(db: Db, id: int): (r: (Result<Outcome, RemovalError>, Db)) {
    if id <= 0 then (Err(InvalidId), db)
    else if id !in db.rooms.rows then (Err(NotFound), db)
    else
      var staff, appointments := |StaffInRoom(db, id)|, |AppointmentsInRoom(db, id)|;
      if staff > 0 || appointments > 0 then
        (Ok(Deactivated(DeactivatedMessage(staff, appointments))),
         db.(rooms := Put(db.rooms, id, db.rooms.rows[id].(active := false))))
      else (Ok(Removed), db.(rooms := Remove(db.rooms, id)))
  }

  /** Errors only for a bad or unknown id, and then nothing changes; a room
      in use is deactivated and kept; a room not in use is removed. */
  lemma DeleteOutcome(db: Db, id: int)
    ensures var r := Delete(db, id);
            && (r.0.Err? <==> id <= 0 || id !in db.rooms.rows)
            && (r.0.Err? ==> r.1 == db)
            && (r.0 == Ok(Removed) <==> id > 0 && id in db.rooms.rows && !Referenced(db, id))
            && (r.0 == Ok(Removed) ==> r.1 == db.(rooms := Remove(db.rooms, id)))
            && (r.0.Ok? && r.0.value.Deactivated? ==>
                  id in db.rooms.rows && Referenced(db, id)
                  && r.0.value.message
                     == DeactivatedMessage(|StaffInRoom(db, id)|, |AppointmentsInRoom(db, id)|)
                  && r.1 == db.(rooms := Put(db.rooms, id, db.rooms.rows[id].(active := false))))
  {
    CountsMeanReferences(db, id);
  }

  lemma DeletePreservesConsistency(db: Db, id: int)
    requires Consistent(db)
    ensures Consistent(Delete(db, id).1)
  {
    CountsMeanReferences(db, id);
  }

  method DeleteConsultationRoom(db: Database, id: int) returns (r: Result<Outcome, RemovalError>)
    requires db.Valid()
    modifies db
    ensures db.Valid()
    ensures (r, db.Snapshot()) == Delete(old(db.Snapshot()), id)
  {
    DeletePreservesConsistency(db.Snapshot(), id);
    if id <= 0 {
      return Err(InvalidId);
    }
    if id !in db.rooms.rows {
      return Err(NotFound);
    }
    var staff, appointments := |StaffInRoom(db.Snapshot(), id)|, |AppointmentsInRoom(db.Snapshot(), id)|;
    if staff > 0 || appointments > 0 {
      db.rooms := Put(db.rooms, id, db.rooms.rows[id].(active := false));
      var relations := [];
      if staff > 0 {
        relations := relations + [NatToString(staff) + " psicólogo(s)"];
      }
      if appointments > 0 {
        relations := relations + [NatToString(appointments) + " cita(s)"];
      }
      return Ok(Deactivated(DeactivatedPrefix + Join(relations, " y ") + DeactivatedSuffix));
    }
    db.rooms := Remove(db.rooms, id);
    r := Ok(Removed);
  }
}
