/** `deleteStaffAction`: a staff member with history (windows, appointments
    or assigned patients) is only deactivated, or refused when a permanent
    delete is forced; one without history is removed. */
module StaffRemoval {
  import opened Wrappers
  import opened Store

  /** The `_count` of the staff member's relations. */
  datatype Counts = Counts(schedules: nat, appointments: nat, patients: nat)

  datatype Outcome =
    | Deactivated(counts: Counts)  // deletionType "soft"
    | Removed                      // deletionType "hard"

  datatype RemovalError =
    | InvalidId                    // "ID inválido"
    | NotFound                     // "Miembro del staff no encontrado"
    | HasHistory(counts: Counts)   // "No se puede eliminar permanentemente ..."

  function CountsOf(db: Db, id: int): (c: Counts) {
    Counts(|SchedulesOfStaff(db, id)|, |AppointmentsOfStaff(db, id)|, |PatientsOfStaff(db, id)|)
  }

  predicate HasRelationships(c: Counts) {
    c.schedules > 0 || c.appointments > 0 || c.patients > 0
  }

  /** Some stored row refers to the staff member. */
  predicate Referenced(db: Db, id: int) {
    (exists k :: k in db.schedules.rows && db.schedules.rows[k].staffId == id)
    || (exists k :: k in db.appointments.rows && db.appointments.rows[k].staffId == id)
    || (exists k :: k in db.patients.rows && db.patients.rows[k].assignedPsychologist == Some(id))
  }

  /** The counts are non-zero exactly when some row refers to the staff
      member. */
  lemma RelationshipsMeanReferences(db: Db, id: int)
    ensures HasRelationships(CountsOf(db, id)) <==> Referenced(db, id)
  {
    if exists k :: k in db.schedules.rows && db.schedules.rows[k].staffId == id {
      var k :| k in db.schedules.rows && db.schedules.rows[k].staffId == id;
      assert k in SchedulesOfStaff(db, id);
    }
    if exists k :: k in db.appointments.rows && db.appointments.rows[k].staffId == id {
      var k :| k in db.appointments.rows && db.appointments.rows[k].staffId == id;
      assert k in AppointmentsOfStaff(db, id);
    }
    if exists k :: k in db.patients.rows && db.patients.rows[k].assignedPsychologist == Some(id) {
      var k :| k in db.patients.rows && db.patients.rows[k].assignedPsychologist == Some(id);
      assert k in PatientsOfStaff(db, id);
    }
  }

  function Delete(db: Db, id: int, force: bool): (r: (Result<Outcome, RemovalError>, Db)) {
    if id <= 0 then (Err(InvalidId), db)
    else if id !in db.staff.rows then (Err(NotFound), db)
    else
      var c := CountsOf(db, id);
      if HasRelationships(c) && !force then
        (Ok(Deactivated(c)), db.(staff := Put(db.staff, id, db.staff.rows[id].(active := false))))
      else if HasRelationships(c) then (Err(HasHistory(c)), db)
      else (Ok(Removed), db.(staff := Remove(db.staff, id)))
  }

  /** The three outcomes: a refusal changes nothing; a deactivation keeps
      the record and clears only `active`; a removal, whatever the force
      flag, happens exactly when nothing refers to the staff member. */
  lemma DeleteOutcome(db: Db, id: int, force: bool)
    ensures var r := Delete(db, id, force);
            && (r.0.Err? <==> id <= 0 || id !in db.staff.rows || (Referenced(db, id) && force))
            && (r.0.Err? ==> r.1 == db)
            && (r.0 == Ok(Removed) <==> id > 0 && id in db.staff.rows && !Referenced(db, id))
            && (r.0 == Ok(Removed) ==> r.1 == db.(staff := Remove(db.staff, id)))
            && (r.0.Ok? && r.0.value.Deactivated? ==>
                  id in db.staff.rows && !force && Referenced(db, id)
                  && r.0.value.counts == CountsOf(db, id)
                  && r.1 == db.(staff := Put(db.staff, id, db.staff.rows[id].(active := false))))
  {
    RelationshipsMeanReferences(db, id);
  }

  /** A removed staff member is referred to by nothing, so the store stays
      consistent under every outcome. */
  lemma DeletePreservesConsistency(db: Db, id: int, force: bool)
    requires Consistent(db)
    ensures Consistent(Delete(db, id, force).1)
  {
    RelationshipsMeanReferences(db, id);
  }

  method DeleteStaff(db: Database, id: int, force: bool) returns (r: Result<Outcome, RemovalError>)
    requires db.Valid()
    modifies db
    ensures db.Valid()
    ensures (r, db.Snapshot()) == Delete(old(db.Snapshot()), id, force)
  {
    DeletePreservesConsistency(db.Snapshot(), id, force);
    if id <= 0 {
      return Err(InvalidId);
    }
    if id !in db.staff.rows {
      return Err(NotFound);
    }
    var c := CountsOf(db.Snapshot(), id);
    var hasRelationships := c.schedules > 0 || c.appointments > 0 || c.patients > 0;
    if hasRelationships && !force {
      db.staff := Put(db.staff, id, db.staff.rows[id].(active := false));
      return Ok(Deactivated(c));
    }
    if hasRelationships && force {
      return Err(HasHistory(c));
    }
    db.staff := Remove(db.staff, id);
    r := Ok(Removed);
  }
}
