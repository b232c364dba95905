/** `deletePatientAction`: a patient with appointments is only deactivated,
    or refused when a permanent delete is forced; one without appointments
    is removed. */
module PatientRemoval {
  import opened Wrappers
  import opened Store

  datatype Outcome =
    | Deactivated(appointments: nat)  // deletionType "soft", "Tiene n cita(s) asociada(s)"
    | Removed                         // deletionType "hard"

  datatype RemovalError =
    | InvalidId                       // "ID inválido"
    | NotFound                        // "Paciente no encontrado"
    | HasAppointments(appointments: nat)  // "No se puede eliminar permanentemente ..."

  /** Some stored appointment belongs to the patient. */
  predicate Referenced(db: Db, id: int) {
    exists k :: k in db.appointments.rows && db.appointments.rows[k].patientId == id
  }

  lemma CountMeansReferences(db: Db, id: int)
    ensures |AppointmentsOfPatient(db, id)| > 0 <==> Referenced(db, id)
  {
    var s := AppointmentsOfPatient(db, id);
    if !Referenced(db, id) {
      assert forall k :: k !in s;
      assert s == {};
    } else {
      var k :| k in db.appointments.rows && db.appointments.rows[k].patientId == id;
      assert k in AppointmentsOfPatient(db, id);
    }
  }

  function Delete(db: Db, id: int, force: bool): (r: (Result<Outcome, RemovalError>, Db)) {
    if id <= 0 then (Err(InvalidId), db)
    else if id !in db.patients.rows then (Err(NotFound), db)
    else
      var n := |AppointmentsOfPatient(db, id)|;
      if n > 0 && !force then
        (Ok(Deactivated(n)), db.(patients := Put(db.patients, id, db.patients.rows[id].(active := false))))
      else if n > 0 then (Err(HasAppointments(n)), db)
      else (Ok(Removed), db.(patients := Remove(db.patients, id)))
  }

  /** The three outcomes: a refusal changes nothing; a deactivation keeps
      the record and clears only `active`; a removal, whatever the force
      flag, happens exactly when the patient has no appointments. */
  lemma DeleteOutcome(db: Db, id: int, force: bool)
    ensures var r := Delete(db, id, force);
            && (r.0.Err? <==> id <= 0 || id !in db.patients.rows || (Referenced(db, id) && force))
            && (r.0.Err? ==> r.1 == db)
            && (r.0 == Ok(Removed) <==> id > 0 && id in db.patients.rows && !Referenced(db, id))
            && (r.0 == Ok(Removed) ==> r.1 == db.(patients := Remove(db.patients, id)))
            && (r.0.Ok? && r.0.value.Deactivated? ==>
                  id in db.patients.rows && !force && Referenced(db, id)
                  && r.0.value.appointments == |AppointmentsOfPatient(db, id)|
                  && r.1 == db.(patients := Put(db.patients, id, db.patients.rows[id].(active := false))))
  {
    CountMeansReferences(db, id);
  }

  lemma DeletePreservesConsistency(db: Db, id: int, force: bool)
    requires Consistent(db)
    ensures Consistent(Delete(db, id, force).1)
  {
    CountMeansReferences(db, id);
  }

  method DeletePatient(db: Database, id: int, force: bool) returns (r: Result<Outcome, RemovalError>)
    requires db.Valid()
    modifies db
    ensures db.Valid()
    ensures (r, db.Snapshot()) == Delete(old(db.Snapshot()), id, force)
  {
    DeletePreservesConsistency(db.Snapshot(), id, force);
    if id <= 0 {
      return Err(InvalidId);
    }
    if id !in db.patients.rows {
      return Err(NotFound);
    }
    var n := |AppointmentsOfPatient(db.Snapshot(), id)|;
    if n > 0 && !force {
      db.patients := Put(db.patients, id, db.patients.rows[id].(active := false));
      return Ok(Deactivated(n));
    }
    if n > 0 && force {
      return Err(HasAppointments(n));
    }
    db.patients := Remove(db.patients, id);
    r := Ok(Removed);
  }
}
