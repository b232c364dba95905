/** `deleteAdminAction`: an administrator who created staff members is only
    deactivated, or refused when a permanent delete is forced; one who
    created none is removed. */
module AdminRemoval {
  import opened Wrappers
  import opened Store

  datatype Outcome =
    | Deactivated(createdStaff: nat)  // deletionType "soft"
    | Removed                         // deletionType "hard"

  datatype RemovalError =
    | InvalidId                       // "ID inválido"
    | NotFound                        // "Administrador no encontrado"
    | HasCreatedStaff(createdStaff: nat)  // "No se puede eliminar permanentemente ..."

  /** Some stored staff member was created by the administrator. */
  predicate Referenced(db: Db, id: int) {
    exists k :: k in db.staff.rows && db.staff.rows[k].createdById == Some(id)
  }

  lemma CountMeansReferences(db: Db, id: int)
    ensures |StaffCreatedBy(db, id)| > 0 <==> Referenced(db, id)
  {
    var s := StaffCreatedBy(db, id);
    if !Referenced(db, id) {
      assert forall k :: k !in s;
      assert s == {};
    } else {
      var k :| k in db.staff.rows && db.staff.rows[k].createdById == Some(id);
      assert k in StaffCreatedBy(db, id);
    }
  }

  function Delete(db: Db, id: int, force: bool): (r: (Result<Outcome, RemovalError>, Db)) {
    if id <= 0 then (Err(InvalidId), db)
    else if id !in db.admins.rows then (Err(NotFound), db)
    else
      var n := |StaffCreatedBy(db, id)|;
      if n > 0 && !force then
        (Ok(Deactivated(n)), db.(admins := Put(db.admins, id, db.admins.rows[id].(active := false))))
      else if n > 0 then (Err(HasCreatedStaff(n)), db)
      else (Ok(Removed), db.(admins := Remove(db.admins, id)))
  }

  /** The three outcomes: a refusal changes nothing; a deactivation keeps
      the record and clears only `active`; a removal, whatever the force
      flag, happens exactly when the administrator created no staff. */
  lemma DeleteOutcome(db: Db, id: int, force: bool)
    ensures var r := Delete(db, id, force);
            && (r.0.Err? <==> id <= 0 || id !in db.admins.rows || (Referenced(db, id) && force))
            && (r.0.Err? ==> r.1 == db)
            && (r.0 == Ok(Removed) <==> id > 0 && id in db.admins.rows && !Referenced(db, id))
            && (r.0 == Ok(Removed) ==> r.1 == db.(admins := Remove(db.admins, id)))
            && (r.0.Ok? && r.0.value.Deactivated? ==>
                  id in db.admins.rows && !force && Referenced(db, id)
                  && r.0.value.createdStaff == |StaffCreatedBy(db, id)|
                  && r.1 == db.(admins := Put(db.admins, id, db.admins.rows[id].(active := false))))
  {
    CountMeansReferences(db, id);
  }

  lemma DeletePreservesConsistency(db: Db, id: int, force: bool)
    requires Consistent(db)
    ensures Consistent(Delete(db, id, force).1)
  {
    CountMeansReferences(db, id);
  }

  method DeleteAdmin(db: Database, id: int, force: bool) returns (r: Result<Outcome, RemovalError>)
    requires db.Valid()
    modifies db
    ensures db.Valid()
    ensures (r, db.Snapshot()) == Delete(old(db.Snapshot()), id, force)
  {
    DeletePreservesConsistency(db.Snapshot(), id, force);
    if id <= 0 {
      return Err(InvalidId);
    }
    if id !in db.admins.rows {
      return Err(NotFound);
    }
    var n := |StaffCreatedBy(db.Snapshot(), id)|;
    if n > 0 && !force {
      db.admins := Put(db.admins, id, db.admins.rows[id].(active := false));
      return Ok(Deactivated(n));
    }
    if n > 0 && force {
      return Err(HasCreatedStaff(n));
    }
    db.admins := Remove(db.admins, id);
    r := Ok(Removed);
  }
}
