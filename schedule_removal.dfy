/** `deleteScheduleAction`: a weekly window is removed outright, whatever
    its availability. */
module ScheduleRemoval {
  import opened Wrappers
  import opened Store

  datatype RemovalError =
    | InvalidId  // "ID inválido"
    | NotFound   // "Horario no encontrado"

  function Delete(db: Db, id: int): (r: (Result<(), RemovalError>, Db)) {
    if id <= 0 then (Err(InvalidId), db)
    else if id !in db.schedules.rows then (Err(NotFound), db)
    else (Ok(()), db.(schedules := Remove(db.schedules, id)))
  }

  /** A refusal changes nothing; a success removes exactly that window,
      available or not, and leaves every other row as it was. */
  lemma DeleteOutcome(db: Db, id: int)
    ensures var r := Delete(db, id);
            && (r.0.Err? <==> id <= 0 || id !in db.schedules.rows)
            && (r.0.Err? ==> r.1 == db)
            && (r.0.Ok? ==>
                  r.1 == db.(schedules := r.1.schedules)
                  && r.1.schedules.rows.Keys == db.schedules.rows.Keys - {id}
                  && r.1.schedules.nextId == db.schedules.nextId
                  && forall k :: k in r.1.schedules.rows ==> r.1.schedules.rows[k] == db.schedules.rows[k])
  {
  }

  lemma DeletePreservesConsistency(db: Db, id: int)
    requires Consistent(db)
    ensures Consistent(Delete(db, id).1)
  {
  }

  method DeleteSchedule(db: Database, id: int) returns (r: Result<(), RemovalError>)
    requires db.Valid()
    modifies db
    ensures db.Valid()
    ensures (r, db.Snapshot()) == Delete(old(db.Snapshot()), id)
  {
    DeletePreservesConsistency(db.Snapshot(), id);
    if id <= 0 {
      return Err(InvalidId);
    }
    if id !in db.schedules.rows {
      return Err(NotFound);
    }
    db.schedules := Remove(db.schedules, id);
    r := Ok(());
  }
}
