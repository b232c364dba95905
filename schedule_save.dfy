/** `createOrUpdateScheduleAction` and its schema: a staff member's weekly
    availability window, validated, checked against the member's other
    windows on the same weekday, and upserted. */
module ScheduleSave {
  import opened Wrappers
  import opened TimeOfDay
  import opened Store

  datatype ScheduleInput = ScheduleInput(
    id: Option<int>, staffId: int, dayOfWeek: int,
    startTime: string, endTime: string, available: Option<bool>)

  /** The input after `scheduleSchema.parse`. */
  datatype Validated = Validated(
    id: Option<int>, staffId: int, dayOfWeek: int, span: Span, available: bool)

  datatype SaveError =
    | StaffIdRequired      // "El ID del staff es requerido"
    | DayOutOfRange        // "El día de la semana debe ser entre 0 (Domingo) y 6 (Sábado)"
    | BadStartTime         // "Formato de hora inválido (HH:MM)"
    | BadEndTime           // "Formato de hora inválido (HH:MM)"
    | EndNotAfterStart     // "La hora de fin debe ser posterior a la hora de inicio"
    | ScheduleNotFound     // "Horario no encontrado"
    | StaffNotFound        // "El miembro del staff especificado no existe"
    | StaffInactive        // "El miembro del staff especificado está inactivo"
    | WindowOverlaps       // create: "Ya existe un horario para este día que se solapa con el horario especificado"
    | WindowOverlapsOther  // update: "El nuevo horario se solapa con otro horario existente"

  /** `scheduleSchema.parse`; a failure reports the first failing check in
      field order, the end-after-start refinement last. */
  function Validate(input: ScheduleInput): (r: Result<Validated, SaveError>)
    ensures r.Ok? <==>
              input.staffId > 0 && 0 <= input.dayOfWeek <= 6
              && IsClock(input.startTime) && IsClock(input.endTime)
              && ClockMinutes(input.startTime) < ClockMinutes(input.endTime)
    ensures input.staffId <= 0 ==> r == Err(StaffIdRequired)
    ensures input.staffId > 0 && !(0 <= input.dayOfWeek <= 6) ==> r == Err(DayOutOfRange)
    ensures !IsClock(input.startTime) || !IsClock(input.endTime) ==> r.Err?
    ensures (IsClock(input.startTime) && IsClock(input.endTime)
             && ClockMinutes(input.endTime) <= ClockMinutes(input.startTime)) ==> r.Err?
    ensures r.Ok? ==> input.staffId > 0 && 0 <= r.value.dayOfWeek <= 6
    ensures r.Ok? ==> Proper(r.value.span)
                      && ParseClock(input.startTime) == Some(r.value.span.start)
                      && ParseClock(input.endTime) == Some(r.value.span.end)
    ensures r.Ok? ==> r.value.available == (input.available.None? || input.available.value)
    ensures r.Ok? ==> r.value.id == input.id && r.value.staffId == input.staffId
                      && r.value.dayOfWeek == input.dayOfWeek
  {
    if input.staffId <= 0 then Err(StaffIdRequired)
    else if input.dayOfWeek < 0 || input.dayOfWeek > 6 then Err(DayOutOfRange)
    else if !IsClock(input.startTime) then Err(BadStartTime)
    else if !IsClock(input.endTime) then Err(BadEndTime)
    else if ClockMinutes(input.endTime) <= ClockMinutes(input.startTime) then Err(EndNotAfterStart)
    else
      var available := if input.available.Some? then input.available.value else true;
      Ok(Validated(input.id, input.staffId, input.dayOfWeek,
                   Span(ClockMinutes(input.startTime), ClockMinutes(input.endTime)), available))
  }

  /** `!!id`: an id of 0 means create. */
  predicate IsUpdate(id: Option<int>) {
    id.Some? && id.value != 0
  }

  /** The row the upsert writes. */
  function Record(v: Validated): Schedule {
    Schedule(v.staffId, v.dayOfWeek, v.span, v.available)
  }

  /** The conflict query: a window of the staff member on the weekday,
      other than `self` and whatever its `available` flag, caught by the
      three-clause filter. */
  predicate ConflictQuery(m: map<int, Schedule>, self: Option<int>, staffId: int, dayOfWeek: int, span: Span) {
    exists k :: k in m && self != Some(k) && m[k].staffId == staffId
      && m[k].dayOfWeek == dayOfWeek && QueryOverlap(m[k].span, span)
  }

  function SelfOf(v: Validated): Option<int> {
    if IsUpdate(v.id) then v.id else None
  }

  /** The conditions for a validated window to be saved, with the
      conflict rule stated as half-open overlap. */
  predicate Admissible(db: Db, v: Validated) {
    var m := db.schedules.rows;
    (IsUpdate(v.id) ==> v.id.value in m)
    && v.staffId in db.staff.rows && db.staff.rows[v.staffId].active
    && forall k :: k in m && SelfOf(v) != Some(k) && m[k].staffId == v.staffId && m[k].dayOfWeek == v.dayOfWeek
         ==> !Overlaps(m[k].span, v.span)
  }

  /** The action: the response (the saved id, or the first failed check)
      and the resulting store. */
  function Save(db: Db, input: ScheduleInput): (r: (Result<int, SaveError>, Db))
    requires TableOk(db.schedules)
  {
    match Validate(input)
    case Err(e) => (Err(e), db)
    case Ok(v) =>
      var m := db.schedules.rows;
      var update := IsUpdate(v.id);
      if update && v.id.value !in m then (Err(ScheduleNotFound), db)
      else if v.staffId !in db.staff.rows then (Err(StaffNotFound), db)
      else if !db.staff.rows[v.staffId].active then (Err(StaffInactive), db)
      else if !update && ConflictQuery(m, None, v.staffId, v.dayOfWeek, v.span) then (Err(WindowOverlaps), db)
      else if update && ConflictQuery(m, v.id, v.staffId, v.dayOfWeek, v.span) then (Err(WindowOverlapsOther), db)
      else
        var (id, t) := Upsert(db.schedules, if update then v.id.value else -1, Record(v));
        (Ok(id), db.(schedules := t))
  }

  /** A validated window is saved exactly when it is admissible. */
  lemma SaveSucceedsIffAdmissible(db: Db, input: ScheduleInput)
    requires Consistent(db)
    ensures Validate(input).Err? ==> Save(db, input).0 == Err(Validate(input).error)
    ensures Validate(input).Ok? ==> (Save(db, input).0.Ok? <==> Admissible(db, Validate(input).value))
  {
    if Validate(input).Ok? {
      var v := Validate(input).value;
      forall k | k in db.schedules.rows {
        QueryOverlapIsOverlap(db.schedules.rows[k].span, v.span);
      }
    }
  }

  /** A refused request leaves the store as it was; a saved one writes
      exactly the validated staff, weekday, times and flag, under the
      request's id on update and a fresh id on create. */
  lemma SaveWrites(db: Db, input: ScheduleInput)
    requires TableOk(db.schedules)
    ensures Save(db, input).0.Err? ==> Save(db, input).1 == db
    ensures Save(db, input).0.Ok? ==>
              var v, id, db' := Validate(input).value, Save(db, input).0.value, Save(db, input).1;
              db' == db.(schedules := db'.schedules)
              && db'.schedules.rows == db.schedules.rows[id := Record(v)]
              && (IsUpdate(v.id) ==> id == v.id.value)
              && (!IsUpdate(v.id) ==> id !in db.schedules.rows)
  {
  }

  /** Any overlapping window of the same staff member and weekday blocks
      the save, even one marked unavailable. */
  lemma UnavailableWindowsStillBlock(db: Db, input: ScheduleInput, j: int)
    requires Consistent(db) && Validate(input).Ok?
    requires var v := Validate(input).value;
             j in db.schedules.rows && SelfOf(v) != Some(j)
             && db.schedules.rows[j].staffId == v.staffId
             && db.schedules.rows[j].dayOfWeek == v.dayOfWeek
             && Overlaps(db.schedules.rows[j].span, v.span)
    ensures Save(db, input).0.Err?
  {
    SaveSucceedsIffAdmissible(db, input);
  }

  /** On update a window never conflicts with its own stored times. */
  lemma SelfExcludedOnUpdate(db: Db, k: int)
    requires Consistent(db) && k in db.schedules.rows
    ensures var w := db.schedules.rows[k];
            !ConflictQuery(db.schedules.rows, Some(k), w.staffId, w.dayOfWeek, w.span)
            && ConflictQuery(db.schedules.rows, None, w.staffId, w.dayOfWeek, w.span)
  {
    var w := db.schedules.rows[k];
    forall j | j in db.schedules.rows && j != k && db.schedules.rows[j].staffId == w.staffId
      && db.schedules.rows[j].dayOfWeek == w.dayOfWeek
      ensures !QueryOverlap(db.schedules.rows[j].span, w.span)
    {
      QueryOverlapIsOverlap(db.schedules.rows[j].span, w.span);
    }
    assert QueryOverlap(w.span, w.span);
  }

  /** Every successful save keeps the store consistent; in particular the
      windows of a staff member on a weekday stay pairwise non-overlapping. */
  lemma SavePreservesConsistency(db: Db, input: ScheduleInput)
    requires Consistent(db)
    ensures Consistent(Save(db, input).1)
  {
    if Save(db, input).0.Ok? {
      var v := Validate(input).value;
      var id := Save(db, input).0.value;
      var db' := Save(db, input).1;
      SaveWrites(db, input);
      SaveSucceedsIffAdmissible(db, input);
      var m' := db'.schedules.rows;
      forall i, j | i in m' && j in m' && i != j
        && m'[i].staffId == m'[j].staffId && m'[i].dayOfWeek == m'[j].dayOfWeek
        ensures !Overlaps(m'[i].span, m'[j].span)
      {
        if i == id {
          assert SelfOf(v) != Some(j);
        } else if j == id {
          assert SelfOf(v) != Some(i);
        }
      }
    }
  }

  /** The action on the database. */
  method CreateOrUpdateSchedule(db: Database, input: ScheduleInput) returns (r: Result<int, SaveError>)
    requires db.Valid()
    modifies db
    ensures db.Valid()
    ensures (r, db.Snapshot()) == Save(old(db.Snapshot()), input)
  {
    SavePreservesConsistency(db.Snapshot(), input);
    var validated := Validate(input);
    if validated.Err? {
      return Err(validated.error);
    }
    var v := validated.value;
    var isUpdate := IsUpdate(v.id);
    if isUpdate && v.id.value !in db.schedules.rows {
      return Err(ScheduleNotFound);
    }
    if v.staffId !in db.staff.rows {
      return Err(StaffNotFound);
    }
    if !db.staff.rows[v.staffId].active {
      return Err(StaffInactive);
    }
    if !isUpdate {
      if ConflictQuery(db.schedules.rows, None, v.staffId, v.dayOfWeek, v.span) {
        return Err(WindowOverlaps);
      }
    } else {
      if ConflictQuery(db.schedules.rows, v.id, v.staffId, v.dayOfWeek, v.span) {
        return Err(WindowOverlapsOther);
      }
    }
    var key := if isUpdate then v.id.value else -1;
    var saved := Upsert(db.schedules, key, Record(v));
    db.schedules := saved.1;
    r := Ok(saved.0);
  }
}
