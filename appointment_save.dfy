/** `createOrUpdateAppointmentAction` and its schema: validation of the
    fields, the existence and activity checks, the availability window, the
    conflict query, and the upsert into the appointment table. */
module AppointmentSave {
  import opened Wrappers
  import opened TimeOfDay
  import opened Calendar
  import opened AppointmentStatus
  import opened Store

  /** The fields the action receives. */
  datatype AppointmentInput = AppointmentInput(
    id: Option<int>, patientId: int, staffId: int, appointmentDate: Day,
    startTime: string, endTime: string, status: Option<string>,
    consultationType: Option<string>, notes: Option<string>,
    consultationRoomId: Option<int>, createdBy: Option<int>)

  /** The input after `appointmentSchema.parse`. */
  datatype Validated = Validated(
    id: Option<int>, patientId: int, staffId: int, date: Day, span: Span,
    status: Status, consultationType: Option<string>, notes: Option<string>,
    consultationRoomId: Option<int>, createdBy: Option<int>)

  datatype SaveError =
    | PatientIdRequired       // "El ID del paciente es requerido"
    | StaffIdRequired         // "El ID del staff es requerido"
    | BadStartTime            // "Formato de hora inválido (HH:MM)"
    | BadEndTime              // "Formato de hora inválido (HH:MM)"
    | BadStatus               // the enum check
    | ConsultationTypeTooLong // more than 50 characters
    | BadRoomId               // a room id that is not positive
    | BadCreatedBy            // a creator id that is not positive
    | EndNotAfterStart        // "La hora de fin debe ser posterior a la hora de inicio"
    | AppointmentNotFound     // "Cita no encontrada"
    | PatientNotFound         // "El paciente especificado no existe"
    | PatientInactive         // "El paciente especificado está inactivo"
    | StaffNotFound           // "El miembro del staff especificado no existe"
    | StaffInactive           // "El miembro del staff especificado está inactivo"
    | RoomNotFound            // "El consultorio especificado no existe"
    | RoomInactive            // "El consultorio especificado está inactivo"
    | StaffUnavailable        // "El miembro del staff no tiene disponibilidad en ese día y horario"
    | SlotTaken               // create: "El staff ya tiene una cita confirmada o pendiente en ese horario"
    | SlotOverlapsOther       // update: "La nueva hora se solapa con otra cita existente"

  /** `appointmentSchema.parse`; a failure reports the first failing check
      in field order, the end-after-start refinement last. */
  function Validate(input: AppointmentInput): (r: Result<Validated, SaveError>)
    ensures r.Ok? <==>
              input.patientId > 0 && input.staffId > 0
              && IsClock(input.startTime) && IsClock(input.endTime)
              && (input.status.None? || FromName(input.status.value).Some?)
              && (input.consultationType.None? || |input.consultationType.value| <= 50)
              && (input.consultationRoomId.None? || input.consultationRoomId.value > 0)
              && (input.createdBy.None? || input.createdBy.value > 0)
              && ClockMinutes(input.startTime) < ClockMinutes(input.endTime)
    ensures input.patientId <= 0 ==> r == Err(PatientIdRequired)
    ensures input.patientId > 0 && input.staffId <= 0 ==> r == Err(StaffIdRequired)
    ensures !IsClock(input.startTime) || !IsClock(input.endTime) ==> r.Err?
    ensures (IsClock(input.startTime) && IsClock(input.endTime)
             && ClockMinutes(input.endTime) <= ClockMinutes(input.startTime)) ==> r.Err?
    ensures r.Ok? ==> input.patientId > 0 && input.staffId > 0
    ensures r.Ok? ==> Proper(r.value.span)
                      && ParseClock(input.startTime) == Some(r.value.span.start)
                      && ParseClock(input.endTime) == Some(r.value.span.end)
    ensures r.Ok? && input.status.None? ==> r.value.status == Pending
    ensures r.Ok? && input.status.Some? ==> Name(r.value.status) == input.status.value
    ensures r.Ok? ==> r.value.consultationRoomId.Some? ==> r.value.consultationRoomId.value > 0
    ensures r.Ok? ==> r.value.id == input.id && r.value.patientId == input.patientId
                      && r.value.staffId == input.staffId && r.value.date == input.appointmentDate
                      && r.value.consultationType == input.consultationType
                      && r.value.notes == input.notes
                      && r.value.consultationRoomId == input.consultationRoomId
                      && r.value.createdBy == input.createdBy
  {
    if input.patientId <= 0 then Err(PatientIdRequired)
    else if input.staffId <= 0 then Err(StaffIdRequired)
    else if !IsClock(input.startTime) then Err(BadStartTime)
    else if !IsClock(input.endTime) then Err(BadEndTime)
    else if input.status.Some? && FromName(input.status.value).None? then Err(BadStatus)
    else if input.consultationType.Some? && |input.consultationType.value| > 50 then Err(ConsultationTypeTooLong)
    else if input.consultationRoomId.Some? && input.consultationRoomId.value <= 0 then Err(BadRoomId)
    else if input.createdBy.Some? && input.createdBy.value <= 0 then Err(BadCreatedBy)
    else if ClockMinutes(input.endTime) <= ClockMinutes(input.startTime) then Err(EndNotAfterStart)
    else
      var status := if input.status.None? then Pending else FromName(input.status.value).value;
      Ok(Validated(input.id, input.patientId, input.staffId, input.appointmentDate,
                   Span(ClockMinutes(input.startTime), ClockMinutes(input.endTime)), status,
                   input.consultationType, input.notes, input.consultationRoomId, input.createdBy))
  }

  /** `!!id`: an id of 0 means create. */
  predicate IsUpdate(id: Option<int>) {
    id.Some? && id.value != 0
  }

  /** The row the upsert writes, on create and on update alike. */
  function Record(v: Validated): Appointment {
    Appointment(v.patientId, v.staffId, v.date, v.span, v.status,
                v.consultationType, v.notes, v.consultationRoomId, v.createdBy)
  }

  /** The availability query: an available window of the staff member on
      the weekday of `date` that covers `span`. */
  predicate HasWindow(schedules: map<int, Schedule>, staffId: int, date: Day, span: Span) {
    exists k :: k in schedules && schedules[k].staffId == staffId
      && schedules[k].dayOfWeek == Weekday(date) && schedules[k].available
      && Covers(schedules[k].span, span)
  }

  /** The conflict query: a pending or confirmed appointment of the staff
      member on `date`, other than `self`, caught by the three-clause filter. */
  predicate ConflictQuery(appts: map<int, Appointment>, self: Option<int>, staffId: int, date: Day, span: Span) {
    exists k :: k in appts && self != Some(k) && appts[k].staffId == staffId
      && appts[k].date == date && Blocking(appts[k].status)
      && QueryOverlap(appts[k].span, span)
  }

  /** The row excluded from the conflict query. */
  function SelfOf(v: Validated): Option<int> {
    if IsUpdate(v.id) then v.id else None
  }

  /** The conditions for a validated request to be saved, with the
      conflict rule stated as half-open overlap. */
  predicate Admissible(db: Db, v: Validated) {
    var appts := db.appointments.rows;
    (IsUpdate(v.id) ==> v.id.value in appts)
    && v.patientId in db.patients.rows && db.patients.rows[v.patientId].active
    && v.staffId in db.staff.rows && db.staff.rows[v.staffId].active
    && (v.consultationRoomId.Some? ==>
          v.consultationRoomId.value in db.rooms.rows && db.rooms.rows[v.consultationRoomId.value].active)
    && HasWindow(db.schedules.rows, v.staffId, v.date, v.span)
    && forall k :: k in appts && SelfOf(v) != Some(k) && appts[k].staffId == v.staffId
         && appts[k].date == v.date && Blocking(appts[k].status)
         ==> !Overlaps(appts[k].span, v.span)
  }

  /** The action: the response (the saved id, or the first failed check)
      and the resulting store. */
  function Save(db: Db, input: AppointmentInput): (r: (Result<int, SaveError>, Db))
    requires TableOk(db.appointments)
  {
    match Validate(input)
    case Err(e) => (Err(e), db)
    case Ok(v) =>
      var appts := db.appointments.rows;
      var update := IsUpdate(v.id);
      if update && v.id.value !in appts then (Err(AppointmentNotFound), db)
      else if v.patientId !in db.patients.rows then (Err(PatientNotFound), db)
      else if !db.patients.rows[v.patientId].active then (Err(PatientInactive), db)
      else if v.staffId !in db.staff.rows then (Err(StaffNotFound), db)
      else if !db.staff.rows[v.staffId].active then (Err(StaffInactive), db)
      else if v.consultationRoomId.Some? && v.consultationRoomId.value !in db.rooms.rows then (Err(RoomNotFound), db)
      else if v.consultationRoomId.Some? && !db.rooms.rows[v.consultationRoomId.value].active then (Err(RoomInactive), db)
      else if !HasWindow(db.schedules.rows, v.staffId, v.date, v.span) then (Err(StaffUnavailable), db)
      else if !update && ConflictQuery(appts, None, v.staffId, v.date, v.span) then (Err(SlotTaken), db)
      else if update && ConflictQuery(appts, v.id, v.staffId, v.date, v.span) then (Err(SlotOverlapsOther), db)
      else
        var (id, t) := Upsert(db.appointments, if update then v.id.value else -1, Record(v));
        (Ok(id), db.(appointments := t))
  }

  /** With well-formed stored spans, the conflict query finds nothing
      exactly when no other blocking appointment overlaps half-open. */
  lemma ConflictQueryIsOverlap(db: Db, v: Validated)
    requires SpansWellFormed(db) && Proper(v.span)
    ensures !ConflictQuery(db.appointments.rows, SelfOf(v), v.staffId, v.date, v.span)
            <==> forall k :: k in db.appointments.rows && SelfOf(v) != Some(k)
                   && db.appointments.rows[k].staffId == v.staffId
                   && db.appointments.rows[k].date == v.date
                   && Blocking(db.appointments.rows[k].status)
                   ==> !Overlaps(db.appointments.rows[k].span, v.span)
  {
    forall k | k in db.appointments.rows {
      QueryOverlapIsOverlap(db.appointments.rows[k].span, v.span);
    }
  }

  /** A validated request is saved exactly when it is admissible. */
  lemma SaveSucceedsIffAdmissible(db: Db, input: AppointmentInput)
    requires Consistent(db)
    ensures Validate(input).Err? ==> Save(db, input).0 == Err(Validate(input).error)
    ensures Validate(input).Ok? ==> (Save(db, input).0.Ok? <==> Admissible(db, Validate(input).value))
  {
    if Validate(input).Ok? {
      var v := Validate(input).value;
      ConflictQueryIsOverlap(db, v);
    }
  }

  /** A refused request leaves the store as it was; a saved one writes the
      validated record under the request's id on update, under a fresh id
      on create, and changes no other row or table. */
  lemma SaveWrites(db: Db, input: AppointmentInput)
    requires TableOk(db.appointments)
    ensures Save(db, input).0.Err? ==> Save(db, input).1 == db
    ensures Save(db, input).0.Ok? ==>
              var v, id, db' := Validate(input).value, Save(db, input).0.value, Save(db, input).1;
              db' == db.(appointments := db'.appointments)
              && db'.appointments.rows == db.appointments.rows[id := Record(v)]
              && (IsUpdate(v.id) ==> id == v.id.value)
              && (!IsUpdate(v.id) ==> id !in db.appointments.rows)
  {
  }

  /** The stored status of the row being updated plays no part in whether
      the update is accepted: there is no server-side transition rule. */
  lemma PreviousStatusIgnored(db: Db, input: AppointmentInput, k: int, s: Status)
    requires Consistent(db) && k in db.appointments.rows
    requires input.id == Some(k)
    ensures var db2 := db.(appointments := Put(db.appointments, k, db.appointments.rows[k].(status := s)));
            Save(db2, input).0 == Save(db, input).0
  {
    var db2 := db.(appointments := Put(db.appointments, k, db.appointments.rows[k].(status := s)));
    if Validate(input).Ok? {
      var v := Validate(input).value;
      var q1 := ConflictQuery(db.appointments.rows, v.id, v.staffId, v.date, v.span);
      var q2 := ConflictQuery(db2.appointments.rows, v.id, v.staffId, v.date, v.span);
      if q1 {
        var j :| j in db.appointments.rows && v.id != Some(j) && db.appointments.rows[j].staffId == v.staffId
          && db.appointments.rows[j].date == v.date && Blocking(db.appointments.rows[j].status)
          && QueryOverlap(db.appointments.rows[j].span, v.span);
        assert db2.appointments.rows[j] == db.appointments.rows[j];
      }
      if q2 {
        var j :| j in db2.appointments.rows && v.id != Some(j) && db2.appointments.rows[j].staffId == v.staffId
          && db2.appointments.rows[j].date == v.date && Blocking(db2.appointments.rows[j].status)
          && QueryOverlap(db2.appointments.rows[j].span, v.span);
        assert db2.appointments.rows[j] == db.appointments.rows[j];
      }
    }
  }

  /** On update the row itself is excluded, so a pending or confirmed
      appointment never conflicts with its own stored times; without the
      exclusion (the create query) it would. */
  lemma SelfExcludedOnUpdate(db: Db, k: int)
    requires Consistent(db) && k in db.appointments.rows
    requires Blocking(db.appointments.rows[k].status)
    ensures var a := db.appointments.rows[k];
            !ConflictQuery(db.appointments.rows, Some(k), a.staffId, a.date, a.span)
            && ConflictQuery(db.appointments.rows, None, a.staffId, a.date, a.span)
  {
    var a := db.appointments.rows[k];
    forall j | j in db.appointments.rows && j != k && db.appointments.rows[j].staffId == a.staffId
      && db.appointments.rows[j].date == a.date && Blocking(db.appointments.rows[j].status)
      ensures !QueryOverlap(db.appointments.rows[j].span, a.span)
    {
      QueryOverlapIsOverlap(db.appointments.rows[j].span, a.span);
    }
    assert QueryOverlap(a.span, a.span);
  }

  /** Re-saving a pending or confirmed appointment with its stored staff,
      date and times succeeds when its patient, staff member and room are
      still active and a window still covers it. */
  lemma ResaveUnchangedSucceeds(db: Db, input: AppointmentInput, k: int)
    requires Consistent(db) && k in db.appointments.rows
    requires Blocking(db.appointments.rows[k].status)
    requires Validate(input).Ok? && input.id == Some(k)
    requires var v, a := Validate(input).value, db.appointments.rows[k];
             v.staffId == a.staffId && v.date == a.date && v.span == a.span
    requires var v := Validate(input).value;
             v.patientId in db.patients.rows && db.patients.rows[v.patientId].active
             && v.staffId in db.staff.rows && db.staff.rows[v.staffId].active
             && (v.consultationRoomId.Some? ==>
                   v.consultationRoomId.value in db.rooms.rows && db.rooms.rows[v.consultationRoomId.value].active)
             && HasWindow(db.schedules.rows, v.staffId, v.date, v.span)
    ensures Save(db, input).0 == Ok(k)
  {
    SelfExcludedOnUpdate(db, k);
  }

  /** The conflict query ignores the status the request asks for: an
      update is refused when another blocking appointment overlaps, even if
      the request itself sets a non-blocking status. */
  lemma RequestedStatusIgnoredByConflict(db: Db, input: AppointmentInput, j: int)
    requires Consistent(db) && Validate(input).Ok?
    requires var v := Validate(input).value;
             j in db.appointments.rows && SelfOf(v) != Some(j)
             && db.appointments.rows[j].staffId == v.staffId && db.appointments.rows[j].date == v.date
             && Blocking(db.appointments.rows[j].status)
             && Overlaps(db.appointments.rows[j].span, v.span)
    ensures Save(db, input).0.Err?
  {
    SaveSucceedsIffAdmissible(db, input);
  }

  /** Every successful save keeps the store consistent; in particular the
      pending and confirmed appointments of a staff member on a date stay
      pairwise non-overlapping. */
  lemma SavePreservesConsistency(db: Db, input: AppointmentInput)
    requires Consistent(db)
    ensures Consistent(Save(db, input).1)
  {
    if Save(db, input).0.Ok? {
      var v := Validate(input).value;
      var id := Save(db, input).0.value;
      var db' := Save(db, input).1;
      SaveWrites(db, input);
      SaveSucceedsIffAdmissible(db, input);
      var m, m' := db.appointments.rows, db'.appointments.rows;
      forall i, j | i in m' && j in m' && i != j
        && Blocking(m'[i].status) && Blocking(m'[j].status)
        && m'[i].staffId == m'[j].staffId && m'[i].date == m'[j].date
        ensures !Overlaps(m'[i].span, m'[j].span)
      {
        if i == id {
          assert SelfOf(v) != Some(j);
        } else if j == id {
          assert SelfOf(v) != Some(i);
        }
      }
    }
  }

  /** The action on the database: the checks run in order, each lookup
      returning early on failure, then one upsert. */
  method CreateOrUpdateAppointment(db: Database, input: AppointmentInput) returns (r: Result<int, SaveError>)
    requires db.Valid()
    modifies db
    ensures db.Valid()
    ensures (r, db.Snapshot()) == Save(old(db.Snapshot()), input)
  {
    SavePreservesConsistency(db.Snapshot(), input);
    var validated := Validate(input);
    if validated.Err? {
      return Err(validated.error);
    }
    var v := validated.value;
    var isUpdate := IsUpdate(v.id);
    if isUpdate && v.id.value !in db.appointments.rows {
      return Err(AppointmentNotFound);
    }
    if v.patientId !in db.patients.rows {
      return Err(PatientNotFound);
    }
    if !db.patients.rows[v.patientId].active {
      return Err(PatientInactive);
    }
    if v.staffId !in db.staff.rows {
      return Err(StaffNotFound);
    }
    if !db.staff.rows[v.staffId].active {
      return Err(StaffInactive);
    }
    if v.consultationRoomId.Some? {
      if v.consultationRoomId.value !in db.rooms.rows {
        return Err(RoomNotFound);
      }
      if !db.rooms.rows[v.consultationRoomId.value].active {
        return Err(RoomInactive);
      }
    }
    if !HasWindow(db.schedules.rows, v.staffId, v.date, v.span) {
      return Err(StaffUnavailable);
    }
    if !isUpdate {
      if ConflictQuery(db.appointments.rows, None, v.staffId, v.date, v.span) {
        return Err(SlotTaken);
      }
    } else {
      if ConflictQuery(db.appointments.rows, v.id, v.staffId, v.date, v.span) {
        return Err(SlotOverlapsOther);
      }
    }
    var key := if isUpdate then v.id.value else -1;
    var saved := Upsert(db.appointments, key, Record(v));
    db.appointments := saved.1;
    r := Ok(saved.0);
  }
}
