/** `createOrUpdatePatientAction` and `patientSchema`: a patient's e-mail,
    registration date, `active` flag and assigned psychologist, validated,
    checked and upserted. The schema has no name or control-number fields,
    so those columns are never written by this action. */
module PatientSave {
  import opened Wrappers
  import opened Calendar
  import opened Store
  import opened AccountFields

  /** `assignedPsychologist` is `None` when absent or null. */
  datatype PatientInput = PatientInput(
    id: Option<int>, email: string, registeredDate: Option<Day>,
    active: Option<bool>, assignedPsychologist: Option<int>)

  /** The input after `patientSchema.parse`. */
  datatype Validated = Validated(
    id: Option<int>, email: string, registeredDate: Option<Day>,
    active: bool, assignedPsychologist: Option<int>)

  datatype SaveError =
    | BadEmail                     // "Email inválido"
    | EmailTooLong                 // "El email no puede exceder 150 caracteres"
    | PsychologistIdNotPositive    // zod's positive() message
    | PatientNotFound              // "Paciente no encontrado"
    | EmailTaken                   // "Ya existe un paciente con este email"
    | PsychologistNotFound         // "El psicólogo especificado no existe"
    | PsychologistInactive         // "El psicólogo especificado está inactivo"

  /** `patientSchema.parse`: the first failing check in field order. */
  function Validate(input: PatientInput, isEmail: string -> bool): (r: Result<Validated, SaveError>)
    ensures r.Ok? <==>
              isEmail(input.email) && |input.email| <= 150
              && (input.assignedPsychologist.Some? ==> input.assignedPsychologist.value > 0)
    ensures !isEmail(input.email) ==> r == Err(BadEmail)
    ensures r.Ok? ==>
              var v := r.value;
              && v.email == NormalizedEmail(input.email)
              && v.active == (input.active != Some(false))
              && v.id == input.id && v.registeredDate == input.registeredDate
              && v.assignedPsychologist == input.assignedPsychologist
  {
    if !isEmail(input.email) then Err(BadEmail)
    else if |input.email| > 150 then Err(EmailTooLong)
    else if input.assignedPsychologist.Some? && input.assignedPsychologist.value <= 0 then Err(PsychologistIdNotPositive)
    else
      var active := if input.active.Some? then input.active.value else true;
      Ok(Validated(input.id, NormalizedEmail(input.email), input.registeredDate, active, input.assignedPsychologist))
  }

  /** `!!validatedData.id`: an id of 0 means create. */
  predicate IsUpdate(id: Option<int>) {
    id.Some? && id.value != 0
  }

  /** The `findFirst` on e-mail, with `NOT: { id }` on update. */
  predicate EmailQuery(m: map<int, Patient>, email: string, self: Option<int>) {
    exists k :: k in m && self != Some(k) && m[k].email == email
  }

  function SelfOf(v: Validated): Option<int> {
    if IsUpdate(v.id) then v.id else None
  }

  /** The `create` branch: the columns the schema does not carry are empty,
      and `registeredDate` falls back to the database default, today. */
  function Created(v: Validated, today: Day): (p: Patient) {
    Patient("", "", "", v.email, if v.registeredDate.Some? then v.registeredDate.value else today,
            v.active, v.assignedPsychologist)
  }

  /** The `update` branch: e-mail, `active` and the psychologist are
      overwritten, `registeredDate` only when given; names and control
      number stay. */
  function Updated(stored: Patient, v: Validated): (p: Patient) {
    stored.(email := v.email, active := v.active, assignedPsychologist := v.assignedPsychologist,
            registeredDate := if v.registeredDate.Some? then v.registeredDate.value else stored.registeredDate)
  }

  /** The checks after the schema, in order, then the upsert. `today` is
      the database's clock. */
  function Apply(db: Db, v: Validated, today: Day): (r: (Result<int, SaveError>, Db))
    requires TableOk(db.patients)
  {
    var m := db.patients.rows;
    var update := IsUpdate(v.id);
    var psy := v.assignedPsychologist;
    if update && v.id.value !in m then (Err(PatientNotFound), db)
    else if (!update || v.email != "") && EmailQuery(m, v.email, SelfOf(v)) then (Err(EmailTaken), db)
    else if psy.Some? && psy.value !in db.staff.rows then (Err(PsychologistNotFound), db)
    else if psy.Some? && !db.staff.rows[psy.value].active then (Err(PsychologistInactive), db)
    else
      var key := if update then v.id.value else -1;
      if key in m then (Ok(key), db.(patients := Put(db.patients, key, Updated(m[key], v))))
      else (Ok(db.patients.nextId), db.(patients := Insert(db.patients, Created(v, today))))
  }

  /** The action. */
  function Save(db: Db, input: PatientInput, isEmail: string -> bool, today: Day): (r: (Result<int, SaveError>, Db))
    requires TableOk(db.patients)
  {
    match Validate(input, isEmail)
    case Err(e) => (Err(e), db)
    case Ok(v) => Apply(db, v, today)
  }

  /** A refused request changes nothing. A saved update rewrites the row
      under its own id; a saved create adds a row under a fresh id. No
      other table changes. */
  lemma ApplyWrites(db: Db, v: Validated, today: Day)
    requires TableOk(db.patients)
    ensures var (r, db') := Apply(db, v, today);
            && (r.Err? ==> db' == db)
            && (r.Ok? ==>
                  && db' == db.(patients := db'.patients)
                  && (IsUpdate(v.id) ==>
                        r.value == v.id.value && r.value in db.patients.rows
                        && db'.patients.rows == db.patients.rows[r.value := Updated(db.patients.rows[r.value], v)])
                  && (!IsUpdate(v.id) ==>
                        r.value == db.patients.nextId && r.value !in db.patients.rows
                        && db'.patients.rows == db.patients.rows[r.value := Created(v, today)]))
  {
  }

  /** The stored record carries the normalized e-mail, `active` defaulting
      to true and the psychologist defaulting to none; an update keeps the
      names, the control number and, unless one is given, the registration
      date. */
  lemma SavedRecord(db: Db, input: PatientInput, isEmail: string -> bool, today: Day)
    requires TableOk(db.patients)
    requires Save(db, input, isEmail, today).0.Ok?
    ensures var id, db' := Save(db, input, isEmail, today).0.value, Save(db, input, isEmail, today).1;
            id in db'.patients.rows
            && var p := db'.patients.rows[id];
            && p.email == NormalizedEmail(input.email)
            && p.active == (input.active != Some(false))
            && p.assignedPsychologist == input.assignedPsychologist
            && (input.registeredDate.Some? ==> p.registeredDate == input.registeredDate.value)
            && (IsUpdate(input.id) ==>
                  var q := db.patients.rows[id];
                  p.firstName == q.firstName && p.lastName == q.lastName && p.nuControl == q.nuControl
                  && (input.registeredDate.None? ==> p.registeredDate == q.registeredDate))
            && (!IsUpdate(input.id) && input.registeredDate.None? ==> p.registeredDate == today)
  {
    ApplyWrites(db, Validate(input, isEmail).value, today);
  }

  /** After the schema, the save goes through exactly when an update names
      a stored patient, no other patient holds the e-mail, and a given
      psychologist exists and is active. */
  lemma ApplySucceedsIff(db: Db, v: Validated, today: Day)
    requires TableOk(db.patients) && v.email != ""
    ensures Apply(db, v, today).0.Ok? <==>
              && (IsUpdate(v.id) ==> v.id.value in db.patients.rows)
              && (forall k :: k in db.patients.rows && db.patients.rows[k].email == v.email ==> SelfOf(v) == Some(k))
              && (v.assignedPsychologist.Some? ==>
                    v.assignedPsychologist.value in db.staff.rows && db.staff.rows[v.assignedPsychologist.value].active)
  {
  }

  /** Re-saving a patient with its own stored e-mail never collides with
      itself. */
  lemma OwnEmailAccepted(db: Db, v: Validated, today: Day)
    requires Consistent(db) && IsUpdate(v.id) && v.id.value in db.patients.rows
    requires v.email == db.patients.rows[v.id.value].email
    ensures !EmailQuery(db.patients.rows, v.email, SelfOf(v))
  {
  }

  lemma ApplyPreservesConsistency(db: Db, v: Validated, today: Day)
    requires Consistent(db) && v.email != ""
    ensures Consistent(Apply(db, v, today).1)
  {
    var (r, db') := Apply(db, v, today);
    if r.Ok? {
      ApplyWrites(db, v, today);
      ApplySucceedsIff(db, v, today);
      assert db'.patients.rows[r.value].email == v.email;
      assert db'.patients.rows.Keys == db.patients.rows.Keys + {r.value};
    }
  }

  lemma SavePreservesConsistency(db: Db, input: PatientInput, isEmail: string -> bool, today: Day)
    requires Consistent(db) && EmailsNotBlank(isEmail)
    ensures Consistent(Save(db, input, isEmail, today).1)
  {
    if Validate(input, isEmail).Ok? {
      ApplyPreservesConsistency(db, Validate(input, isEmail).value, today);
    }
  }

  /** The action on the database: the schema, then the checks in order,
      each lookup returning early on failure, then one upsert. */
  method CreateOrUpdatePatient(db: Database, input: PatientInput, isEmail: string -> bool, today: Day)
    returns (r: Result<int, SaveError>)
    requires db.Valid() && EmailsNotBlank(isEmail)
    modifies db
    ensures db.Valid()
    ensures (r, db.Snapshot()) == Save(old(db.Snapshot()), input, isEmail, today)
  {
    var validated := Validate(input, isEmail);
    if validated.Err? {
      return Err(validated.error);
    }
    r := Write(db, validated.value, today);
  }

  method Write(db: Database, v: Validated, today: Day) returns (r: Result<int, SaveError>)
    requires db.Valid() && v.email != ""
    modifies db
    ensures db.Valid()
    ensures (r, db.Snapshot()) == Apply(old(db.Snapshot()), v, today)
  {
    ApplyPreservesConsistency(db.Snapshot(), v, today);
    var isUpdate := IsUpdate(v.id);
    if isUpdate && v.id.value !in db.patients.rows {
      return Err(PatientNotFound);
    }
    if !isUpdate || v.email != "" {
      if EmailQuery(db.patients.rows, v.email, SelfOf(v)) {
        return Err(EmailTaken);
      }
    }
    if v.assignedPsychologist.Some? {
      if v.assignedPsychologist.value !in db.staff.rows {
        return Err(PsychologistNotFound);
      }
      if !db.staff.rows[v.assignedPsychologist.value].active {
        return Err(PsychologistInactive);
      }
    }
    var key := if isUpdate then v.id.value else -1;
    if key in db.patients.rows {
      db.patients := Put(db.patients, key, Updated(db.patients.rows[key], v));
      return Ok(key);
    }
    r := Ok(db.patients.nextId);
    db.patients := Insert(db.patients, Created(v, today));
  }
}
