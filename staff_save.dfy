/** `createOrUpdateStaffAction` and `staffSchema`: a staff member's record,
    validated, checked against the other members' e-mails, the room and the
    creating administrator, and upserted. */
module StaffSave {
  import opened Wrappers
  import opened Text
  import opened Calendar
  import opened Store
  import opened AccountFields

  /** The action's argument. `phone`, `dateOfBirth`, `consultationRoomId`
      and `createdById` are `None` when absent or null. */
  datatype StaffInput = StaffInput(
    id: Option<int>, firstName: string, lastName: string, email: string,
    password: Option<string>, phone: Option<string>, dateOfBirth: Option<Day>,
    hireDate: Option<Day>, consultationRoomId: Option<int>, active: Option<bool>,
    createdById: Option<int>)

  /** The input after `staffSchema.parse`. */
  datatype Validated = Validated(
    id: Option<int>, firstName: string, lastName: string, email: string,
    password: Option<string>, phone: Option<string>, dateOfBirth: Option<Day>,
    hireDate: Option<Day>, consultationRoomId: Option<int>, active: bool,
    createdById: Option<int>)

  datatype SaveError =
    | FirstNameTooShort    // "El nombre debe tener al menos 2 caracteres"
    | FirstNameTooLong     // "El nombre no puede exceder 100 caracteres"
    | LastNameTooShort     // "El apellido debe tener al menos 2 caracteres"
    | LastNameTooLong      // "El apellido no puede exceder 100 caracteres"
    | BadEmail             // "Email inválido"
    | EmailTooLong         // "El email no puede exceder 150 caracteres"
    | PasswordTooShort     // "La contraseña debe tener al menos 6 caracteres"
    | PasswordTooLong      // "La contraseña no puede exceder 100 caracteres"
    | PhoneTooLong         // "El teléfono no puede exceder 20 caracteres"
    | RoomIdNotPositive    // zod's positive() message
    | CreatorIdNotPositive // zod's positive() message
    | StaffNotFound        // "Miembro del staff no encontrado"
    | EmailTaken           // "Ya existe un miembro del staff con este email"
    | RoomNotFound         // "El consultorio especificado no existe"
    | RoomInactive         // "El consultorio especificado está inactivo"
    | CreatorNotFound      // "El administrador especificado no existe"
    | MissingPasswordHash  // the create is rejected by the database: "Error al procesar la solicitud..."

  /** `staffSchema.parse`: the first failing check in field order. Lengths
      are checked on the raw strings; trimming and lower-casing come after. */
  function Validate(input: StaffInput, isEmail: string -> bool): (r: Result<Validated, SaveError>)
    ensures r.Ok? <==>
              2 <= |input.firstName| <= 100 && 2 <= |input.lastName| <= 100
              && isEmail(input.email) && |input.email| <= 150
              && (input.password.Some? ==> 6 <= |input.password.value| <= 100)
              && (input.phone.Some? ==> |input.phone.value| <= 20)
              && (input.consultationRoomId.Some? ==> input.consultationRoomId.value > 0)
              && (input.createdById.Some? ==> input.createdById.value > 0)
    ensures |input.firstName| < 2 ==> r == Err(FirstNameTooShort)
    ensures 2 <= |input.firstName| <= 100 && |input.lastName| < 2 ==> r == Err(LastNameTooShort)
    ensures r.Ok? ==>
              var v := r.value;
              && v.firstName == Trim(input.firstName) && v.lastName == Trim(input.lastName)
              && v.email == NormalizedEmail(input.email)
              && v.active == (input.active != Some(false))
              && v.id == input.id && v.password == input.password && v.phone == input.phone
              && v.dateOfBirth == input.dateOfBirth && v.hireDate == input.hireDate
              && v.consultationRoomId == input.consultationRoomId && v.createdById == input.createdById
  {
    if |input.firstName| < 2 then Err(FirstNameTooShort)
    else if |input.firstName| > 100 then Err(FirstNameTooLong)
    else if |input.lastName| < 2 then Err(LastNameTooShort)
    else if |input.lastName| > 100 then Err(LastNameTooLong)
    else if !isEmail(input.email) then Err(BadEmail)
    else if |input.email| > 150 then Err(EmailTooLong)
    else if input.password.Some? && |input.password.value| < 6 then Err(PasswordTooShort)
    else if input.password.Some? && |input.password.value| > 100 then Err(PasswordTooLong)
    else if input.phone.Some? && |input.phone.value| > 20 then Err(PhoneTooLong)
    else if input.consultationRoomId.Some? && input.consultationRoomId.value <= 0 then Err(RoomIdNotPositive)
    else if input.createdById.Some? && input.createdById.value <= 0 then Err(CreatorIdNotPositive)
    else
      var active := if input.active.Some? then input.active.value else true;
      Ok(Validated(input.id, Trim(input.firstName), Trim(input.lastName), NormalizedEmail(input.email),
                   input.password, input.phone, input.dateOfBirth, input.hireDate,
                   input.consultationRoomId, active, input.createdById))
  }

  /** `!!validatedData.id`: an id of 0 means create. */
  predicate IsUpdate(id: Option<int>) {
    id.Some? && id.value != 0
  }

  /** The `findFirst` on e-mail, with `NOT: { id }` on update. */
  predicate EmailQuery(m: map<int, Staff>, email: string, self: Option<int>) {
    exists k :: k in m && self != Some(k) && m[k].email == email
  }

  function SelfOf(v: Validated): Option<int> {
    if IsUpdate(v.id) then v.id else None
  }

  /** The `create` branch of the upsert: `hireDate` falls back to the
      database default, today. */
  function Created(v: Validated, hash: string, today: Day): (s: Staff) {
    Staff(v.firstName, v.lastName, v.email, hash, v.phone, v.dateOfBirth,
          if v.hireDate.Some? then v.hireDate.value else today,
          v.consultationRoomId, v.active, v.createdById)
  }

  /** The `update` branch: every field of `dataToUpsert` is overwritten;
      the hash only when a password came, `hireDate` only when given. */
  function Updated(stored: Staff, v: Validated, hash: string): (s: Staff) {
    Staff(v.firstName, v.lastName, v.email,
          if v.password.Some? then hash else stored.passwordHash,
          v.phone, v.dateOfBirth,
          if v.hireDate.Some? then v.hireDate.value else stored.hireDate,
          v.consultationRoomId, v.active, v.createdById)
  }

  /** The checks after the schema, in order, then the upsert: the
      response (the saved id, or the first failed check) and the resulting
      store. `hash` is what bcrypt returns for the supplied password;
      `today` is the database's clock. */
  function Apply(db: Db, v: Validated, hash: string, today: Day): (r: (Result<int, SaveError>, Db))
    requires TableOk(db.staff)
  {
    var m := db.staff.rows;
    var update := IsUpdate(v.id);
    var room, creator := v.consultationRoomId, v.createdById;
    if update && v.password.None? && v.id.value !in m then (Err(StaffNotFound), db)
    else if (!update || v.email != "") && EmailQuery(m, v.email, SelfOf(v)) then (Err(EmailTaken), db)
    else if room.Some? && room.value !in db.rooms.rows then (Err(RoomNotFound), db)
    else if room.Some? && !db.rooms.rows[room.value].active then (Err(RoomInactive), db)
    else if creator.Some? && creator.value !in db.admins.rows then (Err(CreatorNotFound), db)
    else
      var key := if update then v.id.value else -1;
      if key in m then (Ok(key), db.(staff := Put(db.staff, key, Updated(m[key], v, hash))))
      else if v.password.None? then (Err(MissingPasswordHash), db)
      else (Ok(db.staff.nextId), db.(staff := Insert(db.staff, Created(v, hash, today))))
  }

  /** The action. */
  function Save(db: Db, input: StaffInput, isEmail: string -> bool, hash: string, today: Day)
    : (r: (Result<int, SaveError>, Db))
    requires TableOk(db.staff)
  {
    match Validate(input, isEmail)
    case Err(e) => (Err(e), db)
    case Ok(v) => Apply(db, v, hash, today)
  }

  /** A refused request changes nothing. A saved one changes only the staff
      table: an update rewrites the row under its id, a create adds a row
      under a fresh id. */
  lemma ApplyWrites(db: Db, v: Validated, hash: string, today: Day)
    requires TableOk(db.staff)
    ensures var (r, db') := Apply(db, v, hash, today);
            && (r.Err? ==> db' == db)
            && (r.Ok? ==>
                  && db' == db.(staff := db'.staff)
                  && (r.value in db.staff.rows ==>
                        IsUpdate(v.id) && r.value == v.id.value
                        && db'.staff.rows == db.staff.rows[r.value := Updated(db.staff.rows[r.value], v, hash)])
                  && (r.value !in db.staff.rows ==>
                        v.password.Some? && r.value == db.staff.nextId
                        && db'.staff.rows == db.staff.rows[r.value := Created(v, hash, today)]))
  {
  }

  /** The stored record carries the trimmed names, the normalized e-mail,
      `active` defaulting to true, the new hash exactly when a password was
      supplied, and a `hireDate` that changes only when one is given. */
  lemma SavedRecord(db: Db, input: StaffInput, isEmail: string -> bool, hash: string, today: Day)
    requires TableOk(db.staff)
    requires Save(db, input, isEmail, hash, today).0.Ok?
    ensures var id, db' := Save(db, input, isEmail, hash, today).0.value, Save(db, input, isEmail, hash, today).1;
            id in db'.staff.rows
            && var s := db'.staff.rows[id];
            && s.firstName == Trim(input.firstName) && s.lastName == Trim(input.lastName)
            && s.email == NormalizedEmail(input.email)
            && s.active == (input.active != Some(false))
            && (input.password.Some? ==> s.passwordHash == hash)
            && (input.password.None? ==> id in db.staff.rows && s.passwordHash == db.staff.rows[id].passwordHash)
            && (input.hireDate.Some? ==> s.hireDate == input.hireDate.value)
            && (input.hireDate.None? && id in db.staff.rows ==> s.hireDate == db.staff.rows[id].hireDate)
            && (input.hireDate.None? && id !in db.staff.rows ==> s.hireDate == today)
  {
    ApplyWrites(db, Validate(input, isEmail).value, hash, today);
  }

  /** After the schema, the save goes through exactly when an update
      without a password names a stored member, no other member holds the
      e-mail, a given room exists and is active, a given creator exists,
      and a row that ends up created comes with a password. */
  lemma ApplySucceedsIff(db: Db, v: Validated, hash: string, today: Day)
    requires TableOk(db.staff) && v.email != ""
    ensures Apply(db, v, hash, today).0.Ok? <==>
              && (IsUpdate(v.id) && v.password.None? ==> v.id.value in db.staff.rows)
              && (forall k :: k in db.staff.rows && db.staff.rows[k].email == v.email ==> SelfOf(v) == Some(k))
              && (v.consultationRoomId.Some? ==>
                    v.consultationRoomId.value in db.rooms.rows && db.rooms.rows[v.consultationRoomId.value].active)
              && (v.createdById.Some? ==> v.createdById.value in db.admins.rows)
              && (!(IsUpdate(v.id) && v.id.value in db.staff.rows) ==> v.password.Some?)
  {
  }

  /** An update that supplies a password skips the existence check: with
      an id no row has, the upsert creates a new member under the next
      autoincrement id, whatever id was asked for, instead of failing. */
  lemma UpdateWithPasswordOfMissingIdCreates(db: Db, v: Validated, hash: string, today: Day)
    requires TableOk(db.staff)
    requires v.password.Some? && IsUpdate(v.id) && v.id.value !in db.staff.rows
    requires Apply(db, v, hash, today).0.Ok?
    ensures var id := Apply(db, v, hash, today).0.value;
            id == db.staff.nextId && id !in db.staff.rows
            && Apply(db, v, hash, today).1.staff.rows == db.staff.rows[id := Created(v, hash, today)]
  {
    ApplyWrites(db, v, hash, today);
  }

  /** Two members never share an e-mail: one held by another member blocks
      the save. */
  lemma EmailOfAnotherBlocks(db: Db, input: StaffInput, isEmail: string -> bool, hash: string, today: Day, j: int)
    requires TableOk(db.staff) && EmailsNotBlank(isEmail) && Validate(input, isEmail).Ok?
    requires var v := Validate(input, isEmail).value;
             j in db.staff.rows && db.staff.rows[j].email == v.email && SelfOf(v) != Some(j)
    ensures Save(db, input, isEmail, hash, today).0.Err?
  {
    ApplySucceedsIff(db, Validate(input, isEmail).value, hash, today);
  }

  /** The length checks look at the raw names, before the trim: in an
      accepted input, any names of 2 to 100 characters are accepted too,
      whatever they trim to, and blank ones are stored empty. */
  lemma NamesCheckedBeforeTrim(input: StaffInput, isEmail: string -> bool, first: string, last: string)
    requires Validate(input, isEmail).Ok?
    requires 2 <= |first| <= 100 && 2 <= |last| <= 100
    ensures var r := Validate(input.(firstName := first, lastName := last), isEmail);
            && r.Ok? && r.value.firstName == Trim(first) && r.value.lastName == Trim(last)
            && (AllSpaces(first) ==> r.value.firstName == "")
            && (AllSpaces(last) ==> r.value.lastName == "")
  {
  }

  lemma ApplyPreservesConsistency(db: Db, v: Validated, hash: string, today: Day)
    requires Consistent(db) && v.email != ""
    ensures Consistent(Apply(db, v, hash, today).1)
  {
    var (r, db') := Apply(db, v, hash, today);
    if r.Ok? {
      ApplyWrites(db, v, hash, today);
      ApplySucceedsIff(db, v, hash, today);
      var id := r.value;
      assert db'.staff.rows[id].email == v.email;
      assert db'.staff.rows.Keys == db.staff.rows.Keys + {id};
    }
  }

  lemma SavePreservesConsistency(db: Db, input: StaffInput, isEmail: string -> bool, hash: string, today: Day)
    requires Consistent(db) && EmailsNotBlank(isEmail)
    ensures Consistent(Save(db, input, isEmail, hash, today).1)
  {
    if Validate(input, isEmail).Ok? {
      ApplyPreservesConsistency(db, Validate(input, isEmail).value, hash, today);
    }
  }

  /** The action on the database: the schema, then the checks in order,
      each lookup returning early on failure, then one upsert. */
  method CreateOrUpdateStaff(db: Database, input: StaffInput, isEmail: string -> bool, hash: string, today: Day)
    returns (r: Result<int, SaveError>)
    requires db.Valid() && EmailsNotBlank(isEmail)
    modifies db
    ensures db.Valid()
    ensures (r, db.Snapshot()) == Save(old(db.Snapshot()), input, isEmail, hash, today)
  {
    var validated := Validate(input, isEmail);
    if validated.Err? {
      return Err(validated.error);
    }
    r := Write(db, validated.value, hash, today);
  }

  method Write(db: Database, v: Validated, hash: string, today: Day) returns (r: Result<int, SaveError>)
    requires db.Valid() && v.email != ""
    modifies db
    ensures db.Valid()
    ensures (r, db.Snapshot()) == Apply(old(db.Snapshot()), v, hash, today)
  {
    ApplyPreservesConsistency(db.Snapshot(), v, hash, today);
    var isUpdate := IsUpdate(v.id);
    if isUpdate && v.password.None? && v.id.value !in db.staff.rows {
      return Err(StaffNotFound);
    }
    if !isUpdate || v.email != "" {
      if EmailQuery(db.staff.rows, v.email, SelfOf(v)) {
        return Err(EmailTaken);
      }
    }
    if v.consultationRoomId.Some? {
      if v.consultationRoomId.value !in db.rooms.rows {
        return Err(RoomNotFound);
      }
      if !db.rooms.rows[v.consultationRoomId.value].active {
        return Err(RoomInactive);
      }
    }
    if v.createdById.Some? && v.createdById.value !in db.admins.rows {
      return Err(CreatorNotFound);
    }
    var key := if isUpdate then v.id.value else -1;
    if key in db.staff.rows {
      db.staff := Put(db.staff, key, Updated(db.staff.rows[key], v, hash));
      return Ok(key);
    }
    if v.password.None? {
      return Err(MissingPasswordHash);
    }
    r := Ok(db.staff.nextId);
    db.staff := Insert(db.staff, Created(v, hash, today));
  }
}
