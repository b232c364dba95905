/** `createOrUpdateAdminAction` and `adminSchema`: an administrator's
    record, validated, checked against the other administrators' e-mails,
    and upserted. */
module AdminSave {
  import opened Wrappers
  import opened Text
  import opened Store
  import opened AccountFields

  datatype AdminInput = AdminInput(
    id: Option<int>, firstName: string, lastName: string, email: string,
    password: Option<string>, active: Option<bool>)

  /** The input after `adminSchema.parse`. */
  datatype Validated = Validated(
    id: Option<int>, firstName: string, lastName: string, email: string,
    password: Option<string>, active: bool)

  datatype SaveError =
    | FirstNameTooShort    // "El nombre debe tener al menos 2 caracteres"
    | FirstNameTooLong     // "El nombre no puede exceder 100 caracteres"
    | LastNameTooShort     // "El apellido debe tener al menos 2 caracteres"
    | LastNameTooLong      // "El apellido no puede exceder 100 caracteres"
    | BadEmail             // "Email inválido"
    | EmailTooLong         // "El email no puede exceder 150 caracteres"
    | PasswordTooShort     // "La contraseña debe tener al menos 6 caracteres"
    | PasswordTooLong      // "La contraseña no puede exceder 100 caracteres"
    | AdminNotFound        // "Administrador no encontrado"
    | EmailTaken           // "Ya existe un administrador con este email"
    | MissingPasswordHash  // the create is rejected by the database: "Error al procesar la solicitud..."

  /** `adminSchema.parse`: the first failing check in field order. Lengths
      are checked on the raw strings; trimming and lower-casing come after. */
  function Validate(input: AdminInput, isEmail: string -> bool): (r: Result<Validated, SaveError>)
    ensures r.Ok? <==>
              2 <= |input.firstName| <= 100 && 2 <= |input.lastName| <= 100
              && isEmail(input.email) && |input.email| <= 150
              && (input.password.Some? ==> 6 <= |input.password.value| <= 100)
    ensures |input.firstName| < 2 ==> r == Err(FirstNameTooShort)
    ensures 2 <= |input.firstName| <= 100 && 2 <= |input.lastName| <= 100 && !isEmail(input.email)
            ==> r == Err(BadEmail)
    ensures r.Ok? ==>
              var v := r.value;
              && v.firstName == Trim(input.firstName) && v.lastName == Trim(input.lastName)
              && v.email == NormalizedEmail(input.email)
              && v.active == (input.active != Some(false))
              && v.id == input.id && v.password == input.password
  {
    if |input.firstName| < 2 then Err(FirstNameTooShort)
    else if |input.firstName| > 100 then Err(FirstNameTooLong)
    else if |input.lastName| < 2 then Err(LastNameTooShort)
    else if |input.lastName| > 100 then Err(LastNameTooLong)
    else if !isEmail(input.email) then Err(BadEmail)
    else if |input.email| > 150 then Err(EmailTooLong)
    else if input.password.Some? && |input.password.value| < 6 then Err(PasswordTooShort)
    else if input.password.Some? && |input.password.value| > 100 then Err(PasswordTooLong)
    else
      var active := if input.active.Some? then input.active.value else true;
      Ok(Validated(input.id, Trim(input.firstName), Trim(input.lastName), NormalizedEmail(input.email),
                   input.password, active))
  }

  /** `!!validatedData.id`: an id of 0 means create. */
  predicate IsUpdate(id: Option<int>) {
    id.Some? && id.value != 0
  }

  /** The `findFirst` on e-mail, with `NOT: { id }` on update. */
  predicate EmailQuery(m: map<int, Admin>, email: string, self: Option<int>) {
    exists k :: k in m && self != Some(k) && m[k].email == email
  }

  function SelfOf(v: Validated): Option<int> {
    if IsUpdate(v.id) then v.id else None
  }

  function Created(v: Validated, hash: string): (a: Admin) {
    Admin(v.firstName, v.lastName, v.email, hash, v.active)
  }

  /** The `update` branch: names, e-mail and `active` are overwritten; the
      hash only when a password came. */
  function Updated(stored: Admin, v: Validated, hash: string): (a: Admin) {
    Admin(v.firstName, v.lastName, v.email, if v.password.Some? then hash else stored.passwordHash, v.active)
  }

  /** The checks after the schema, in order, then the upsert. `hash` is
      what bcrypt returns for the supplied password. */
  function Apply(db: Db, v: Validated, hash: string): (r: (Result<int, SaveError>, Db))
    requires TableOk(db.admins)
  {
    var m := db.admins.rows;
    var update := IsUpdate(v.id);
    if update && v.password.None? && v.id.value !in m then (Err(AdminNotFound), db)
    else if (!update || v.email != "") && EmailQuery(m, v.email, SelfOf(v)) then (Err(EmailTaken), db)
    else
      var key := if update then v.id.value else -1;
      if key in m then (Ok(key), db.(admins := Put(db.admins, key, Updated(m[key], v, hash))))
      else if v.password.None? then (Err(MissingPasswordHash), db)
      else (Ok(db.admins.nextId), db.(admins := Insert(db.admins, Created(v, hash))))
  }

  /** The action. */
  function Save(db: Db, input: AdminInput, isEmail: string -> bool, hash: string): (r: (Result<int, SaveError>, Db))
    requires TableOk(db.admins)
  {
    match Validate(input, isEmail)
    case Err(e) => (Err(e), db)
    case Ok(v) => Apply(db, v, hash)
  }

  /** A refused request changes nothing. A saved one changes only the
      administrators: an update rewrites the row under its id, a create adds
      a row under a fresh id. */
  lemma ApplyWrites(db: Db, v: Validated, hash: string)
    requires TableOk(db.admins)
    ensures var (r, db') := Apply(db, v, hash);
            && (r.Err? ==> db' == db)
            && (r.Ok? ==>
                  && db' == db.(admins := db'.admins)
                  && (r.value in db.admins.rows ==>
                        IsUpdate(v.id) && r.value == v.id.value
                        && db'.admins.rows == db.admins.rows[r.value := Updated(db.admins.rows[r.value], v, hash)])
                  && (r.value !in db.admins.rows ==>
                        v.password.Some? && r.value == db.admins.nextId
                        && db'.admins.rows == db.admins.rows[r.value := Created(v, hash)]))
  {
  }

  /** The stored record carries the trimmed names, the normalized e-mail,
      `active` defaulting to true, and the new hash exactly when a password
      was supplied. */
  lemma SavedRecord(db: Db, input: AdminInput, isEmail: string -> bool, hash: string)
    requires TableOk(db.admins)
    requires Save(db, input, isEmail, hash).0.Ok?
    ensures var id, db' := Save(db, input, isEmail, hash).0.value, Save(db, input, isEmail, hash).1;
            id in db'.admins.rows
            && var a := db'.admins.rows[id];
            && a.firstName == Trim(input.firstName) && a.lastName == Trim(input.lastName)
            && a.email == NormalizedEmail(input.email)
            && a.active == (input.active != Some(false))
            && (input.password.Some? ==> a.passwordHash == hash)
            && (input.password.None? ==> id in db.admins.rows && a.passwordHash == db.admins.rows[id].passwordHash)
  {
    ApplyWrites(db, Validate(input, isEmail).value, hash);
  }

  /** After the schema, the save goes through exactly when an update
      without a password names a stored administrator, no other one holds
      the e-mail, and a row that ends up created comes with a password. */
  lemma ApplySucceedsIff(db: Db, v: Validated, hash: string)
    requires TableOk(db.admins) && v.email != ""
    ensures Apply(db, v, hash).0.Ok? <==>
              && (IsUpdate(v.id) && v.password.None? ==> v.id.value in db.admins.rows)
              && (forall k :: k in db.admins.rows && db.admins.rows[k].email == v.email ==> SelfOf(v) == Some(k))
              && (!(IsUpdate(v.id) && v.id.value in db.admins.rows) ==> v.password.Some?)
  {
  }

  /** An update that supplies a password skips the existence check: with
      an id no row has, the upsert creates a new administrator under the
      next autoincrement id instead of failing. */
  lemma UpdateWithPasswordOfMissingIdCreates(db: Db, v: Validated, hash: string)
    requires TableOk(db.admins)
    requires v.password.Some? && IsUpdate(v.id) && v.id.value !in db.admins.rows
    requires Apply(db, v, hash).0.Ok?
    ensures var id := Apply(db, v, hash).0.value;
            id == db.admins.nextId && id !in db.admins.rows
            && Apply(db, v, hash).1.admins.rows == db.admins.rows[id := Created(v, hash)]
  {
    ApplyWrites(db, v, hash);
  }

  /** A create without a password never stores a row. */
  lemma CreateNeedsPassword(db: Db, input: AdminInput, isEmail: string -> bool, hash: string)
    requires TableOk(db.admins) && Validate(input, isEmail).Ok?
    requires !IsUpdate(input.id) && input.password.None?
    ensures Save(db, input, isEmail, hash).0.Err? && Save(db, input, isEmail, hash).1 == db
  {
  }

  lemma ApplyPreservesConsistency(db: Db, v: Validated, hash: string)
    requires Consistent(db) && v.email != ""
    ensures Consistent(Apply(db, v, hash).1)
  {
    var (r, db') := Apply(db, v, hash);
    if r.Ok? {
      ApplyWrites(db, v, hash);
      ApplySucceedsIff(db, v, hash);
      var id := r.value;
      assert db'.admins.rows[id].email == v.email;
      assert db'.admins.rows.Keys == db.admins.rows.Keys + {id};
    }
  }

  lemma SavePreservesConsistency(db: Db, input: AdminInput, isEmail: string -> bool, hash: string)
    requires Consistent(db) && EmailsNotBlank(isEmail)
    ensures Consistent(Save(db, input, isEmail, hash).1)
  {
    if Validate(input, isEmail).Ok? {
      ApplyPreservesConsistency(db, Validate(input, isEmail).value, hash);
    }
  }

  /** The action on the database: the schema, then the checks in order,
      each lookup returning early on failure, then one upsert. */
  method CreateOrUpdateAdmin(db: Database, input: AdminInput, isEmail: string -> bool, hash: string)
    returns (r: Result<int, SaveError>)
    requires db.Valid() && EmailsNotBlank(isEmail)
    modifies db
    ensures db.Valid()
    ensures (r, db.Snapshot()) == Save(old(db.Snapshot()), input, isEmail, hash)
  {
    var validated := Validate(input, isEmail);
    if validated.Err? {
      return Err(validated.error);
    }
    r := Write(db, validated.value, hash);
  }

  method Write(db: Database, v: Validated, hash: string) returns (r: Result<int, SaveError>)
    requires db.Valid() && v.email != ""
    modifies db
    ensures db.Valid()
    ensures (r, db.Snapshot()) == Apply(old(db.Snapshot()), v, hash)
  {
    ApplyPreservesConsistency(db.Snapshot(), v, hash);
    var isUpdate := IsUpdate(v.id);
    if isUpdate && v.password.None? && v.id.value !in db.admins.rows {
      return Err(AdminNotFound);
    }
    if !isUpdate || v.email != "" {
      if EmailQuery(db.admins.rows, v.email, SelfOf(v)) {
        return Err(EmailTaken);
      }
    }
    var key := if isUpdate then v.id.value else -1;
    if key in db.admins.rows {
      db.admins := Put(db.admins, key, Updated(db.admins.rows[key], v, hash));
      return Ok(key);
    }
    if v.password.None? {
      return Err(MissingPasswordHash);
    }
    r := Ok(db.admins.nextId);
    db.admins := Insert(db.admins, Created(v, hash));
  }
}
