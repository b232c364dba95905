/** `createOrUpdateConsultationRoom` and `consultationRoomSchema`: a room
    read from a submitted form, validated, checked against the other rooms'
    codes, and upserted. */
module RoomSave {
  import opened Wrappers
  import opened Store
  import opened Pagination

  /** `rawData`: what the action reads from the form. A text field is
      `None` when the form lacks it; `toNumber` is `Number`. */
  datatype RawRoom = RawRoom(
    id: Option<int>, code: Option<string>, name: Option<string>,
    location: Option<string>, capacity: int, active: bool)

  function FromForm(form: map<string, string>, toNumber: string -> int): (raw: RawRoom)
    ensures raw.capacity == (if "capacity" in form && form["capacity"] != "" then toNumber(form["capacity"]) else 1)
    ensures raw.active <==> "active" in form && form["active"] == "true"
    ensures raw.id.Some? <==> "id" in form && form["id"] != ""
    ensures raw.code == (if "code" in form then Some(form["code"]) else None)
    ensures raw.name == (if "name" in form then Some(form["name"]) else None)
    ensures raw.location == (if "location" in form then Some(form["location"]) else None)
    ensures raw.id.Some? ==> raw.id.value == toNumber(form["id"])
  {
    RawRoom(FormNumber(form, "id", toNumber, None), FormValue(form, "code"), FormValue(form, "name"),
            FormValue(form, "location"), FormNumber(form, "capacity", toNumber, Some(1)).value,
            FormFlag(form, "active"))
  }

  datatype Validated = Validated(
    id: Option<int>, code: string, name: string, location: string, capacity: int, active: bool)

  datatype SaveError =
    | IdNotPositive             // zod's positive() message
    | CodeMissing               // zod's "expected string" message
    | CodeEmpty                 // "El código es requerido"
    | CodeTooLong               // "El código no puede exceder 20 caracteres"
    | CodeBadChars              // "El código debe contener solo letras mayúsculas, números y guiones"
    | NameMissing               // zod's "expected string" message
    | NameEmpty                 // "El nombre es requerido"
    | NameTooLong               // "El nombre no puede exceder 100 caracteres"
    | LocationMissing           // zod's "expected string" message
    | LocationEmpty             // "La ubicación es requerida"
    | LocationTooLong           // "La ubicación no puede exceder 200 caracteres"
    | CapacityNotPositive       // "La capacidad debe ser un número positivo"
    | CodeTaken(code: string)        // `Ya existe un cuarto de consulta con el código "…"`
    | CodeTakenByOther(code: string) // `Ya existe otro cuarto de consulta con el código "…"`

  /** `^[A-Z0-9-]+$` without the non-emptiness, which `min(1)` checks first. */
  predicate CodeChars(s: string) {
    forall i :: 0 <= i < |s| ==> 'A' <= s[i] <= 'Z' || '0' <= s[i] <= '9' || s[i] == '-'
  }

  /** `consultationRoomSchema.safeParse`: the first failing check in field
      order. */
  function Validate(raw: RawRoom): (r: Result<Validated, SaveError>)
    ensures r.Ok? <==>
              (raw.id.Some? ==> raw.id.value > 0)
              && raw.code.Some? && 1 <= |raw.code.value| <= 20 && CodeChars(raw.code.value)
              && raw.name.Some? && 1 <= |raw.name.value| <= 100
              && raw.location.Some? && 1 <= |raw.location.value| <= 200
              && raw.capacity > 0
    ensures r.Ok? ==>
              r.value == Validated(raw.id, raw.code.value, raw.name.value, raw.location.value,
                                   raw.capacity, raw.active)
    ensures raw.code == Some("") && (raw.id.Some? ==> raw.id.value > 0) ==> r == Err(CodeEmpty)
  {
    if raw.id.Some? && raw.id.value <= 0 then Err(IdNotPositive)
    else if raw.code.None? then Err(CodeMissing)
    else if |raw.code.value| < 1 then Err(CodeEmpty)
    else if |raw.code.value| > 20 then Err(CodeTooLong)
    else if !CodeChars(raw.code.value) then Err(CodeBadChars)
    else if raw.name.None? then Err(NameMissing)
    else if |raw.name.value| < 1 then Err(NameEmpty)
    else if |raw.name.value| > 100 then Err(NameTooLong)
    else if raw.location.None? then Err(LocationMissing)
    else if |raw.location.value| < 1 then Err(LocationEmpty)
    else if |raw.location.value| > 200 then Err(LocationTooLong)
    else if raw.capacity <= 0 then Err(CapacityNotPositive)
    else Ok(Validated(raw.id, raw.code.value, raw.name.value, raw.location.value, raw.capacity, raw.active))
  }

  /** The uniqueness query on `code`, with `NOT: { id }` on update. */
  predicate CodeQuery(m: map<int, Room>, code: string, self: Option<int>) {
    exists k :: k in m && self != Some(k) && m[k].code == code
  }

  /** The five fields `create` and `update` both write. */
  function Record(v: Validated): (room: Room) {
    Room(v.code, v.name, v.location, v.capacity, v.active)
  }

  /** The code check, then the upsert keyed by `id || 0`. */
  function Apply(db: Db, v: Validated): (r: (Result<int, SaveError>, Db))
    requires TableOk(db.rooms)
  {
    var m := db.rooms.rows;
    if v.id.None? && CodeQuery(m, v.code, None) then (Err(CodeTaken(v.code)), db)
    else if v.id.Some? && CodeQuery(m, v.code, v.id) then (Err(CodeTakenByOther(v.code)), db)
    else
      var (id, t) := Upsert(db.rooms, if v.id.Some? then v.id.value else 0, Record(v));
      (Ok(id), db.(rooms := t))
  }

  /** The action on the submitted form. */
  function Save(db: Db, form: map<string, string>, toNumber: string -> int): (r: (Result<int, SaveError>, Db))
    requires TableOk(db.rooms)
  {
    match Validate(FromForm(form, toNumber))
    case Err(e) => (Err(e), db)
    case Ok(v) => Apply(db, v)
  }

  /** An accepted code is 1 to 20 characters, each an upper-case ASCII
      letter, a digit or a hyphen; a lower-case letter is refused. */
  lemma AcceptedCodeShape(raw: RawRoom)
    requires Validate(raw).Ok?
    ensures var c := Validate(raw).value.code;
            1 <= |c| <= 20 && forall i :: 0 <= i < |c| ==> 'A' <= c[i] <= 'Z' || '0' <= c[i] <= '9' || c[i] == '-'
  {
  }

  lemma LowerCaseCodeRefused(raw: RawRoom, i: int)
    requires raw.code.Some? && 0 <= i < |raw.code.value| && 'a' <= raw.code.value[i] <= 'z'
    ensures Validate(raw).Err?
  {
  }

  /** A form without a capacity saves a room of capacity 1, and `active`
      is set exactly when the form's value is the string "true". */
  lemma FormDefaults(form: map<string, string>, toNumber: string -> int)
    requires Validate(FromForm(form, toNumber)).Ok?
    ensures var v := Validate(FromForm(form, toNumber)).value;
            ("capacity" !in form || form["capacity"] == "" ==> v.capacity == 1)
            && (v.active <==> "active" in form && form["active"] == "true")
  {
  }

  /** A refused request changes nothing. A saved one writes the five
      validated fields under the requested id when that row exists, and
      under a fresh id otherwise; no other row or table changes. */
  lemma ApplyWrites(db: Db, v: Validated)
    requires TableOk(db.rooms)
    ensures var (r, db') := Apply(db, v);
            && (r.Err? ==> db' == db)
            && (r.Ok? ==>
                  && db' == db.(rooms := db'.rooms)
                  && db'.rooms.rows == db.rooms.rows[r.value := Record(v)]
                  && (v.id.Some? && v.id.value in db.rooms.rows ==> r.value == v.id.value)
                  && (!(v.id.Some? && v.id.value in db.rooms.rows) ==> r.value !in db.rooms.rows))
  {
  }

  /** After the schema, the save goes through exactly when no other room
      holds the code; the requested id plays no part in whether it does. */
  lemma ApplySucceedsIff(db: Db, v: Validated)
    requires TableOk(db.rooms)
    ensures Apply(db, v).0.Ok? <==>
              forall k :: k in db.rooms.rows && db.rooms.rows[k].code == v.code ==> v.id == Some(k)
  {
  }

  /** An update never checks that the room exists: an id no row has makes
      the upsert create a room under a fresh id. */
  lemma UpdateOfMissingIdCreates(db: Db, v: Validated)
    requires TableOk(db.rooms) && v.id.Some? && v.id.value !in db.rooms.rows
    requires Apply(db, v).0.Ok?
    ensures Apply(db, v).0.value == db.rooms.nextId
  {
  }

  lemma ApplyPreservesConsistency(db: Db, v: Validated)
    requires Consistent(db)
    ensures Consistent(Apply(db, v).1)
  {
    var (r, db') := Apply(db, v);
    if r.Ok? {
      ApplyWrites(db, v);
      ApplySucceedsIff(db, v);
      assert db'.rooms.rows.Keys == db.rooms.rows.Keys + {r.value};
    }
  }

  lemma SavePreservesConsistency(db: Db, form: map<string, string>, toNumber: string -> int)
    requires Consistent(db)
    ensures Consistent(Save(db, form, toNumber).1)
  {
    if Validate(FromForm(form, toNumber)).Ok? {
      ApplyPreservesConsistency(db, Validate(FromForm(form, toNumber)).value);
    }
  }

  method CreateOrUpdateConsultationRoom(db: Database, form: map<string, string>, toNumber: string -> int)
    returns (r: Result<int, SaveError>)
    requires db.Valid()
    modifies db
    ensures db.Valid()
    ensures (r, db.Snapshot()) == Save(old(db.Snapshot()), form, toNumber)
  {
    var validated := Validate(FromForm(form, toNumber));
    if validated.Err? {
      return Err(validated.error);
    }
    var v := validated.value;
    ApplyPreservesConsistency(db.Snapshot(), v);
    if v.id.None? {
      if CodeQuery(db.rooms.rows, v.code, None) {
        return Err(CodeTaken(v.code));
      }
    } else {
      if CodeQuery(db.rooms.rows, v.code, v.id) {
        return Err(CodeTakenByOther(v.code));
      }
    }
    var (id, t) := Upsert(db.rooms, if v.id.Some? then v.id.value else 0, Record(v));
    db.rooms := t;
    r := Ok(id);
  }
}
