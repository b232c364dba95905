/** The clinic's records and the in-memory store that stands in for the
    database: one table per entity, each a map from id to record with an
    autoincrement counter, and the invariants the actions keep. */
module Store {
  import opened Wrappers
  import opened TimeOfDay
  import opened Calendar
  import opened AppointmentStatus

  datatype Admin = Admin(
    firstName: string, lastName: string, email: string,
    passwordHash: string, active: bool)

  datatype Staff = Staff(
    firstName: string, lastName: string, email: string, passwordHash: string,
    phone: Option<string>, dateOfBirth: Option<Day>, hireDate: Day,
    consultationRoomId: Option<int>, active: bool, createdById: Option<int>)

  datatype Patient = Patient(
    firstName: string, lastName: string, nuControl: string, email: string,
    registeredDate: Day, active: bool, assignedPsychologist: Option<int>)

  datatype Room = Room(
    code: string, name: string, location: string, capacity: int, active: bool)

  /** A weekly availability window of a staff member. */
  datatype Schedule = Schedule(
    staffId: int, dayOfWeek: int, span: Span, available: bool)

  datatype Appointment = Appointment(
    patientId: int, staffId: int, date: Day, span: Span, status: Status,
    consultationType: Option<string>, notes: Option<string>,
    consultationRoomId: Option<int>, createdBy: Option<int>)

  /** A table with an autoincrement key: `nextId` is the id the next
      created row receives. */
  datatype Table<T> = Table(rows: map<int, T>, nextId: int)

  predicate TableOk<T>(t: Table<T>) {
    1 <= t.nextId && forall k :: k in t.rows ==> 1 <= k < t.nextId
  }

  /** A create: the new row gets a fresh id and no other row changes. */
  function Insert<T>(t: Table<T>, v: T): (r: Table<T>)
    requires TableOk(t)
    ensures TableOk(r)
    ensures t.nextId !in t.rows && r.rows == t.rows[t.nextId := v]
  {
    Table(t.rows[t.nextId := v], t.nextId + 1)
  }

  /** An update of an existing row. */
  function Put<T>(t: Table<T>, k: int, v: T): (r: Table<T>)
    requires k in t.rows
    ensures TableOk(t) ==> TableOk(r)
    ensures r.rows.Keys == t.rows.Keys && r.rows[k] == v
    ensures forall j :: j in t.rows && j != k ==> r.rows[j] == t.rows[j]
  {
    Table(t.rows[k := v], t.nextId)
  }

  /** A delete. */
  function Remove<T>(t: Table<T>, k: int): (r: Table<T>)
    ensures TableOk(t) ==> TableOk(r)
    ensures r.rows.Keys == t.rows.Keys - {k}
    ensures forall j :: j in r.rows ==> r.rows[j] == t.rows[j]
  {
    Table(t.rows - {k}, t.nextId)
  }

  /** Prisma's `upsert` keyed by id: updates the row when the key exists,
      otherwise creates a row with a fresh id. Yields the id written. */
  function Upsert<T>(t: Table<T>, key: int, v: T): (r: (int, Table<T>))
    requires TableOk(t)
    ensures TableOk(r.1)
    ensures r.1.rows == t.rows[r.0 := v]
    ensures key in t.rows ==> r.0 == key
    ensures key !in t.rows ==> r.0 == t.nextId && r.0 !in t.rows
  {
    if key in t.rows then (key, Put(t, key, v)) else (t.nextId, Insert(t, v))
  }

  datatype Db = Db(
    admins: Table<Admin>, staff: Table<Staff>, patients: Table<Patient>,
    rooms: Table<Room>, schedules: Table<Schedule>, appointments: Table<Appointment>)

  function EmptyDb(): Db {
    Db(Table(map[], 1), Table(map[], 1), Table(map[], 1),
       Table(map[], 1), Table(map[], 1), Table(map[], 1))
  }

  predicate TablesOk(db: Db) {
    TableOk(db.admins) && TableOk(db.staff) && TableOk(db.patients)
    && TableOk(db.rooms) && TableOk(db.schedules) && TableOk(db.appointments)
  }

  /** Every stored window is a proper stretch on a weekday 0..6, every
      stored appointment a proper stretch. */
  predicate SpansWellFormed(db: Db) {
    (forall k :: k in db.schedules.rows ==>
       Proper(db.schedules.rows[k].span) && 0 <= db.schedules.rows[k].dayOfWeek <= 6)
    && (forall k :: k in db.appointments.rows ==> Proper(db.appointments.rows[k].span))
  }

  /** No two windows of the same staff member on the same weekday overlap,
      whatever their `available` flag. */
  predicate SchedulesDisjoint(m: map<int, Schedule>) {
    forall i, j :: i in m && j in m && i != j
      && m[i].staffId == m[j].staffId && m[i].dayOfWeek == m[j].dayOfWeek
      ==> !Overlaps(m[i].span, m[j].span)
  }

  /** No two pending or confirmed appointments of the same staff member on
      the same date overlap. */
  predicate AppointmentsDisjoint(m: map<int, Appointment>) {
    forall i, j :: i in m && j in m && i != j
      && Blocking(m[i].status) && Blocking(m[j].status)
      && m[i].staffId == m[j].staffId && m[i].date == m[j].date
      ==> !Overlaps(m[i].span, m[j].span)
  }

  /** Every foreign key names an existing row. */
  predicate ReferencesResolve(db: Db) {
    (forall k :: k in db.schedules.rows ==> db.schedules.rows[k].staffId in db.staff.rows)
    && (forall k :: k in db.appointments.rows ==>
          var a := db.appointments.rows[k];
          a.patientId in db.patients.rows && a.staffId in db.staff.rows
          && (a.consultationRoomId.Some? ==> a.consultationRoomId.value in db.rooms.rows))
    && (forall k :: k in db.staff.rows ==>
          var s := db.staff.rows[k];
          (s.consultationRoomId.Some? ==> s.consultationRoomId.value in db.rooms.rows)
          && (s.createdById.Some? ==> s.createdById.value in db.admins.rows))
    && (forall k :: k in db.patients.rows ==>
          var p := db.patients.rows[k];
          p.assignedPsychologist.Some? ==> p.assignedPsychologist.value in db.staff.rows)
  }

  predicate StaffEmailsUnique(m: map<int, Staff>) {
    forall i, j :: i in m && j in m && m[i].email == m[j].email ==> i == j
  }

  predicate PatientEmailsUnique(m: map<int, Patient>) {
    forall i, j :: i in m && j in m && m[i].email == m[j].email ==> i == j
  }

  predicate AdminEmailsUnique(m: map<int, Admin>) {
    forall i, j :: i in m && j in m && m[i].email == m[j].email ==> i == j
  }

  predicate RoomCodesUnique(m: map<int, Room>) {
    forall i, j :: i in m && j in m && m[i].code == m[j].code ==> i == j
  }

  /** What every action keeps. */
  predicate Consistent(db: Db) {
    TablesOk(db) && SpansWellFormed(db)
    && SchedulesDisjoint(db.schedules.rows) && AppointmentsDisjoint(db.appointments.rows)
    && ReferencesResolve(db)
    && StaffEmailsUnique(db.staff.rows) && PatientEmailsUnique(db.patients.rows)
    && AdminEmailsUnique(db.admins.rows) && RoomCodesUnique(db.rooms.rows)
  }

  lemma EmptyDbConsistent()
    ensures Consistent(EmptyDb())
  {
  }

  // The relation counts the delete actions read (`_count` in the queries).

  function SchedulesOfStaff(db: Db, staffId: int): set<int> {
    set k | k in db.schedules.rows && db.schedules.rows[k].staffId == staffId
  }

  function AppointmentsOfStaff(db: Db, staffId: int): set<int> {
    set k | k in db.appointments.rows && db.appointments.rows[k].staffId == staffId
  }

  function PatientsOfStaff(db: Db, staffId: int): set<int> {
    set k | k in db.patients.rows && db.patients.rows[k].assignedPsychologist == Some(staffId)
  }

  function AppointmentsOfPatient(db: Db, patientId: int): set<int> {
    set k | k in db.appointments.rows && db.appointments.rows[k].patientId == patientId
  }

  function StaffCreatedBy(db: Db, adminId: int): set<int> {
    set k | k in db.staff.rows && db.staff.rows[k].createdById == Some(adminId)
  }

  function StaffInRoom(db: Db, roomId: int): set<int> {
    set k | k in db.staff.rows && db.staff.rows[k].consultationRoomId == Some(roomId)
  }

  function AppointmentsInRoom(db: Db, roomId: int): set<int> {
    set k | k in db.appointments.rows && db.appointments.rows[k].consultationRoomId == Some(roomId)
  }

  /** The database. The actions read and write its tables; `Snapshot`
      gives the whole state as a value the specifications talk about. */
  class Database {
    var admins: Table<Admin>
    var staff: Table<Staff>
    var patients: Table<Patient>
    var rooms: Table<Room>
    var schedules: Table<Schedule>
    var appointments: Table<Appointment>

    function Snapshot(): Db
      reads this
    {
      Db(admins, staff, patients, rooms, schedules, appointments)
    }

    ghost predicate Valid()
      reads this
    {
      Consistent(Snapshot())
    }

    constructor ()
      ensures Valid() && Snapshot() == EmptyDb()
    {
      admins, staff, patients := Table(map[], 1), Table(map[], 1), Table(map[], 1);
      rooms, schedules, appointments := Table(map[], 1), Table(map[], 1), Table(map[], 1);
    }
  }
}
