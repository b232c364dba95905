/** `getPaginatedAppointments`: the optional filters on patient, staff
    member, status and date range, and the requested page of the
    appointments that pass all of them. */
module AppointmentListing {
  import opened Wrappers
  import opened Calendar
  import opened AppointmentStatus
  import opened Store
  import opened Pagination

  /** The parameters as the caller passes them. */
  datatype Params = Params(
    page: Option<int>, pageSize: Option<int>,
    patientId: Option<int>, staffId: Option<int>, status: Option<string>,
    dateFrom: Option<Day>, dateTo: Option<Day>,
    sortBy: Option<string>, sortOrder: Option<string>)

  datatype SortKey = ByAppointmentDate | ByStartTime | ByStatus

  /** The parameters once the schema has accepted them. */
  datatype Query = Query(
    paging: Paging, patientId: Option<int>, staffId: Option<int>, status: Option<Status>,
    dateFrom: Option<Day>, dateTo: Option<Day>, sortBy: SortKey, sortOrder: SortOrder)

  function ParseSortKey(s: Option<string>): (r: Option<SortKey>) {
    Choose(s, ByAppointmentDate,
           [("appointmentDate", ByAppointmentDate), ("startTime", ByStartTime), ("status", ByStatus)])
  }

  /** An optional id that must be positive once given (`positive().optional()`). */
  predicate IdOk(x: Option<int>) {
    x.None? || x.value >= 0
  }

  /** The schema, fed with `x || default` / `x || undefined`, checked field
      by field in declaration order. */
  function Validate(p: Params): (r: Result<Query, ParamError>)
    ensures r.Ok? <==> ValidatePaging(p.page, p.pageSize).Ok?
                       && IdOk(p.patientId) && IdOk(p.staffId)
                       && (NonEmpty(p.status).None? || FromName(p.status.value).Some?)
                       && ParseSortKey(p.sortBy).Some? && ParseSortOrder(p.sortOrder, Asc).Some?
    ensures ValidatePaging(p.page, p.pageSize).Err? ==> r == Err(ValidatePaging(p.page, p.pageSize).error)
    ensures ValidatePaging(p.page, p.pageSize).Ok? && !IdOk(p.patientId) ==> r == Err(PatientIdNotPositive)
    ensures r.Ok? ==> r.value.paging == ValidatePaging(p.page, p.pageSize).value
    ensures r.Ok? ==> (r.value.patientId.Some? <==> p.patientId.Some? && p.patientId.value != 0)
                      && (r.value.patientId.Some? ==> r.value.patientId == p.patientId && p.patientId.value > 0)
    ensures r.Ok? ==> (r.value.staffId.Some? <==> p.staffId.Some? && p.staffId.value != 0)
                      && (r.value.staffId.Some? ==> r.value.staffId == p.staffId && p.staffId.value > 0)
    ensures r.Ok? ==> (r.value.status.Some? <==> p.status.Some? && p.status.value != "")
                      && (r.value.status.Some? ==> Name(r.value.status.value) == p.status.value)
    ensures r.Ok? ==> r.value.dateFrom == p.dateFrom && r.value.dateTo == p.dateTo
    ensures r.Ok? && (p.sortBy.None? || p.sortBy == Some("")) ==> r.value.sortBy == ByAppointmentDate
    ensures r.Ok? && (p.sortOrder.None? || p.sortOrder == Some("")) ==> r.value.sortOrder == Asc
  {
    var paging := ValidatePaging(p.page, p.pageSize);
    if paging.Err? then Err(paging.error)
    else if !IdOk(p.patientId) then Err(PatientIdNotPositive)
    else if !IdOk(p.staffId) then Err(StaffIdNotPositive)
    else
      var status := NonEmpty(p.status);
      if status.Some? && FromName(status.value).None? then Err(BadStatus)
      else
        var sortBy, sortOrder := ParseSortKey(p.sortBy), ParseSortOrder(p.sortOrder, Asc);
        if sortBy.None? then Err(BadSortBy)
        else if sortOrder.None? then Err(BadSortOrder)
        else
          Ok(Query(paging.value, NonZero(p.patientId), NonZero(p.staffId),
                   if status.Some? then FromName(status.value) else None,
                   p.dateFrom, p.dateTo, sortBy.value, sortOrder.value))
  }

  /** The appointments the listing means: those passing every supplied
      filter, with both date bounds inclusive and independent. */
  predicate Selected(q: Query, a: Appointment) {
    (q.patientId.Some? ==> a.patientId == q.patientId.value)
    && (q.staffId.Some? ==> a.staffId == q.staffId.value)
    && (q.status.Some? ==> a.status == q.status.value)
    && (q.dateFrom.Some? ==> q.dateFrom.value <= a.date)
    && (q.dateTo.Some? ==> a.date <= q.dateTo.value)
  }

  function Keep(q: Query): (keep: Row<Appointment> -> bool) {
    (x: Row<Appointment>) => Selected(q, x.record)
  }

  /** Prisma's `{ gte?, lte? }` on `appointmentDate`. */
  datatype DateRange = DateRange(gte: Option<Day>, lte: Option<Day>)

  /** The `whereConditions` object: a field is constrained only when set. */
  datatype Where = Where(
    patientId: Option<int>, staffId: Option<int>, status: Option<Status>,
    appointmentDate: Option<DateRange>)

  /** What Prisma keeps for a `where`. */
  predicate Matches(w: Where, a: Appointment) {
    (w.patientId.Some? ==> a.patientId == w.patientId.value)
    && (w.staffId.Some? ==> a.staffId == w.staffId.value)
    && (w.status.Some? ==> a.status == w.status.value)
    && (w.appointmentDate.Some? ==>
          (w.appointmentDate.value.gte.Some? ==> w.appointmentDate.value.gte.value <= a.date)
          && (w.appointmentDate.value.lte.Some? ==> a.date <= w.appointmentDate.value.lte.value))
  }

  /** Fills `whereConditions` field by field; the result keeps exactly the
      appointments passing every supplied filter. */
  method BuildWhere(q: Query) returns (w: Where)
    ensures forall a :: Matches(w, a) <==> Selected(q, a)
  {
    w := Where(None, None, None, None);
    if q.patientId.Some? {
      w := w.(patientId := q.patientId);
    }
    if q.staffId.Some? {
      w := w.(staffId := q.staffId);
    }
    if q.status.Some? {
      w := w.(status := q.status);
    }
    if q.dateFrom.Some? || q.dateTo.Some? {
      var range := DateRange(None, None);
      if q.dateFrom.Some? {
        range := range.(gte := q.dateFrom);
      }
      if q.dateTo.Some? {
        range := range.(lte := q.dateTo);
      }
      w := w.(appointmentDate := Some(range));
    }
  }

  /** The listing over the stored appointments, taken in `order`. */
  function List(order: seq<int>, rows: map<int, Appointment>, p: Params)
    : (r: Result<(seq<Row<Appointment>>, PageInfo), ParamError>)
    requires Within(order, rows)
  {
    var v := Validate(p);
    if v.Err? then Err(v.error) else Ok(Listing(order, rows, v.value.paging, Keep(v.value)))
  }

  /** A listing with accepted parameters is the requested page of the stored
      appointments the listing means, taken in the order the database returns
      them: at most `pageSize` of them, and `totalItems` counts all of them. */
  lemma ListMeaning(order: seq<int>, rows: map<int, Appointment>, p: Params)
    requires Enumerates(order, rows)
    ensures List(order, rows, p).Ok? <==> Validate(p).Ok?
    ensures List(order, rows, p).Ok? ==>
              var q, page, info := Validate(p).value, List(order, rows, p).value.0, List(order, rows, p).value.1;
              && PageOf(order, rows, q.paging, Keep(q), page)
              && |page| <= q.paging.pageSize
              && (forall x :: x in page ==> x.id in rows && rows[x.id] == x.record && Selected(q, x.record))
              && info.totalItems == |set k | k in rows && Selected(q, rows[k])|
  {
    if Validate(p).Ok? {
      var q := Validate(p).value;
      ListingMeaning(order, rows, q.paging, Keep(q));
      assert Selection(rows, Keep(q)) == set k | k in rows && Selected(q, rows[k]);
    }
  }

  /** `getPaginatedAppointments`: validates, builds the `where`, counts and
      fetches the page. */
  method GetPaginatedAppointments(db: Database, order: seq<int>, p: Params)
    returns (r: Result<(seq<Row<Appointment>>, PageInfo), ParamError>)
    requires Within(order, db.appointments.rows)
    ensures r == List(order, db.appointments.rows, p)
  {
    var v := Validate(p);
    if v.Err? {
      return Err(v.error);
    }
    var q := v.value;
    var w := BuildWhere(q);
    var keep := (x: Row<Appointment>) => Matches(w, x.record);
    ListingExtensional(order, db.appointments.rows, q.paging, keep, Keep(q));
    r := Ok(Listing(order, db.appointments.rows, q.paging, keep));
  }
}
