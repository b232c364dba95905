/** `getPaginatedSchedules`, `getDayName` and `getSchedulesByStaff`: the
    listing of weekly windows filtered by staff member, weekday and
    availability, and one staff member's windows grouped by weekday. */
module ScheduleListing {
  import opened Wrappers
  import opened Store
  import opened Pagination

  datatype Params = Params(
    page: Option<int>, pageSize: Option<int>, staffId: Option<int>, dayOfWeek: Option<int>,
    availableOnly: Option<bool>, sortBy: Option<string>, sortOrder: Option<string>)

  datatype SortKey = ByDayOfWeek | ByStartTime | ByEndTime

  datatype Query = Query(
    paging: Paging, staffId: Option<int>, dayOfWeek: Option<int>, availableOnly: bool,
    sortBy: SortKey, sortOrder: SortOrder)

  function ParseSortKey(s: Option<string>): (r: Option<SortKey>) {
    Choose(s, ByDayOfWeek, [("dayOfWeek", ByDayOfWeek), ("startTime", ByStartTime), ("endTime", ByEndTime)])
  }

  /** The schema. The staff id goes through `|| undefined`, so 0 means no
      filter; the weekday is passed on whenever it is defined, so 0
      (Sunday) is a filter. */
  function Validate(p: Params): (r: Result<Query, ParamError>)
    ensures r.Ok? <==> ValidatePaging(p.page, p.pageSize).Ok?
                       && (p.staffId.None? || p.staffId.value >= 0)
                       && (p.dayOfWeek.None? || 0 <= p.dayOfWeek.value <= 6)
                       && ParseSortKey(p.sortBy).Some? && ParseSortOrder(p.sortOrder, Asc).Some?
    ensures r.Ok? ==> r.value.paging == ValidatePaging(p.page, p.pageSize).value
    ensures r.Ok? ==> (r.value.staffId.Some? <==> p.staffId.Some? && p.staffId.value != 0)
                      && (r.value.staffId.Some? ==> r.value.staffId == p.staffId && p.staffId.value > 0)
    ensures r.Ok? ==> r.value.dayOfWeek == p.dayOfWeek
    ensures r.Ok? ==> (r.value.availableOnly <==> p.availableOnly == Some(true))
    ensures r.Ok? && (p.sortBy.None? || p.sortBy == Some("")) ==> r.value.sortBy == ByDayOfWeek
    ensures r.Ok? && (p.sortOrder.None? || p.sortOrder == Some("")) ==> r.value.sortOrder == Asc
  {
    var paging := ValidatePaging(p.page, p.pageSize);
    if paging.Err? then Err(paging.error)
    else if p.staffId.Some? && p.staffId.value < 0 then Err(StaffIdNotPositive)
    else if p.dayOfWeek.Some? && !(0 <= p.dayOfWeek.value <= 6) then Err(DayOutOfRange)
    else
      var sortBy, sortOrder := ParseSortKey(p.sortBy), ParseSortOrder(p.sortOrder, Asc);
      if sortBy.None? then Err(BadSortBy)
      else if sortOrder.None? then Err(BadSortOrder)
      else
        Ok(Query(paging.value, NonZero(p.staffId), p.dayOfWeek, p.availableOnly == Some(true),
                 sortBy.value, sortOrder.value))
  }

  /** The windows the listing means. Without `availableOnly` the
      availability of a window does not matter. */
  predicate Selected(q: Query, s: Schedule) {
    (q.staffId.Some? ==> s.staffId == q.staffId.value)
    && (q.dayOfWeek.Some? ==> s.dayOfWeek == q.dayOfWeek.value)
    && (q.availableOnly ==> s.available)
  }

  function Keep(q: Query): (keep: Row<Schedule> -> bool) {
    (x: Row<Schedule>) => Selected(q, x.record)
  }

  datatype Where = Where(staffId: Option<int>, dayOfWeek: Option<int>, available: Option<bool>)

  predicate Matches(w: Where, s: Schedule) {
    (w.staffId.Some? ==> s.staffId == w.staffId.value)
    && (w.dayOfWeek.Some? ==> s.dayOfWeek == w.dayOfWeek.value)
    && (w.available.Some? ==> s.available == w.available.value)
  }

  /** Fills `whereConditions` field by field; the result keeps exactly the
      windows the listing means. */
  method BuildWhere(q: Query) returns (w: Where)
    ensures forall s :: Matches(w, s) <==> Selected(q, s)
  {
    w := Where(None, None, None);
    if q.staffId.Some? {
      w := w.(staffId := q.staffId);
    }
    if q.dayOfWeek.Some? {
      w := w.(dayOfWeek := q.dayOfWeek);
    }
    if q.availableOnly {
      w := w.(available := Some(true));
    }
  }

  function List(order: seq<int>, rows: map<int, Schedule>, p: Params)
    : (r: Result<(seq<Row<Schedule>>, PageInfo), ParamError>)
    requires Within(order, rows)
  {
    var v := Validate(p);
    if v.Err? then Err(v.error) else Ok(Listing(order, rows, v.value.paging, Keep(v.value)))
  }

  /** A listing with accepted parameters is the requested page of the stored
      windows the listing means, taken in the order the database returns them:
      at most `pageSize` of them, and `totalItems` counts all of them. */
  lemma ListMeaning(order: seq<int>, rows: map<int, Schedule>, p: Params)
    requires Enumerates(order, rows)
    ensures List(order, rows, p).Ok? <==> Validate(p).Ok?
    ensures List(order, rows, p).Ok? ==>
              var q, page, info := Validate(p).value, List(order, rows, p).value.0, List(order, rows, p).value.1;
              && PageOf(order, rows, q.paging, Keep(q), page)
              && |page| <= q.paging.pageSize
              && (forall x :: x in page ==> x.id in rows && rows[x.id] == x.record && Selected(q, x.record))
              && info.totalItems == |set k | k in rows && Selected(q, rows[k])|
  {
    if Validate(p).Ok? {
      var q := Validate(p).value;
      ListingMeaning(order, rows, q.paging, Keep(q));
      assert Selection(rows, Keep(q)) == set k | k in rows && Selected(q, rows[k]);
    }
  }

  /** Asking for Sunday lists Sunday windows only. */
  lemma SundayIsAFilter(order: seq<int>, rows: map<int, Schedule>, p: Params)
    requires Enumerates(order, rows)
    requires p.dayOfWeek == Some(0) && List(order, rows, p).Ok?
    ensures forall x :: x in List(order, rows, p).value.0 ==> x.record.dayOfWeek == 0
  {
    ListMeaning(order, rows, p);
  }

  method GetPaginatedSchedules(db: Database, order: seq<int>, p: Params)
    returns (r: Result<(seq<Row<Schedule>>, PageInfo), ParamError>)
    requires Within(order, db.schedules.rows)
    ensures r == List(order, db.schedules.rows, p)
  {
    var v := Validate(p);
    if v.Err? {
      return Err(v.error);
    }
    var q := v.value;
    var w := BuildWhere(q);
    var keep := (x: Row<Schedule>) => Matches(w, x.record);
    ListingExtensional(order, db.schedules.rows, q.paging, keep, Keep(q));
    r := Ok(Listing(order, db.schedules.rows, q.paging, keep));
  }

  const DayNames: seq<string> := ["Domingo", "Lunes", "Martes", "Miércoles", "Jueves", "Viernes", "Sábado"]

  /** `getDayName`: the Spanish name of a weekday, Sunday being 0. */
  function DayName(d: int): (r: string) {
    if 0 <= d < |DayNames| then DayNames[d] else "Desconocido"
  }

  /** Days 0..6 have seven different names, none of them "Desconocido",
      which every other number gets. */
  lemma DayNameMeaning(d: int, e: int)
    ensures DayName(d) == "Desconocido" <==> !(0 <= d <= 6)
    ensures 0 <= d <= 6 && 0 <= e <= 6 && DayName(d) == DayName(e) ==> d == e
    ensures DayName(0) == "Domingo" && DayName(6) == "Sábado"
  {
    if 0 <= d <= 6 && 0 <= e <= 6 && d != e {
      assert DayNames[d][0] != DayNames[e][0] || DayNames[d][1] != DayNames[e][1];
    }
    if 0 <= d <= 6 {
      assert DayNames[d][0] != 'D' || DayNames[d][1] != 'e';
    }
  }

  /** The group of one weekday in `getSchedulesByStaff`. */
  datatype DayGroup = DayGroup(dayOfWeek: int, dayName: string, schedules: seq<Row<Schedule>>)

  /** `schedules.filter(s => s.dayOfWeek === day)`: the rows of weekday
      `d`, in their order. */
  function DayRows(rows: seq<Row<Schedule>>, d: int): (r: seq<Row<Schedule>>)
    ensures forall y :: y in r <==> y in rows && y.record.dayOfWeek == d
  {
    if rows == [] then []
    else
      var rest := DayRows(rows[1..], d);
      assert forall y :: y in rows <==> y == rows[0] || y in rows[1..];
      (if rows[0].record.dayOfWeek == d then [rows[0]] else []) + rest
  }

  /** `Array.from({ length: 7 }, ...)`: one group per weekday, Sunday
      first, empty ones included. */
  function AllDays(rows: seq<Row<Schedule>>): (r: seq<DayGroup>)
    ensures |r| == 7
    ensures forall d :: 0 <= d < |r| ==> r[d] == DayGroup(d, DayName(d), DayRows(rows, d))
  {
    seq(7, d requires 0 <= d < 7 => DayGroup(d, DayName(d), DayRows(rows, d)))
  }

  /** `.filter(group => group.schedules.length > 0)`. */
  function NonEmptyGroups(groups: seq<DayGroup>): (r: seq<DayGroup>)
    ensures forall g :: g in r <==> g in groups && g.schedules != []
  {
    if groups == [] then []
    else
      var rest := NonEmptyGroups(groups[1..]);
      assert forall g :: g in groups <==> g == groups[0] || g in groups[1..];
      (if groups[0].schedules != [] then [groups[0]] else []) + rest
  }

  predicate Ascending(groups: seq<DayGroup>) {
    forall i, j :: 0 <= i < j < |groups| ==> groups[i].dayOfWeek < groups[j].dayOfWeek
  }

  /** Dropping groups keeps the others in their order. */
  lemma {:induction false} NonEmptyGroupsAscending(groups: seq<DayGroup>)
    requires Ascending(groups)
    ensures Ascending(NonEmptyGroups(groups))
  {
    if groups != [] {
      var tail := groups[1..];
      assert Ascending(tail) by {
        forall i, j | 0 <= i < j < |tail| ensures tail[i].dayOfWeek < tail[j].dayOfWeek {
          assert tail[i] == groups[i + 1] && tail[j] == groups[j + 1];
        }
      }
      NonEmptyGroupsAscending(tail);
      var rest := NonEmptyGroups(tail);
      forall g | g in rest ensures groups[0].dayOfWeek < g.dayOfWeek {
        var j :| 0 <= j < |tail| && tail[j] == g;
        assert tail[j] == groups[j + 1];
      }
      if groups[0].schedules != [] {
        var r := [groups[0]] + rest;
        forall i, j | 0 <= i < j < |r| ensures r[i].dayOfWeek < r[j].dayOfWeek {
          assert r[j] == rest[j - 1];
          if i > 0 {
            assert r[i] == rest[i - 1];
          }
        }
      }
    }
  }

  /** The day grouping of `getSchedulesByStaff`. */
  function GroupByDay(rows: seq<Row<Schedule>>): (r: seq<DayGroup>) {
    NonEmptyGroups(AllDays(rows))
  }

  /** The groups come in ascending weekday order, each named by its
      weekday, holding exactly that weekday's rows, and none empty. */
  lemma GroupByDayShape(rows: seq<Row<Schedule>>)
    ensures forall g :: g in GroupByDay(rows) ==>
              0 <= g.dayOfWeek <= 6 && g.dayName == DayName(g.dayOfWeek)
              && g.schedules == DayRows(rows, g.dayOfWeek) && g.schedules != []
    ensures Ascending(GroupByDay(rows))
  {
    var all := AllDays(rows);
    forall g | g in GroupByDay(rows)
      ensures 0 <= g.dayOfWeek <= 6 && g.dayName == DayName(g.dayOfWeek)
              && g.schedules == DayRows(rows, g.dayOfWeek)
    {
      var d :| 0 <= d < |all| && all[d] == g;
    }
    NonEmptyGroupsAscending(all);
  }

  /** The grouping invents nothing: every row of a group is one of the
      rows and has the group's weekday. */
  lemma GroupRowsBelong(rows: seq<Row<Schedule>>)
    ensures forall g, y :: g in GroupByDay(rows) && y in g.schedules ==>
              y in rows && y.record.dayOfWeek == g.dayOfWeek
  {
    GroupByDayShape(rows);
  }

  /** The grouping loses nothing: a row with a weekday 0..6 is in the group
      of its weekday. */
  lemma GroupHoldsRow(rows: seq<Row<Schedule>>, x: Row<Schedule>)
    requires x in rows && 0 <= x.record.dayOfWeek <= 6
    ensures exists g :: g in GroupByDay(rows) && g.dayOfWeek == x.record.dayOfWeek && x in g.schedules
  {
    var g := AllDays(rows)[x.record.dayOfWeek];
    assert x in g.schedules;
    assert g in AllDays(rows);
  }

  /** The staff member's identity as `getSchedulesByStaff` returns it. */
  datatype StaffSummary = StaffSummary(id: int, firstName: string, lastName: string, email: string)

  datatype ByStaffError = StaffNotFound  // "Miembro del staff no encontrado"

  /** The windows of one staff member, available ones only when asked. */
  function OfStaff(staffId: int, availableOnly: bool): (keep: Row<Schedule> -> bool) {
    (x: Row<Schedule>) => x.record.staffId == staffId && (availableOnly ==> x.record.available)
  }

  /** `getSchedulesByStaff` over the stored windows taken in `order`. */
  function SchedulesByStaff(db: Db, order: seq<int>, staffId: int, availableOnly: bool)
    : (r: Result<(StaffSummary, seq<DayGroup>), ByStaffError>)
    requires Within(order, db.schedules.rows)
  {
    if staffId !in db.staff.rows then Err(StaffNotFound)
    else
      var s := db.staff.rows[staffId];
      var mine := Filter(RowsOf(order, db.schedules.rows), OfStaff(staffId, availableOnly));
      Ok((StaffSummary(staffId, s.firstName, s.lastName, s.email), GroupByDay(mine)))
  }

  /** An unknown staff member is an error; otherwise every grouped window
      is a stored window of that staff member (available when asked), and
      every such stored window is in the group of its weekday. */
  lemma SchedulesByStaffMeaning(db: Db, order: seq<int>, staffId: int, availableOnly: bool, k: int)
    requires Enumerates(order, db.schedules.rows) && SpansWellFormed(db)
    ensures SchedulesByStaff(db, order, staffId, availableOnly).Err? <==> staffId !in db.staff.rows
    ensures SchedulesByStaff(db, order, staffId, availableOnly).Ok? ==>
              var groups := SchedulesByStaff(db, order, staffId, availableOnly).value.1;
              && (forall g, y :: g in groups && y in g.schedules ==>
                    y.id in db.schedules.rows && db.schedules.rows[y.id] == y.record
                    && y.record.staffId == staffId && (availableOnly ==> y.record.available)
                    && y.record.dayOfWeek == g.dayOfWeek)
              && (k in db.schedules.rows && db.schedules.rows[k].staffId == staffId
                  && (availableOnly ==> db.schedules.rows[k].available) ==>
                    exists g :: g in groups && g.dayOfWeek == db.schedules.rows[k].dayOfWeek
                                && Row(k, db.schedules.rows[k]) in g.schedules)
  {
    if staffId in db.staff.rows {
      var all := RowsOf(order, db.schedules.rows);
      var mine := Filter(all, OfStaff(staffId, availableOnly));
      GroupRowsBelong(mine);
      forall y | y in mine
        ensures y.id in db.schedules.rows && db.schedules.rows[y.id] == y.record
      {
        var j :| 0 <= j < |all| && all[j] == y;
      }
      if k in db.schedules.rows && db.schedules.rows[k].staffId == staffId
         && (availableOnly ==> db.schedules.rows[k].available) {
        var x := Row(k, db.schedules.rows[k]);
        var j :| 0 <= j < |order| && order[j] == k;
        assert all[j] == x;
        assert x in mine;
        GroupHoldsRow(mine, x);
      }
    }
  }

  method GetSchedulesByStaff(db: Database, order: seq<int>, staffId: int, availableOnly: bool)
    returns (r: Result<(StaffSummary, seq<DayGroup>), ByStaffError>)
    requires Within(order, db.schedules.rows)
    ensures r == SchedulesByStaff(db.Snapshot(), order, staffId, availableOnly)
  {
    if staffId !in db.staff.rows {
      return Err(StaffNotFound);
    }
    var s := db.staff.rows[staffId];
    var mine := Filter(RowsOf(order, db.schedules.rows), OfStaff(staffId, availableOnly));
    r := Ok((StaffSummary(staffId, s.firstName, s.lastName, s.email), GroupByDay(mine)));
  }
}
