/** `getPaginatedStaff` and `searchStaff`: the active and room filters, the
    case-insensitive text search over names, email and phone, and the
    requested page of the staff members that pass them. */
module StaffListing {
  import opened Wrappers
  import opened Text
  import opened Store
  import opened Pagination

  datatype Params = Params(
    page: Option<int>, pageSize: Option<int>, search: Option<string>,
    activeOnly: Option<bool>, consultationRoomId: Option<int>,
    sortBy: Option<string>, sortOrder: Option<string>)

  datatype SortKey = ByFirstName | ByLastName | ByEmail | ByHireDate | ByPhone

  datatype Query = Query(
    paging: Paging, search: Option<string>, activeOnly: bool,
    consultationRoomId: Option<int>, sortBy: SortKey, sortOrder: SortOrder)

  function ParseSortKey(s: Option<string>): (r: Option<SortKey>) {
    Choose(s, ByLastName,
           [("firstName", ByFirstName), ("lastName", ByLastName), ("email", ByEmail),
            ("hireDate", ByHireDate), ("phone", ByPhone)])
  }

  /** The schema, fed with `x || default` / `x || undefined`, checked field
      by field in declaration order. */
  function Validate(p: Params): (r: Result<Query, ParamError>)
    ensures r.Ok? <==> ValidatePaging(p.page, p.pageSize).Ok?
                       && (p.consultationRoomId.None? || p.consultationRoomId.value >= 0)
                       && ParseSortKey(p.sortBy).Some? && ParseSortOrder(p.sortOrder, Asc).Some?
    ensures r.Ok? ==> r.value.paging == ValidatePaging(p.page, p.pageSize).value
    ensures r.Ok? ==> r.value.search == NonEmpty(p.search)
    ensures r.Ok? ==> (r.value.activeOnly <==> p.activeOnly == Some(true))
    ensures r.Ok? ==> (r.value.consultationRoomId.Some? <==>
                         p.consultationRoomId.Some? && p.consultationRoomId.value != 0)
                      && (r.value.consultationRoomId.Some? ==>
                            r.value.consultationRoomId == p.consultationRoomId && p.consultationRoomId.value > 0)
    ensures r.Ok? && (p.sortBy.None? || p.sortBy == Some("")) ==> r.value.sortBy == ByLastName
    ensures r.Ok? && (p.sortOrder.None? || p.sortOrder == Some("")) ==> r.value.sortOrder == Asc
  {
    var paging := ValidatePaging(p.page, p.pageSize);
    if paging.Err? then Err(paging.error)
    else if p.consultationRoomId.Some? && p.consultationRoomId.value < 0 then Err(RoomIdNotPositive)
    else
      var sortBy, sortOrder := ParseSortKey(p.sortBy), ParseSortOrder(p.sortOrder, Asc);
      if sortBy.None? then Err(BadSortBy)
      else if sortOrder.None? then Err(BadSortOrder)
      else
        Ok(Query(paging.value, NonEmpty(p.search), p.activeOnly == Some(true),
                 NonZero(p.consultationRoomId), sortBy.value, sortOrder.value))
  }

  /** The staff members the listing means. A search that is blank after
      trimming filters nothing; otherwise the untrimmed search must occur,
      ignoring case, in the first name, last name, email or phone, and a
      staff member without a phone is matched by the other three only. */
  predicate Selected(q: Query, s: Staff) {
    (q.activeOnly ==> s.active)
    && (q.consultationRoomId.Some? ==> s.consultationRoomId == q.consultationRoomId)
    && (SearchActive(q.search) ==> TextMatches(s, q.search.value))
  }

  predicate TextMatches(s: Staff, text: string) {
    ContainsInsensitive(s.firstName, text) || ContainsInsensitive(s.lastName, text)
    || ContainsInsensitive(s.email, text) || ColumnContains(s.phone, text)
  }

  function Keep(q: Query): (keep: Row<Staff> -> bool) {
    (x: Row<Staff>) => Selected(q, x.record)
  }

  datatype Column = FirstName | LastName | Email | Phone

  function ColumnOf(s: Staff, c: Column): (r: Option<string>) {
    match c
    case FirstName => Some(s.firstName)
    case LastName => Some(s.lastName)
    case Email => Some(s.email)
    case Phone => s.phone
  }

  /** One `{ column: { contains: text, mode: "insensitive" } }` of an `OR`. */
  datatype Contains = Contains(column: Column, text: string)

  datatype Where = Where(active: Option<bool>, consultationRoomId: Option<int>, or: Option<seq<Contains>>)

  /** The `OR` of the text search. */
  function Alternatives(text: string): (r: seq<Contains>) {
    [Contains(FirstName, text), Contains(LastName, text), Contains(Email, text), Contains(Phone, text)]
  }

  predicate AnyHolds(s: Staff, alternatives: seq<Contains>) {
    exists i :: 0 <= i < |alternatives|
      && ColumnContains(ColumnOf(s, alternatives[i].column), alternatives[i].text)
  }

  lemma AlternativesMeaning(s: Staff, text: string)
    ensures AnyHolds(s, Alternatives(text)) <==> TextMatches(s, text)
  {
    if TextMatches(s, text) {
      var i := if ContainsInsensitive(s.firstName, text) then 0
               else if ContainsInsensitive(s.lastName, text) then 1
               else if ContainsInsensitive(s.email, text) then 2 else 3;
      assert ColumnContains(ColumnOf(s, Alternatives(text)[i].column), text);
    }
  }

  /** What Prisma keeps for a `where`: every set field holds, and some
      alternative of the `OR` holds when it is set. */
  predicate Matches(w: Where, s: Staff) {
    (w.active.Some? ==> s.active == w.active.value)
    && (w.consultationRoomId.Some? ==> s.consultationRoomId == w.consultationRoomId)
    && (w.or.Some? ==> AnyHolds(s, w.or.value))
  }

  /** Fills `whereConditions` step by step; the result keeps exactly the
      staff members the listing means. */
  method BuildWhere(q: Query) returns (w: Where)
    ensures forall s :: Matches(w, s) <==> Selected(q, s)
  {
    w := Where(None, None, None);
    if q.activeOnly {
      w := w.(active := Some(true));
    }
    if q.consultationRoomId.Some? {
      w := w.(consultationRoomId := q.consultationRoomId);
    }
    if SearchActive(q.search) {
      w := w.(or := Some(Alternatives(q.search.value)));
      forall s: Staff {
        AlternativesMeaning(s, q.search.value);
      }
    }
  }

  function List(order: seq<int>, rows: map<int, Staff>, p: Params)
    : (r: Result<(seq<Row<Staff>>, PageInfo), ParamError>)
    requires Within(order, rows)
  {
    var v := Validate(p);
    if v.Err? then Err(v.error) else Ok(Listing(order, rows, v.value.paging, Keep(v.value)))
  }

  /** A listing with accepted parameters is the requested page of the stored
      staff members the listing means, taken in the order the database returns
      them: at most `pageSize` of them, and `totalItems` counts all of them. */
  lemma ListMeaning(order: seq<int>, rows: map<int, Staff>, p: Params)
    requires Enumerates(order, rows)
    ensures List(order, rows, p).Ok? <==> Validate(p).Ok?
    ensures List(order, rows, p).Ok? ==>
              var q, page, info := Validate(p).value, List(order, rows, p).value.0, List(order, rows, p).value.1;
              && PageOf(order, rows, q.paging, Keep(q), page)
              && |page| <= q.paging.pageSize
              && (forall x :: x in page ==> x.id in rows && rows[x.id] == x.record && Selected(q, x.record))
              && info.totalItems == |set k | k in rows && Selected(q, rows[k])|
  {
    if Validate(p).Ok? {
      var q := Validate(p).value;
      ListingMeaning(order, rows, q.paging, Keep(q));
      assert Selection(rows, Keep(q)) == set k | k in rows && Selected(q, rows[k]);
    }
  }

  method GetPaginatedStaff(db: Database, order: seq<int>, p: Params)
    returns (r: Result<(seq<Row<Staff>>, PageInfo), ParamError>)
    requires Within(order, db.staff.rows)
    ensures r == List(order, db.staff.rows, p)
  {
    var v := Validate(p);
    if v.Err? {
      return Err(v.error);
    }
    var q := v.value;
    var w := BuildWhere(q);
    var keep := (x: Row<Staff>) => Matches(w, x.record);
    ListingExtensional(order, db.staff.rows, q.paging, keep, Keep(q));
    r := Ok(Listing(order, db.staff.rows, q.paging, keep));
  }

  /** `searchStaff`: the parameters read from a submitted form. */
  function SearchForm(form: map<string, string>, toNumber: string -> int): (p: Params) {
    Params(FormNumber(form, "page", toNumber, Some(1)),
           FormNumber(form, "pageSize", toNumber, Some(10)),
           NonEmpty(FormValue(form, "search")),
           Some(FormFlag(form, "activeOnly")),
           FormNumber(form, "consultationRoomId", toNumber, None),
           Some(if FormValue(form, "sortBy").Some? && form["sortBy"] != "" then form["sortBy"] else "lastName"),
           Some(if FormValue(form, "sortOrder").Some? && form["sortOrder"] != "" then form["sortOrder"] else "asc"))
  }

  /** Only the exact form value "true" restricts the listing to active
      staff members; "1", "on", "TRUE" or a missing field do not. */
  lemma SearchFormActiveOnly(form: map<string, string>, toNumber: string -> int)
    requires Validate(SearchForm(form, toNumber)).Ok?
    ensures Validate(SearchForm(form, toNumber)).value.activeOnly
            <==> "activeOnly" in form && form["activeOnly"] == "true"
  {
  }
}
