/** `getPaginatedPatients` and `searchPatients`: the active and assigned
    psychologist filters, the case-insensitive text search over names,
    control number and email, and the requested page of the patients that
    pass them. */
module PatientListing {
  import opened Wrappers
  import opened Text
  import opened Store
  import opened Pagination

  datatype Params = Params(
    page: Option<int>, pageSize: Option<int>, search: Option<string>,
    activeOnly: Option<bool>, assignedPsychologist: Option<int>,
    sortBy: Option<string>, sortOrder: Option<string>)

  datatype SortKey = ByFirstName | ByLastName | ByNuControl | ByEmail | ByRegisteredDate

  datatype Query = Query(
    paging: Paging, search: Option<string>, activeOnly: bool,
    assignedPsychologist: Option<int>, sortBy: SortKey, sortOrder: SortOrder)

  function ParseSortKey(s: Option<string>): (r: Option<SortKey>) {
    Choose(s, ByRegisteredDate,
           [("firstName", ByFirstName), ("lastName", ByLastName), ("nuControl", ByNuControl),
            ("email", ByEmail), ("registeredDate", ByRegisteredDate)])
  }

  /** The schema, fed with `x || default` / `x || undefined`, checked field
      by field in declaration order. The newest registrations come first by
      default. */
  function Validate(p: Params): (r: Result<Query, ParamError>)
    ensures r.Ok? <==> ValidatePaging(p.page, p.pageSize).Ok?
                       && (p.assignedPsychologist.None? || p.assignedPsychologist.value >= 0)
                       && ParseSortKey(p.sortBy).Some? && ParseSortOrder(p.sortOrder, Desc).Some?
    ensures r.Ok? ==> r.value.paging == ValidatePaging(p.page, p.pageSize).value
    ensures r.Ok? ==> r.value.search == NonEmpty(p.search)
    ensures r.Ok? ==> (r.value.activeOnly <==> p.activeOnly == Some(true))
    ensures r.Ok? ==> (r.value.assignedPsychologist.Some? <==>
                         p.assignedPsychologist.Some? && p.assignedPsychologist.value != 0)
                      && (r.value.assignedPsychologist.Some? ==>
                            r.value.assignedPsychologist == p.assignedPsychologist && p.assignedPsychologist.value > 0)
    ensures r.Ok? && (p.sortBy.None? || p.sortBy == Some("")) ==> r.value.sortBy == ByRegisteredDate
    ensures r.Ok? && (p.sortOrder.None? || p.sortOrder == Some("")) ==> r.value.sortOrder == Desc
  {
    var paging := ValidatePaging(p.page, p.pageSize);
    if paging.Err? then Err(paging.error)
    else if p.assignedPsychologist.Some? && p.assignedPsychologist.value < 0 then Err(PsychologistIdNotPositive)
    else
      var sortBy, sortOrder := ParseSortKey(p.sortBy), ParseSortOrder(p.sortOrder, Desc);
      if sortBy.None? then Err(BadSortBy)
      else if sortOrder.None? then Err(BadSortOrder)
      else
        Ok(Query(paging.value, NonEmpty(p.search), p.activeOnly == Some(true),
                 NonZero(p.assignedPsychologist), sortBy.value, sortOrder.value))
  }

  /** The patients the listing means. A search that is blank after trimming
      filters nothing; otherwise the untrimmed search must occur, ignoring
      case, in the first name, last name, control number or email. */
  predicate Selected(q: Query, pt: Patient) {
    (q.activeOnly ==> pt.active)
    && (q.assignedPsychologist.Some? ==> pt.assignedPsychologist == q.assignedPsychologist)
    && (SearchActive(q.search) ==> TextMatches(pt, q.search.value))
  }

  predicate TextMatches(pt: Patient, text: string) {
    ContainsInsensitive(pt.firstName, text) || ContainsInsensitive(pt.lastName, text)
    || ContainsInsensitive(pt.nuControl, text) || ContainsInsensitive(pt.email, text)
  }

  function Keep(q: Query): (keep: Row<Patient> -> bool) {
    (x: Row<Patient>) => Selected(q, x.record)
  }

  datatype Column = FirstName | LastName | NuControl | Email

  function ColumnOf(pt: Patient, c: Column): (r: string) {
    match c
    case FirstName => pt.firstName
    case LastName => pt.lastName
    case NuControl => pt.nuControl
    case Email => pt.email
  }

  /** One `{ column: { contains: text, mode: "insensitive" } }` of an `OR`. */
  datatype Contains = Contains(column: Column, text: string)

  datatype Where = Where(active: Option<bool>, assignedPsychologist: Option<int>, or: Option<seq<Contains>>)

  /** The `OR` of the text search. */
  function Alternatives(text: string): (r: seq<Contains>) {
    [Contains(FirstName, text), Contains(LastName, text), Contains(NuControl, text), Contains(Email, text)]
  }

  predicate AnyHolds(pt: Patient, alternatives: seq<Contains>) {
    exists i :: 0 <= i < |alternatives|
      && ContainsInsensitive(ColumnOf(pt, alternatives[i].column), alternatives[i].text)
  }

  lemma AlternativesMeaning(pt: Patient, text: string)
    ensures AnyHolds(pt, Alternatives(text)) <==> TextMatches(pt, text)
  {
    if TextMatches(pt, text) {
      var i := if ContainsInsensitive(pt.firstName, text) then 0
               else if ContainsInsensitive(pt.lastName, text) then 1
               else if ContainsInsensitive(pt.nuControl, text) then 2 else 3;
      assert ContainsInsensitive(ColumnOf(pt, Alternatives(text)[i].column), text);
    }
  }

  /** What Prisma keeps for a `where`: every set field holds, and some
      alternative of the `OR` holds when it is set. */
  predicate Matches(w: Where, pt: Patient) {
    (w.active.Some? ==> pt.active == w.active.value)
    && (w.assignedPsychologist.Some? ==> pt.assignedPsychologist == w.assignedPsychologist)
    && (w.or.Some? ==> AnyHolds(pt, w.or.value))
  }

  /** Fills `whereConditions` step by step; the result keeps exactly the
      patients the listing means. */
  method BuildWhere(q: Query) returns (w: Where)
    ensures forall pt :: Matches(w, pt) <==> Selected(q, pt)
  {
    w := Where(None, None, None);
    if q.activeOnly {
      w := w.(active := Some(true));
    }
    if q.assignedPsychologist.Some? {
      w := w.(assignedPsychologist := q.assignedPsychologist);
    }
    if SearchActive(q.search) {
      w := w.(or := Some(Alternatives(q.search.value)));
      forall pt: Patient {
        AlternativesMeaning(pt, q.search.value);
      }
    }
  }

  function List(order: seq<int>, rows: map<int, Patient>, p: Params)
    : (r: Result<(seq<Row<Patient>>, PageInfo), ParamError>)
    requires Within(order, rows)
  {
    var v := Validate(p);
    if v.Err? then Err(v.error) else Ok(Listing(order, rows, v.value.paging, Keep(v.value)))
  }

  /** A listing with accepted parameters is the requested page of the stored
      patients the listing means, taken in the order the database returns
      them: at most `pageSize` of them, and `totalItems` counts all of them. */
  lemma ListMeaning(order: seq<int>, rows: map<int, Patient>, p: Params)
    requires Enumerates(order, rows)
    ensures List(order, rows, p).Ok? <==> Validate(p).Ok?
    ensures List(order, rows, p).Ok? ==>
              var q, page, info := Validate(p).value, List(order, rows, p).value.0, List(order, rows, p).value.1;
              && PageOf(order, rows, q.paging, Keep(q), page)
              && |page| <= q.paging.pageSize
              && (forall x :: x in page ==> x.id in rows && rows[x.id] == x.record && Selected(q, x.record))
              && info.totalItems == |set k | k in rows && Selected(q, rows[k])|
  {
    if Validate(p).Ok? {
      var q := Validate(p).value;
      ListingMeaning(order, rows, q.paging, Keep(q));
      assert Selection(rows, Keep(q)) == set k | k in rows && Selected(q, rows[k]);
    }
  }

  method GetPaginatedPatients(db: Database, order: seq<int>, p: Params)
    returns (r: Result<(seq<Row<Patient>>, PageInfo), ParamError>)
    requires Within(order, db.patients.rows)
    ensures r == List(order, db.patients.rows, p)
  {
    var v := Validate(p);
    if v.Err? {
      return Err(v.error);
    }
    var q := v.value;
    var w := BuildWhere(q);
    var keep := (x: Row<Patient>) => Matches(w, x.record);
    ListingExtensional(order, db.patients.rows, q.paging, keep, Keep(q));
    r := Ok(Listing(order, db.patients.rows, q.paging, keep));
  }

  /** `searchPatients`: the parameters read from a submitted form. */
  function SearchForm(form: map<string, string>, toNumber: string -> int): (p: Params) {
    Params(FormNumber(form, "page", toNumber, Some(1)),
           FormNumber(form, "pageSize", toNumber, Some(10)),
           NonEmpty(FormValue(form, "search")),
           Some(FormFlag(form, "activeOnly")),
           FormNumber(form, "assignedPsychologist", toNumber, None),
           Some(if FormValue(form, "sortBy").Some? && form["sortBy"] != "" then form["sortBy"] else "registeredDate"),
           Some(if FormValue(form, "sortOrder").Some? && form["sortOrder"] != "" then form["sortOrder"] else "desc"))
  }

  /** Only the exact form value "true" restricts the listing to active
      patients. */
  lemma SearchFormActiveOnly(form: map<string, string>, toNumber: string -> int)
    requires Validate(SearchForm(form, toNumber)).Ok?
    ensures Validate(SearchForm(form, toNumber)).value.activeOnly
            <==> "activeOnly" in form && form["activeOnly"] == "true"
  {
  }
}
