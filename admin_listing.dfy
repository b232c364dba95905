/** `getPaginatedAdmins` and `searchAdmins`: the active filter, the
    case-insensitive text search over email and names, and the requested
    page of the administrators that pass them. */
module AdminListing {
  import opened Wrappers
  import opened Text
  import opened Store
  import opened Pagination

  datatype Params = Params(
    page: Option<int>, pageSize: Option<int>, search: Option<string>,
    activeOnly: Option<bool>, sortBy: Option<string>, sortOrder: Option<string>)

  datatype SortKey = ByEmail | ByFirstName | ByLastName | ByCreatedAt

  datatype Query = Query(
    paging: Paging, search: Option<string>, activeOnly: bool, sortBy: SortKey, sortOrder: SortOrder)

  function ParseSortKey(s: Option<string>): (r: Option<SortKey>) {
    Choose(s, ByCreatedAt,
           [("email", ByEmail), ("firstName", ByFirstName), ("lastName", ByLastName), ("createdAt", ByCreatedAt)])
  }

  /** The schema, fed with `x || default` / `x || undefined`, checked field
      by field in declaration order. The newest administrators come first
      by default. */
  function Validate(p: Params): (r: Result<Query, ParamError>)
    ensures r.Ok? <==> ValidatePaging(p.page, p.pageSize).Ok?
                       && ParseSortKey(p.sortBy).Some? && ParseSortOrder(p.sortOrder, Desc).Some?
    ensures r.Ok? ==> r.value.paging == ValidatePaging(p.page, p.pageSize).value
    ensures r.Ok? ==> r.value.search == NonEmpty(p.search)
    ensures r.Ok? ==> (r.value.activeOnly <==> p.activeOnly == Some(true))
    ensures r.Ok? && (p.sortBy.None? || p.sortBy == Some("")) ==> r.value.sortBy == ByCreatedAt
    ensures r.Ok? && (p.sortOrder.None? || p.sortOrder == Some("")) ==> r.value.sortOrder == Desc
  {
    var paging := ValidatePaging(p.page, p.pageSize);
    if paging.Err? then Err(paging.error)
    else
      var sortBy, sortOrder := ParseSortKey(p.sortBy), ParseSortOrder(p.sortOrder, Desc);
      if sortBy.None? then Err(BadSortBy)
      else if sortOrder.None? then Err(BadSortOrder)
      else Ok(Query(paging.value, NonEmpty(p.search), p.activeOnly == Some(true), sortBy.value, sortOrder.value))
  }

  /** The administrators the listing means. A search that is blank after
      trimming filters nothing; otherwise the untrimmed search must occur,
      ignoring case, in the email, first name or last name. */
  predicate Selected(q: Query, admin: Admin) {
    (q.activeOnly ==> admin.active)
    && (SearchActive(q.search) ==> TextMatches(admin, q.search.value))
  }

  predicate TextMatches(admin: Admin, text: string) {
    ContainsInsensitive(admin.email, text) || ContainsInsensitive(admin.firstName, text)
    || ContainsInsensitive(admin.lastName, text)
  }

  function Keep(q: Query): (keep: Row<Admin> -> bool) {
    (x: Row<Admin>) => Selected(q, x.record)
  }

  datatype Column = Email | FirstName | LastName

  function ColumnOf(admin: Admin, c: Column): (r: string) {
    match c
    case Email => admin.email
    case FirstName => admin.firstName
    case LastName => admin.lastName
  }

  /** One `{ column: { contains: text, mode: "insensitive" } }` of an `OR`. */
  datatype Contains = Contains(column: Column, text: string)

  datatype Where = Where(active: Option<bool>, or: Option<seq<Contains>>)

  /** The `OR` of the text search. */
  function Alternatives(text: string): (r: seq<Contains>) {
    [Contains(Email, text), Contains(FirstName, text), Contains(LastName, text)]
  }

  predicate AnyHolds(admin: Admin, alternatives: seq<Contains>) {
    exists i :: 0 <= i < |alternatives|
      && ContainsInsensitive(ColumnOf(admin, alternatives[i].column), alternatives[i].text)
  }

  lemma AlternativesMeaning(admin: Admin, text: string)
    ensures AnyHolds(admin, Alternatives(text)) <==> TextMatches(admin, text)
  {
    if TextMatches(admin, text) {
      var i := if ContainsInsensitive(admin.email, text) then 0
               else if ContainsInsensitive(admin.firstName, text) then 1 else 2;
      assert ContainsInsensitive(ColumnOf(admin, Alternatives(text)[i].column), text);
    }
  }

  /** What Prisma keeps for a `where`. */
  predicate Matches(w: Where, admin: Admin) {
    (w.active.Some? ==> admin.active == w.active.value)
    && (w.or.Some? ==> AnyHolds(admin, w.or.value))
  }

  /** Fills `whereConditions` step by step; the result keeps exactly the
      administrators the listing means. */
  method BuildWhere(q: Query) returns (w: Where)
    ensures forall admin :: Matches(w, admin) <==> Selected(q, admin)
  {
    w := Where(None, None);
    if q.activeOnly {
      w := w.(active := Some(true));
    }
    if SearchActive(q.search) {
      w := w.(or := Some(Alternatives(q.search.value)));
      forall admin: Admin {
        AlternativesMeaning(admin, q.search.value);
      }
    }
  }

  function List(order: seq<int>, rows: map<int, Admin>, p: Params)
    : (r: Result<(seq<Row<Admin>>, PageInfo), ParamError>)
    requires Within(order, rows)
  {
    var v := Validate(p);
    if v.Err? then Err(v.error) else Ok(Listing(order, rows, v.value.paging, Keep(v.value)))
  }

  /** A listing with accepted parameters is the requested page of the stored
      administrators the listing means, taken in the order the database
      returns them: at most `pageSize` of them, and `totalItems` counts all of
      them. */
  lemma ListMeaning(order: seq<int>, rows: map<int, Admin>, p: Params)
    requires Enumerates(order, rows)
    ensures List(order, rows, p).Ok? <==> Validate(p).Ok?
    ensures List(order, rows, p).Ok? ==>
              var q, page, info := Validate(p).value, List(order, rows, p).value.0, List(order, rows, p).value.1;
              && PageOf(order, rows, q.paging, Keep(q), page)
              && |page| <= q.paging.pageSize
              && (forall x :: x in page ==> x.id in rows && rows[x.id] == x.record && Selected(q, x.record))
              && info.totalItems == |set k | k in rows && Selected(q, rows[k])|
  {
    if Validate(p).Ok? {
      var q := Validate(p).value;
      ListingMeaning(order, rows, q.paging, Keep(q));
      assert Selection(rows, Keep(q)) == set k | k in rows && Selected(q, rows[k]);
    }
  }

  method GetPaginatedAdmins(db: Database, order: seq<int>, p: Params)
    returns (r: Result<(seq<Row<Admin>>, PageInfo), ParamError>)
    requires Within(order, db.admins.rows)
    ensures r == List(order, db.admins.rows, p)
  {
    var v := Validate(p);
    if v.Err? {
      return Err(v.error);
    }
    var q := v.value;
    var w := BuildWhere(q);
    var keep := (x: Row<Admin>) => Matches(w, x.record);
    ListingExtensional(order, db.admins.rows, q.paging, keep, Keep(q));
    r := Ok(Listing(order, db.admins.rows, q.paging, keep));
  }

  /** `searchAdmins`: the parameters read from a submitted form. */
  function SearchForm(form: map<string, string>, toNumber: string -> int): (p: Params) {
    Params(FormNumber(form, "page", toNumber, Some(1)),
           FormNumber(form, "pageSize", toNumber, Some(10)),
           NonEmpty(FormValue(form, "search")),
           Some(FormFlag(form, "activeOnly")),
           Some(if FormValue(form, "sortBy").Some? && form["sortBy"] != "" then form["sortBy"] else "createdAt"),
           Some(if FormValue(form, "sortOrder").Some? && form["sortOrder"] != "" then form["sortOrder"] else "desc"))
  }

  /** Only the exact form value "true" restricts the listing to active
      administrators. */
  lemma SearchFormActiveOnly(form: map<string, string>, toNumber: string -> int)
    requires Validate(SearchForm(form, toNumber)).Ok?
    ensures Validate(SearchForm(form, toNumber)).value.activeOnly
            <==> "activeOnly" in form && form["activeOnly"] == "true"
  {
  }
}
