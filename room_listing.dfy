/** `getPaginatedConsultationRooms` and `searchConsultationRooms`: the active
    filter, the case-insensitive text search over code, name and location,
    and the requested page of the rooms that pass them. */
module RoomListing {
  import opened Wrappers
  import opened Text
  import opened Store
  import opened Pagination

  datatype Params = Params(
    page: Option<int>, pageSize: Option<int>, search: Option<string>,
    activeOnly: Option<bool>, sortBy: Option<string>, sortOrder: Option<string>)

  datatype SortKey = ByCode | ByName | ByLocation | ByCapacity

  datatype Query = Query(
    paging: Paging, search: Option<string>, activeOnly: bool, sortBy: SortKey, sortOrder: SortOrder)

  function ParseSortKey(s: Option<string>): (r: Option<SortKey>) {
    Choose(s, ByCode, [("code", ByCode), ("name", ByName), ("location", ByLocation), ("capacity", ByCapacity)])
  }

  /** The schema, fed with `x || default` / `x || undefined`, checked field
      by field in declaration order. Rooms come by code, ascending, by
      default. */
  function Validate(p: Params): (r: Result<Query, ParamError>)
    ensures r.Ok? <==> ValidatePaging(p.page, p.pageSize).Ok?
                       && ParseSortKey(p.sortBy).Some? && ParseSortOrder(p.sortOrder, Asc).Some?
    ensures r.Ok? ==> r.value.paging == ValidatePaging(p.page, p.pageSize).value
    ensures r.Ok? ==> r.value.search == NonEmpty(p.search)
    ensures r.Ok? ==> (r.value.activeOnly <==> p.activeOnly == Some(true))
    ensures r.Ok? && (p.sortBy.None? || p.sortBy == Some("")) ==> r.value.sortBy == ByCode
    ensures r.Ok? && (p.sortOrder.None? || p.sortOrder == Some("")) ==> r.value.sortOrder == Asc
  {
    var paging := ValidatePaging(p.page, p.pageSize);
    if paging.Err? then Err(paging.error)
    else
      var sortBy, sortOrder := ParseSortKey(p.sortBy), ParseSortOrder(p.sortOrder, Asc);
      if sortBy.None? then Err(BadSortBy)
      else if sortOrder.None? then Err(BadSortOrder)
      else Ok(Query(paging.value, NonEmpty(p.search), p.activeOnly == Some(true), sortBy.value, sortOrder.value))
  }

  /** The rooms the listing means. A search that is blank after trimming
      filters nothing; otherwise the untrimmed search must occur, ignoring
      case, in the code, name or location. */
  predicate Selected(q: Query, room: Room) {
    (q.activeOnly ==> room.active)
    && (SearchActive(q.search) ==> TextMatches(room, q.search.value))
  }

  predicate TextMatches(room: Room, text: string) {
    ContainsInsensitive(room.code, text) || ContainsInsensitive(room.name, text)
    || ContainsInsensitive(room.location, text)
  }

  function Keep(q: Query): (keep: Row<Room> -> bool) {
    (x: Row<Room>) => Selected(q, x.record)
  }

  datatype Column = Code | Name | Location

  function ColumnOf(room: Room, c: Column): (r: string) {
    match c
    case Code => room.code
    case Name => room.name
    case Location => room.location
  }

  /** One `{ column: { contains: text, mode: "insensitive" } }` of an `OR`. */
  datatype Contains = Contains(column: Column, text: string)

  datatype Where = Where(active: Option<bool>, or: Option<seq<Contains>>)

  /** The `OR` of the text search. */
  function Alternatives(text: string): (r: seq<Contains>) {
    [Contains(Code, text), Contains(Name, text), Contains(Location, text)]
  }

  predicate AnyHolds(room: Room, alternatives: seq<Contains>) {
    exists i :: 0 <= i < |alternatives|
      && ContainsInsensitive(ColumnOf(room, alternatives[i].column), alternatives[i].text)
  }

  lemma AlternativesMeaning(room: Room, text: string)
    ensures AnyHolds(room, Alternatives(text)) <==> TextMatches(room, text)
  {
    if TextMatches(room, text) {
      var i := if ContainsInsensitive(room.code, text) then 0
               else if ContainsInsensitive(room.name, text) then 1 else 2;
      assert ContainsInsensitive(ColumnOf(room, Alternatives(text)[i].column), text);
    }
  }

  /** What Prisma keeps for a `where`. */
  predicate Matches(w: Where, room: Room) {
    (w.active.Some? ==> room.active == w.active.value)
    && (w.or.Some? ==> AnyHolds(room, w.or.value))
  }

  /** Fills `whereConditions` step by step; the result keeps exactly the
      rooms the listing means. */
  method BuildWhere(q: Query) returns (w: Where)
    ensures forall room :: Matches(w, room) <==> Selected(q, room)
  {
    w := Where(None, None);
    if q.activeOnly {
      w := w.(active := Some(true));
    }
    if SearchActive(q.search) {
      w := w.(or := Some(Alternatives(q.search.value)));
      forall room: Room {
        AlternativesMeaning(room, q.search.value);
      }
    }
  }

  function List(order: seq<int>, rows: map<int, Room>, p: Params)
    : (r: Result<(seq<Row<Room>>, PageInfo), ParamError>)
    requires Within(order, rows)
  {
    var v := Validate(p);
    if v.Err? then Err(v.error) else Ok(Listing(order, rows, v.value.paging, Keep(v.value)))
  }

  /** A listing with accepted parameters is the requested page of the stored
      rooms the listing means, taken in the order the database returns them:
      at most `pageSize` of them, and `totalItems` counts all of them. */
  lemma ListMeaning(order: seq<int>, rows: map<int, Room>, p: Params)
    requires Enumerates(order, rows)
    ensures List(order, rows, p).Ok? <==> Validate(p).Ok?
    ensures List(order, rows, p).Ok? ==>
              var q, page, info := Validate(p).value, List(order, rows, p).value.0, List(order, rows, p).value.1;
              && PageOf(order, rows, q.paging, Keep(q), page)
              && |page| <= q.paging.pageSize
              && (forall x :: x in page ==> x.id in rows && rows[x.id] == x.record && Selected(q, x.record))
              && info.totalItems == |set k | k in rows && Selected(q, rows[k])|
  {
    if Validate(p).Ok? {
      var q := Validate(p).value;
      ListingMeaning(order, rows, q.paging, Keep(q));
      assert Selection(rows, Keep(q)) == set k | k in rows && Selected(q, rows[k]);
    }
  }

  method GetPaginatedConsultationRooms(db: Database, order: seq<int>, p: Params)
    returns (r: Result<(seq<Row<Room>>, PageInfo), ParamError>)
    requires Within(order, db.rooms.rows)
    ensures r == List(order, db.rooms.rows, p)
  {
    var v := Validate(p);
    if v.Err? {
      return Err(v.error);
    }
    var q := v.value;
    var w := BuildWhere(q);
    var keep := (x: Row<Room>) => Matches(w, x.record);
    ListingExtensional(order, db.rooms.rows, q.paging, keep, Keep(q));
    r := Ok(Listing(order, db.rooms.rows, q.paging, keep));
  }

  /** `searchConsultationRooms`: the parameters read from a submitted form. */
  function SearchForm(form: map<string, string>, toNumber: string -> int): (p: Params) {
    Params(FormNumber(form, "page", toNumber, Some(1)),
           FormNumber(form, "pageSize", toNumber, Some(10)),
           NonEmpty(FormValue(form, "search")),
           Some(FormFlag(form, "activeOnly")),
           Some(if FormValue(form, "sortBy").Some? && form["sortBy"] != "" then form["sortBy"] else "code"),
           Some(if FormValue(form, "sortOrder").Some? && form["sortOrder"] != "" then form["sortOrder"] else "asc"))
  }

  /** Only the exact form value "true" restricts the listing to active
      rooms. */
  lemma SearchFormActiveOnly(form: map<string, string>, toNumber: string -> int)
    requires Validate(SearchForm(form, toNumber)).Ok?
    ensures Validate(SearchForm(form, toNumber)).value.activeOnly
            <==> "activeOnly" in form && form["activeOnly"] == "true"
  {
  }
}
