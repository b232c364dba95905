/** What every paginated listing shares: the `page`/`pageSize` schema with
    its `||` defaults, the enum choice of a sort key, the filter over the
    stored rows, and the page window with its metadata
    (`skip = (page-1)*pageSize`, `totalPages = ceil(totalItems/pageSize)`). */
module Pagination {
  import opened Wrappers
  import opened Text

  /** JavaScript's `x || d` on an optional number: a missing value and 0
      are falsy and give the default. */
  function OrDefault(x: Option<int>, d: int): (r: int) {
    if x.Some? && x.value != 0 then x.value else d
  }

  /** JavaScript's `x || undefined` on an optional number. */
  function NonZero(x: Option<int>): (r: Option<int>) {
    if x.Some? && x.value != 0 then x else None
  }

  /** JavaScript's `s || undefined` on an optional string. */
  function NonEmpty(s: Option<string>): (r: Option<string>) {
    if s.Some? && s.value != "" then s else None
  }

  /** The first failing check of a listing's parameter schema; the action
      reports it as "Parámetros de paginación inválidos: ...". */
  datatype ParamError =
    | PageNotPositive
    | PageSizeNotPositive
    | PageSizeTooLarge
    | PatientIdNotPositive
    | StaffIdNotPositive
    | RoomIdNotPositive
    | PsychologistIdNotPositive
    | DayOutOfRange
    | BadStatus
    | BadSortBy
    | BadSortOrder

  datatype Paging = Paging(page: int, pageSize: int)

  predicate PagingOk(p: Paging) {
    p.page >= 1 && 1 <= p.pageSize <= 100
  }

  /** `page: int().positive().default(1)` and
      `pageSize: int().positive().min(1).max(100).default(10)`, fed with
      `page || 1` and `pageSize || 10`. */
  function ValidatePaging(page: Option<int>, pageSize: Option<int>): (r: Result<Paging, ParamError>)
    ensures r.Ok? <==> (page.None? || page.value >= 0)
                       && (pageSize.None? || 0 <= pageSize.value <= 100)
    ensures r.Ok? ==> PagingOk(r.value)
    ensures r.Ok? && (page.None? || page.value == 0) ==> r.value.page == 1
    ensures r.Ok? && page.Some? && page.value != 0 ==> r.value.page == page.value
    ensures r.Ok? && (pageSize.None? || pageSize.value == 0) ==> r.value.pageSize == 10
    ensures r.Ok? && pageSize.Some? && pageSize.value != 0 ==> r.value.pageSize == pageSize.value
    ensures page.Some? && page.value < 0 ==> r == Err(PageNotPositive)
  {
    var pg, size := OrDefault(page, 1), OrDefault(pageSize, 10);
    if pg <= 0 then Err(PageNotPositive)
    else if size <= 0 then Err(PageSizeNotPositive)
    else if size > 100 then Err(PageSizeTooLarge)
    else Ok(Paging(pg, size))
  }

  datatype SortOrder = Asc | Desc

  /** A zod enum with a default, fed with `s || default`: a missing or empty
      string gives the default, a listed name its key, anything else fails. */
  function Choose<K>(s: Option<string>, default: K, names: seq<(string, K)>): (r: Option<K>)
    ensures (s.None? || s.value == "") ==> r == Some(default)
    ensures s.Some? && s.value != "" ==>
              (r.Some? <==> exists i :: 0 <= i < |names| && names[i].0 == s.value)
    ensures s.Some? && s.value != "" && r.Some? ==>
              exists i :: 0 <= i < |names| && names[i] == (s.value, r.value)
  {
    if s.None? || s.value == "" then Some(default)
    else Lookup(s.value, names)
  }

  /** The key of the first entry named `name`. */
  function Lookup<K>(name: string, names: seq<(string, K)>): (r: Option<K>)
    ensures r.Some? <==> exists i :: 0 <= i < |names| && names[i].0 == name
    ensures r.Some? ==> exists i :: 0 <= i < |names| && names[i] == (name, r.value)
  {
    if names == [] then None
    else if names[0].0 == name then Some(names[0].1)
    else
      var r := Lookup(name, names[1..]);
      assert forall i :: 1 <= i < |names| ==> names[i] == names[1..][i - 1];
      r
  }

  /** `sortOrder: enum(["asc", "desc"])` with the listing's default. */
  function ParseSortOrder(s: Option<string>, default: SortOrder): (r: Option<SortOrder>) {
    Choose(s, default, [("asc", Asc), ("desc", Desc)])
  }

  lemma SortOrderNames(s: Option<string>, default: SortOrder)
    ensures ParseSortOrder(s, default).Some? <==>
              s.None? || s.value in {"", "asc", "desc"}
    ensures s == Some("asc") ==> ParseSortOrder(s, default) == Some(Asc)
    ensures s == Some("desc") ==> ParseSortOrder(s, default) == Some(Desc)
  {
    var names := [("asc", Asc), ("desc", Desc)];
    if s.Some? && s.value != "" {
      if s.value in {"asc", "desc"} {
        assert names[if s.value == "asc" then 0 else 1].0 == s.value;
      }
    }
  }

  /** `skip = (page - 1) * pageSize`. */
  function Skip(p: Paging): (r: nat)
    requires PagingOk(p)
    ensures r + p.pageSize == p.page * p.pageSize
  {
    (p.page - 1) * p.pageSize
  }

  /** `Math.ceil(n / size)`: the fewest pages of `size` items that hold `n`. */
  function TotalPages(n: nat, size: int): (r: nat)
    requires size >= 1
    ensures n <= r * size
    ensures r == 0 || (r - 1) * size < n
  {
    var q := (n + size - 1) / size;
    assert q * size + (n + size - 1) % size == n + size - 1;
    q
  }

  datatype PageInfo = PageInfo(
    page: int, pageSize: int, totalItems: nat, totalPages: nat,
    hasNextPage: bool, hasPreviousPage: bool)

  function Info(p: Paging, total: nat): (r: PageInfo)
    requires PagingOk(p)
  {
    var pages := TotalPages(total, p.pageSize);
    PageInfo(p.page, p.pageSize, total, pages, p.page < pages, p.page > 1)
  }

  /** `skip` and `take` on the matched rows. */
  function Window<T>(items: seq<T>, p: Paging): (r: seq<T>)
    requires PagingOk(p)
    ensures |r| <= p.pageSize
    ensures |r| == if Skip(p) >= |items| then 0
                   else if Skip(p) + p.pageSize <= |items| then p.pageSize
                   else |items| - Skip(p)
    ensures forall i :: 0 <= i < |r| ==> Skip(p) + i < |items| && r[i] == items[Skip(p) + i]
  {
    var from := if Skip(p) < |items| then Skip(p) else |items|;
    var to := if from + p.pageSize < |items| then from + p.pageSize else |items|;
    items[from..to]
  }

  lemma MulMonotone(a: int, b: int, c: int)
    requires a <= b && c >= 0
    ensures a * c <= b * c
  {
    assert b * c - a * c == (b - a) * c;
  }

  /** There is a next page exactly when items remain after this one. */
  lemma HasNextIffMoreItems(p: Paging, total: nat)
    requires PagingOk(p)
    ensures Info(p, total).hasNextPage <==> Skip(p) + p.pageSize < total
  {
    var pages := TotalPages(total, p.pageSize);
    if p.page < pages {
      MulMonotone(p.page, pages - 1, p.pageSize);
    } else {
      MulMonotone(pages, p.page, p.pageSize);
    }
  }

  /** Pages 1..totalPages are non-empty and the pages after them are empty. */
  lemma PageNonEmptyIffInRange<T>(items: seq<T>, p: Paging)
    requires PagingOk(p)
    ensures |Window(items, p)| > 0 <==> p.page <= Info(p, |items|).totalPages
  {
    var pages := TotalPages(|items|, p.pageSize);
    if p.page <= pages {
      MulMonotone(p.page - 1, pages - 1, p.pageSize);
    } else {
      MulMonotone(pages, p.page - 1, p.pageSize);
    }
  }

  /** Item `i` is on page `i / size + 1`, at position `i % size`. */
  lemma ItemOnItsPage<T>(items: seq<T>, size: int, i: int)
    requires 1 <= size <= 100 && 0 <= i < |items|
    ensures var p := Paging(i / size + 1, size);
            PagingOk(p) && i % size < |Window(items, p)| && Window(items, p)[i % size] == items[i]
  {
    assert (i / size) * size + i % size == i;
  }

  /** A stored row together with its id. */
  datatype Row<T> = Row(id: int, record: T)

  /** Every id of `order` is stored. */
  predicate Within<T>(order: seq<int>, rows: map<int, T>) {
    forall i :: 0 <= i < |order| ==> order[i] in rows
  }

  /** The rows of `rows` in the order `order` gives them: the order the
      database returns them in for the requested sort. */
  function RowsOf<T>(order: seq<int>, rows: map<int, T>): (r: seq<Row<T>>)
    requires Within(order, rows)
    ensures |r| == |order|
    ensures forall i :: 0 <= i < |r| ==> r[i] == Row(order[i], rows[order[i]])
  {
    seq(|order|, i requires 0 <= i < |order| => Row(order[i], rows[order[i]]))
  }

  /** `order` lists every stored id exactly once. */
  predicate Enumerates<T>(order: seq<int>, rows: map<int, T>) {
    (forall i, j :: 0 <= i < j < |order| ==> order[i] != order[j])
    && (forall i :: 0 <= i < |order| ==> order[i] in rows)
    && (forall k :: k in rows ==> k in order)
  }

  /** The rows a `where` keeps, in their order. */
  function Filter<T>(s: seq<T>, keep: T -> bool): (r: seq<T>)
    ensures |r| <= |s|
    ensures forall i :: 0 <= i < |r| ==> r[i] in s && keep(r[i])
    ensures forall i :: 0 <= i < |s| && keep(s[i]) ==> s[i] in r
  {
    if s == [] then []
    else (if keep(s[0]) then [s[0]] else []) + Filter(s[1..], keep)
  }

  lemma {:induction false} FilterExtensional<T>(s: seq<T>, f: T -> bool, g: T -> bool)
    requires forall x :: f(x) == g(x)
    ensures Filter(s, f) == Filter(s, g)
  {
    if s != [] {
      FilterExtensional(s[1..], f, g);
    }
  }

  /** The ids of the stored rows a `where` keeps. */
  function Selection<T>(rows: map<int, T>, keep: Row<T> -> bool): set<int> {
    set k | k in rows && keep(Row(k, rows[k]))
  }

  /** The ids among `order` whose rows the `where` keeps. */
  function KeptIds<T>(order: seq<int>, rows: map<int, T>, keep: Row<T> -> bool): (r: set<int>)
    requires Within(order, rows)
    ensures forall k :: k in r <==> k in order && keep(Row(k, rows[k]))
  {
    if order == [] then {}
    else
      var kept := KeptIds(order[1..], rows, keep);
      assert forall k :: k in order <==> k == order[0] || k in order[1..];
      (if keep(Row(order[0], rows[order[0]])) then {order[0]} else {}) + kept
  }

  /** Filtering the rows of `order` looks at the first row, then the rest. */
  lemma FilterRowsStep<T>(order: seq<int>, rows: map<int, T>, keep: Row<T> -> bool)
    requires Within(order, rows) && order != []
    ensures |Filter(RowsOf(order, rows), keep)|
            == (if keep(Row(order[0], rows[order[0]])) then 1 else 0) + |Filter(RowsOf(order[1..], rows), keep)|
  {
    var all := RowsOf(order, rows);
    assert all[1..] == RowsOf(order[1..], rows);
    assert all[0] == Row(order[0], rows[order[0]]);
  }

  /** The kept ids of `order` are those of the rest, plus the first id when
      it is kept and not repeated. */
  lemma KeptIdsStep<T>(order: seq<int>, rows: map<int, T>, keep: Row<T> -> bool)
    requires Within(order, rows) && order != [] && order[0] !in order[1..]
    ensures |KeptIds(order, rows, keep)|
            == (if keep(Row(order[0], rows[order[0]])) then 1 else 0) + |KeptIds(order[1..], rows, keep)|
  {
    var kept := KeptIds(order[1..], rows, keep);
    assert order[0] !in kept;
  }

  lemma {:induction false} FilterRowsCount<T>(order: seq<int>, rows: map<int, T>, keep: Row<T> -> bool)
    requires Within(order, rows)
    requires forall i, j :: 0 <= i < j < |order| ==> order[i] != order[j]
    ensures |Filter(RowsOf(order, rows), keep)| == |KeptIds(order, rows, keep)|
  {
    if order != [] {
      var rest := order[1..];
      assert forall i, j :: 0 <= i < j < |rest| ==> rest[i] == order[i + 1] && rest[j] == order[j + 1];
      FilterRowsCount(rest, rows, keep);
      assert order[0] !in rest by {
        forall i | 0 <= i < |rest| ensures rest[i] != order[0] {
          assert rest[i] == order[i + 1];
        }
      }
      FilterRowsStep(order, rows, keep);
      KeptIdsStep(order, rows, keep);
    }
  }

  /** The position of `k` in `order`, the first one. */
  function IndexOf(order: seq<int>, k: int): (i: nat)
    requires k in order
    ensures i < |order| && order[i] == k
    ensures forall j :: 0 <= j < i ==> order[j] != k
  {
    if order[0] == k then 0
    else
      assert k in order[1..];
      var i := IndexOf(order[1..], k);
      assert forall j :: 1 <= j <= i ==> order[j] == order[1..][j - 1];
      i + 1
  }

  /** The ids of `m` strictly increase in position within `order`. */
  ghost predicate Increasing<T>(order: seq<int>, m: seq<Row<T>>) {
    (forall i :: 0 <= i < |m| ==> m[i].id in order)
    && (forall i, j :: 0 <= i < j < |m| ==> IndexOf(order, m[i].id) < IndexOf(order, m[j].id))
  }

  /** `m` holds exactly the stored rows `keep` accepts, in the order
      `order` gives their ids; ids strictly increase in position, so each
      stored row appears once. */
  ghost predicate KeptInOrder<T>(order: seq<int>, rows: map<int, T>, keep: Row<T> -> bool, m: seq<Row<T>>) {
    (forall i :: 0 <= i < |m| ==> m[i].id in rows && m[i].record == rows[m[i].id] && keep(m[i]))
    && (forall k :: k in rows && keep(Row(k, rows[k])) ==> Row(k, rows[k]) in m)
    && Increasing(order, m)
  }

  /** After the first row of an increasing sequence come rows of later
      positions, still increasing. */
  lemma IncreasingTail<T>(order: seq<int>, m: seq<Row<T>>)
    requires Increasing(order, m) && m != []
    ensures Increasing(order, m[1..])
    ensures forall x :: x in m[1..] ==>
              m[0].id in order && x.id in order && IndexOf(order, m[0].id) < IndexOf(order, x.id)
  {
    var t := m[1..];
    assert forall a :: 0 <= a < |t| ==> t[a] == m[a + 1];
    forall x | x in t
      ensures m[0].id in order && x.id in order && IndexOf(order, m[0].id) < IndexOf(order, x.id)
    {
      var a :| 0 <= a < |t| && t[a] == x;
      assert m[a + 1] == x;
    }
  }

  /** Increasing sequences with the same elements start alike. */
  lemma IncreasingHeads<T>(order: seq<int>, m1: seq<Row<T>>, m2: seq<Row<T>>)
    requires forall x :: x in m1 <==> x in m2
    requires Increasing(order, m1) && Increasing(order, m2) && m1 != []
    ensures m2 != [] && m1[0] == m2[0]
  {
    assert m1[0] in m2;
    var j :| 0 <= j < |m2| && m2[j] == m1[0];
    assert m2[0] in m1;
    var i :| 0 <= i < |m1| && m1[i] == m2[0];
    assert IndexOf(order, m1[0].id) <= IndexOf(order, m1[i].id);
    assert IndexOf(order, m2[0].id) <= IndexOf(order, m2[j].id);
  }

  /** Two sequences with the same elements, both strictly increasing in
      the position of their ids, are equal. */
  lemma {:induction false} InOrderUnique<T>(order: seq<int>, m1: seq<Row<T>>, m2: seq<Row<T>>)
    requires forall x :: x in m1 <==> x in m2
    requires Increasing(order, m1) && Increasing(order, m2)
    ensures m1 == m2
  {
    assert m1 != [] ==> m1[0] in m1;
    assert m2 != [] ==> m2[0] in m2;
    if m1 != [] {
      IncreasingHeads(order, m1, m2);
      IncreasingTail(order, m1);
      IncreasingTail(order, m2);
      var t1, t2 := m1[1..], m2[1..];
      forall x ensures x in t1 <==> x in t2 {
        if x in t1 {
          assert x in m1 && x.id != m2[0].id;
          var k :| 0 <= k < |m2| && m2[k] == x;
          assert t2[k - 1] == x;
        }
        if x in t2 {
          assert x in m2 && x.id != m1[0].id;
          var k :| 0 <= k < |m1| && m1[k] == x;
          assert t1[k - 1] == x;
        }
      }
      InOrderUnique(order, t1, t2);
      assert m1 == [m1[0]] + t1 && m2 == [m2[0]] + t2;
    }
  }

  /** Two listings of the kept rows have the same elements. */
  lemma KeptSameElements<T>(order: seq<int>, rows: map<int, T>, keep: Row<T> -> bool, m1: seq<Row<T>>, m2: seq<Row<T>>)
    requires KeptInOrder(order, rows, keep, m1) && KeptInOrder(order, rows, keep, m2)
    ensures forall x :: x in m1 <==> x in m2
  {
    forall x | x in m1 ensures x in m2 {
      var i :| 0 <= i < |m1| && m1[i] == x;
      assert x == Row(x.id, rows[x.id]);
    }
    forall x | x in m2 ensures x in m1 {
      var i :| 0 <= i < |m2| && m2[i] == x;
      assert x == Row(x.id, rows[x.id]);
    }
  }

  /** The rows a `where` keeps, in the order the database returns them. */
  function Matched<T>(order: seq<int>, rows: map<int, T>, keep: Row<T> -> bool): (m: seq<Row<T>>)
    requires Within(order, rows)
  {
    Filter(RowsOf(order, rows), keep)
  }

  /** Filtering the rows of `order` looks at the first row, then the rest. */
  lemma MatchedStep<T>(order: seq<int>, rows: map<int, T>, keep: Row<T> -> bool)
    requires Within(order, rows) && order != []
    ensures var x := Row(order[0], rows[order[0]]);
            Matched(order, rows, keep) == (if keep(x) then [x] else []) + Matched(order[1..], rows, keep)
  {
    var all := RowsOf(order, rows);
    assert all[1..] == RowsOf(order[1..], rows);
    assert all[0] == Row(order[0], rows[order[0]]);
  }

  /** Every kept row is the stored row of one of the ids of `order`. */
  lemma MatchedIds<T>(order: seq<int>, rows: map<int, T>, keep: Row<T> -> bool)
    requires Within(order, rows)
    ensures forall x :: x in Matched(order, rows, keep) ==> x.id in order
  {
    forall x | x in Matched(order, rows, keep) ensures x.id in order {
      var j :| 0 <= j < |order| && RowsOf(order, rows)[j] == x;
    }
  }

  /** Positions in the rest of `order` are one less than in `order`. */
  lemma IncreasingShift<T>(order: seq<int>, m: seq<Row<T>>)
    requires order != [] && Increasing(order[1..], m)
    requires forall i :: 0 <= i < |m| ==> m[i].id != order[0]
    ensures Increasing(order, m)
    ensures forall i :: 0 <= i < |m| ==> IndexOf(order, m[i].id) > 0
  {
    forall i | 0 <= i < |m| ensures m[i].id in order && IndexOf(order, m[i].id) == IndexOf(order[1..], m[i].id) + 1 {
      assert m[i].id in order[1..];
    }
  }

  /** The row of the first id goes before rows of later ids. */
  lemma IncreasingCons<T>(order: seq<int>, x: Row<T>, m: seq<Row<T>>)
    requires order != [] && x.id == order[0] && Increasing(order, m)
    requires forall i :: 0 <= i < |m| ==> IndexOf(order, m[i].id) > 0
    ensures Increasing(order, [x] + m)
  {
    var c := [x] + m;
    assert forall i :: 1 <= i < |c| ==> c[i] == m[i - 1];
    assert IndexOf(order, x.id) == 0;
  }

  /** The ids of the kept rows keep their positions in `order`. */
  lemma {:induction false} MatchedInOrder<T>(order: seq<int>, rows: map<int, T>, keep: Row<T> -> bool)
    requires Within(order, rows)
    requires forall i, j :: 0 <= i < j < |order| ==> order[i] != order[j]
    ensures Increasing(order, Matched(order, rows, keep))
  {
    if order != [] {
      var rest := order[1..];
      assert forall i, j :: 0 <= i < j < |rest| ==> rest[i] == order[i + 1] && rest[j] == order[j + 1];
      MatchedInOrder(rest, rows, keep);
      var mr := Matched(rest, rows, keep);
      MatchedIds(rest, rows, keep);
      assert order[0] !in rest by {
        forall i | 0 <= i < |rest| ensures rest[i] != order[0] {
          assert rest[i] == order[i + 1];
        }
      }
      assert forall i :: 0 <= i < |mr| ==> mr[i] in mr;
      IncreasingShift(order, mr);
      MatchedStep(order, rows, keep);
      var x := Row(order[0], rows[order[0]]);
      if keep(x) {
        IncreasingCons(order, x, mr);
      }
    }
  }

  /** The kept rows are exactly the stored rows the `where` accepts, each
      once, in the database's order, and there are as many as the
      selection has ids. */
  lemma MatchedMeaning<T>(order: seq<int>, rows: map<int, T>, keep: Row<T> -> bool)
    requires Enumerates(order, rows)
    ensures KeptInOrder(order, rows, keep, Matched(order, rows, keep))
    ensures |Matched(order, rows, keep)| == |Selection(rows, keep)|
  {
    var all := RowsOf(order, rows);
    var m := Matched(order, rows, keep);
    forall i | 0 <= i < |m| ensures m[i].id in rows && m[i].record == rows[m[i].id] && keep(m[i]) {
      assert m[i] in all;
      var j :| 0 <= j < |all| && all[j] == m[i];
    }
    forall k | k in rows && keep(Row(k, rows[k])) ensures Row(k, rows[k]) in m {
      var j :| 0 <= j < |order| && order[j] == k;
      assert all[j] == Row(k, rows[k]);
    }
    MatchedInOrder(order, rows, keep);
    FilterRowsCount(order, rows, keep);
    assert KeptIds(order, rows, keep) == Selection(rows, keep);
  }

  /** The listing: the rows the `where` keeps, counted whole, and the
      requested page of them. */
  function Listing<T>(order: seq<int>, rows: map<int, T>, p: Paging, keep: Row<T> -> bool): (r: (seq<Row<T>>, PageInfo))
    requires PagingOk(p)
    requires Within(order, rows)
  {
    var matched := Matched(order, rows, keep);
    (Window(matched, p), Info(p, |matched|))
  }

  /** `page` is the requested window of the stored rows `keep` accepts,
      taken in the order the database returns them. */
  ghost predicate PageOf<T(!new)>(order: seq<int>, rows: map<int, T>, p: Paging, keep: Row<T> -> bool, page: seq<Row<T>>)
    requires PagingOk(p)
  {
    exists m :: KeptInOrder(order, rows, keep, m) && page == Window(m, p)
  }

  /** The page is the window at `skip` of the kept rows in the database's
      order, so every listed row is a stored row the `where` keeps; it holds
      at most `pageSize` of them; `totalItems` counts every stored row the
      `where` keeps, not just this page. */
  lemma ListingMeaning<T(!new)>(order: seq<int>, rows: map<int, T>, p: Paging, keep: Row<T> -> bool)
    requires PagingOk(p)
    requires Enumerates(order, rows)
    ensures var r := Listing(order, rows, p, keep);
            && PageOf(order, rows, p, keep, r.0)
            && |r.0| <= p.pageSize
            && (forall x :: x in r.0 ==> x.id in rows && rows[x.id] == x.record && keep(x))
            && r.1.totalItems == |Selection(rows, keep)|
            && r.1.page == p.page && r.1.pageSize == p.pageSize
            && (r.1.hasNextPage <==> p.page * p.pageSize < r.1.totalItems)
            && (r.1.hasPreviousPage <==> p.page > 1)
  {
    var matched := Matched(order, rows, keep);
    MatchedMeaning(order, rows, keep);
    forall x | x in Window(matched, p)
      ensures x.id in rows && rows[x.id] == x.record && keep(x)
    {
      var i :| 0 <= i < |Window(matched, p)| && Window(matched, p)[i] == x;
      assert matched[Skip(p) + i] == x;
    }
    HasNextIffMoreItems(p, |matched|);
  }

  /** Only one sequence lists the kept rows in the database's order, so a
      page is determined by the stored rows, the order and the paging. */
  lemma PageOfUnique<T(!new)>(order: seq<int>, rows: map<int, T>, p: Paging, keep: Row<T> -> bool,
                        page1: seq<Row<T>>, page2: seq<Row<T>>)
    requires PagingOk(p)
    requires PageOf(order, rows, p, keep, page1) && PageOf(order, rows, p, keep, page2)
    ensures page1 == page2
  {
    var m1 :| KeptInOrder(order, rows, keep, m1) && page1 == Window(m1, p);
    var m2 :| KeptInOrder(order, rows, keep, m2) && page2 == Window(m2, p);
    KeptSameElements(order, rows, keep, m1, m2);
    InOrderUnique(order, m1, m2);
  }

  /** Every stored row the `where` keeps is listed: the row of rank `i`
      among the kept rows is at position `i % size` of page `i / size + 1`. */
  lemma KeptRowListed<T>(order: seq<int>, rows: map<int, T>, keep: Row<T> -> bool, k: int, size: int)
    requires Enumerates(order, rows)
    requires k in rows && keep(Row(k, rows[k])) && 1 <= size <= 100
    ensures exists i :: 0 <= i < |Selection(rows, keep)|
              && var p := Paging(i / size + 1, size);
                 PagingOk(p) && i % size < |Listing(order, rows, p, keep).0|
                 && Listing(order, rows, p, keep).0[i % size] == Row(k, rows[k])
  {
    var m := Matched(order, rows, keep);
    MatchedMeaning(order, rows, keep);
    assert Row(k, rows[k]) in m;
    var i :| 0 <= i < |m| && m[i] == Row(k, rows[k]);
    ItemOnItsPage(m, size, i);
  }

  lemma ListingExtensional<T>(order: seq<int>, rows: map<int, T>, p: Paging, f: Row<T> -> bool, g: Row<T> -> bool)
    requires PagingOk(p)
    requires Within(order, rows)
    requires forall x :: f(x) == g(x)
    ensures Listing(order, rows, p, f) == Listing(order, rows, p, g)
  {
    FilterExtensional(RowsOf(order, rows), f, g);
  }

  /** The text search of the listings runs only when the search string is
      non-blank after trimming (`search && search.trim() !== ""`). */
  predicate SearchActive(search: Option<string>) {
    search.Some? && Trim(search.value) != ""
  }

  /** Prisma's `{ contains: search, mode: "insensitive" }` on a column; a
      null column matches nothing. */
  predicate ColumnContains(column: Option<string>, search: string) {
    column.Some? && ContainsInsensitive(column.value, search)
  }

  // The `FormData` entry points read their fields as strings.

  /** `formData.get(key)?.toString()`. */
  function FormValue(form: map<string, string>, key: string): (r: Option<string>) {
    if key in form then Some(form[key]) else None
  }

  /** `formData.get(key) ? Number(formData.get(key)) : fallback`, with the
      string-to-number conversion given as `toNumber`. */
  function FormNumber(form: map<string, string>, key: string, toNumber: string -> int, fallback: Option<int>)
    : (r: Option<int>)
  {
    if key in form && form[key] != "" then Some(toNumber(form[key])) else fallback
  }

  /** `formData.get(key) === "true"`. */
  function FormFlag(form: map<string, string>, key: string): (r: bool) {
    key in form && form[key] == "true"
  }
}
