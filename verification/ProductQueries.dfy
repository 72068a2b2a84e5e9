/**
 The product store's three ways to read a table: Count, the offset Query and the keyset
 QueryByCursor. A statement is a list of conditions over named parameters; the database
 is a function of the statement, the bound parameters and the rows.
 */
module ProductQueries {
  import opened Outcomes
  import opened Calendar
  import opened CursorCodec
  import opened TextSearch
  import opened OffsetPages
  import opened Selections
  import opened Keyset
  import opened ConcurrentWalk
  import opened TokenWalks
  import opened CursorTokens

  datatype ProductBody = ProductBody(name: string, price: int)

  type Product = Row<ProductBody>

  /** Absent fields are not applied. */
  datatype Filter = Filter(name: Option<string>, minPrice: Option<int>, maxPrice: Option<int>)

  datatype Direction = Asc | Desc

  /** What a caller asks to order by: a field name, not yet a column. */
  datatype By = By(field: string, direction: Direction)

  datatype Column = CreatedAt | Name | Price

  /** ORDER BY column direction, id direction. */
  datatype Clause = Clause(column: Column, direction: Direction)

  /** What is the database's own: how it folds case and how it orders texts. */
  datatype Locale = Locale(fold: char -> char, collate: string -> real)

  // ---- what the filter means ----

  /** The documented meaning: name is matched as a pattern, both price bounds are inclusive. */
  predicate Satisfies(loc: Locale, f: Filter, p: Product) {
    && (f.name.Some? ==> ILike(loc.fold, Anywhere(f.name.value), p.body.name))
    && (f.minPrice.Some? ==> f.minPrice.value <= p.body.price)
    && (f.maxPrice.Some? ==> p.body.price <= f.maxPrice.value)
  }

  function Matches(loc: Locale, f: Filter): Product -> bool {
    p => Satisfies(loc, f, p)
  }

  // ---- statements and the database ----

  datatype Value = Text(text: string) | Number(n: int) | Time(at: Instant)

  type Bindings = map<string, Value>

  datatype Condition =
    | NameILike(param: string)
    | PriceAtLeast(param: string)
    | PriceAtMost(param: string)
    | KeyBelow(at: string, id: string)
  {
    function Params(): set<string> {
      if KeyBelow? then {at, id} else {param}
    }

    /** Every placeholder is bound to a value of its kind, and the id casts to uuid. */
    predicate Bound(data: Bindings) {
      && Params() <= data.Keys
      && match this
         case NameILike(p) => data[p].Text?
         case PriceAtLeast(p) => data[p].Number?
         case PriceAtMost(p) => data[p].Number?
         case KeyBelow(a, i) => data[a].Time? && data[i].Text? && CastUuid(data[i].text).Some?
    }

    predicate Holds(loc: Locale, data: Bindings, r: Product)
      requires Bound(data)
    {
      match this
      case NameILike(p) => ILike(loc.fold, data[p].text, r.body.name)
      case PriceAtLeast(p) => r.body.price >= data[p].n
      case PriceAtMost(p) => r.body.price <= data[p].n
      case KeyBelow(a, i) => Below(KeyOf(r), Key(data[a].at, CastUuid(data[i].text).value))
    }
  }

  predicate AllBound(where: seq<Condition>, data: Bindings) {
    forall c | c in where :: c.Bound(data)
  }

  predicate AllHold(loc: Locale, where: seq<Condition>, data: Bindings, r: Product)
    requires AllBound(where, data)
  {
    forall c | c in where :: c.Holds(loc, data, r)
  }

  function WhereHolds(loc: Locale, where: seq<Condition>, data: Bindings): Product -> bool
    requires AllBound(where, data)
  {
    r => AllHold(loc, where, data, r)
  }

  /** A column as a sort weight. */
  function Weight(column: Column, loc: Locale, p: Product): real {
    match column
    case CreatedAt => p.createdAt as real
    case Name => loc.collate(p.body.name)
    case Price => p.body.price as real
  }

  predicate ClauseBefore(clause: Clause, loc: Locale, a: Product, b: Product) {
    var x, y := Weight(clause.column, loc, a), Weight(clause.column, loc, b);
    if clause.direction.Asc? then x < y || (x == y && a.id < b.id)
    else x > y || (x == y && a.id > b.id)
  }

  function OrderOf(clause: Clause, loc: Locale): (Product, Product) -> bool {
    (a, b) => ClauseBefore(clause, loc, a, b)
  }

  datatype Statement = Statement(where: seq<Condition>, order: Clause, offset: Option<string>, limit: string)

  /** The database: an unbound or ill-typed placeholder is an error, and so is a negative limit. */
  function Run(stmt: Statement, data: Bindings, rows: seq<Product>, loc: Locale): Option<seq<Product>> {
    if !AllBound(stmt.where, data) || stmt.limit !in data || !data[stmt.limit].Number? || data[stmt.limit].n < 0 then None
    else if stmt.offset.Some? && (stmt.offset.value !in data || !data[stmt.offset.value].Number? || data[stmt.offset.value].n < 0) then None
    else
      var listing := Select(rows, WhereHolds(loc, stmt.where, data), OrderOf(stmt.order, loc));
      var skip := if stmt.offset.Some? then data[stmt.offset.value].n else 0;
      Some(listing[Clip(skip, |listing|)..Clip(skip + data[stmt.limit].n, |listing|)])
  }

  // ---- the bound statement means the filter ----

  const FILTER_PARAMS: set<string> := {"name", "min_price", "max_price"}

  /** Bindings a statement does not mention make no difference to it. */
  lemma OnlyOwnBindingsMatter(loc: Locale, where: seq<Condition>, d1: Bindings, d2: Bindings)
    requires forall c, p | c in where && p in c.Params() && p in d1 :: p in d2 && d2[p] == d1[p]
    requires AllBound(where, d1)
    ensures AllBound(where, d2) && forall r :: AllHold(loc, where, d2, r) <==> AllHold(loc, where, d1, r)
  {
    forall c | c in where
      ensures c.Bound(d2) && forall r :: c.Holds(loc, d2, r) <==> c.Holds(loc, d1, r)
    {
      assert forall p | p in c.Params() :: p in d2 && d2[p] == d1[p];
    }
  }

  /** One more condition under one more binding, of a name no earlier condition uses. */
  lemma OneMore(loc: Locale, where: seq<Condition>, c: Condition, d1: Bindings, d2: Bindings)
    requires AllBound(where, d1) && c.Bound(d2)
    requires forall c', p | c' in where && p in c'.Params() && p in d1 :: p in d2 && d2[p] == d1[p]
    ensures AllBound(where + [c], d2)
    ensures forall r :: AllHold(loc, where + [c], d2, r) <==> AllHold(loc, where, d1, r) && c.Holds(loc, d2, r)
  {
    OnlyOwnBindingsMatter(loc, where, d1, d2);
    forall r
      ensures AllHold(loc, where + [c], d2, r) <==> AllHold(loc, where, d1, r) && c.Holds(loc, d2, r)
    {
      assert c in where + [c];
      assert forall c' :: c' in where + [c] <==> c' in where || c' == c;
    }
  }

  /** The named parameters of a statement, a map the builders fill in place. */
  class Params {
    var bound: Bindings

    constructor ()
      ensures bound == map[]
    {
      bound := map[];
    }

    /** Binds a name that is not bound yet. */
    method Bind(name: string, value: Value)
      requires name !in bound
      modifies this
      ensures bound == old(bound)[name := value]
    {
      bound := bound[name := value];
    }
  }

  /**
   The filter's conditions. With the parameters it binds they hold of exactly the products
   the filter means; it binds its own names alone, none of them twice.
   */
  method WhereConditions(ghost loc: Locale, filter: Filter, data: Params) returns (wc: seq<Condition>)
    requires FILTER_PARAMS !! data.bound.Keys
    modifies data
    ensures data.bound.Keys <= old(data.bound.Keys) + FILTER_PARAMS
    ensures forall k | k in old(data.bound) :: k in data.bound && data.bound[k] == old(data.bound[k])
    ensures forall c | c in wc :: c.Params() <= FILTER_PARAMS
    ensures AllBound(wc, data.bound)
    ensures forall r :: AllHold(loc, wc, data.bound, r) <==> Satisfies(loc, filter, r)
  {
    wc := [];
    ghost var d0 := data.bound;
    if filter.name.Some? {
      data.Bind("name", Text("%" + filter.name.value + "%"));
      OneMore(loc, wc, NameILike("name"), d0, data.bound);
      wc := wc + [NameILike("name")];
    }
    ghost var d1 := data.bound;
    assert forall r :: AllHold(loc, wc, d1, r) <==> Satisfies(loc, Filter(filter.name, None, None), r);
    if filter.minPrice.Some? {
      data.Bind("min_price", Number(filter.minPrice.value));
      OneMore(loc, wc, PriceAtLeast("min_price"), d1, data.bound);
      wc := wc + [PriceAtLeast("min_price")];
    }
    ghost var d2 := data.bound;
    assert forall r :: AllHold(loc, wc, d2, r) <==> Satisfies(loc, Filter(filter.name, filter.minPrice, None), r);
    if filter.maxPrice.Some? {
      data.Bind("max_price", Number(filter.maxPrice.value));
      OneMore(loc, wc, PriceAtMost("max_price"), d2, data.bound);
      wc := wc + [PriceAtMost("max_price")];
    }
  }

  // ---- the three reads ----

  function ColumnOf(field: string): Option<Column> {
    match field
    case "created_at" => Some(CreatedAt)
    case "name" => Some(Name)
    case "price" => Some(Price)
    case _ => None
  }

  function OrderByClause(order: By): Result<Clause, QueryError> {
    match ColumnOf(order.field)
    case None => Err(UnknownField(order.field))
    case Some(column) => Ok(Clause(column, order.direction))
  }

  const DEFAULT_ORDER := By("created_at", Desc)
  const KEYSET_ORDER := Clause(CreatedAt, Desc)

  /** All matching products in the order of a clause: what an offset listing pages through. */
  function Listing(rows: seq<Product>, filter: Filter, clause: Clause, loc: Locale): seq<Product> {
    Select(rows, Matches(loc, filter), OrderOf(clause, loc))
  }

  function CursorReply(
      loc: Locale, rows: seq<Product>, filter: Filter, key: string, limit: nat): Result<Reply<ProductBody>, QueryError>
    requires limit >= 1
  {
    ReplyTo(CURSOR_TOKENS, rows, Matches(loc, filter), key, limit)
  }

  lemma KeysetClause(loc: Locale)
    ensures forall a: Product, b: Product :: OrderOf(KEYSET_ORDER, loc)(a, b) <==> NewestFirst(a, b)
  {}

  /** The database's answer, in terms of what its conditions and its order mean. */
  lemma RunMeans(stmt: Statement, data: Bindings, rows: seq<Product>, loc: Locale,
                 keep: Product -> bool, before: (Product, Product) -> bool, skip: nat, take: nat)
    requires AllBound(stmt.where, data) && stmt.limit in data && data[stmt.limit] == Number(take)
    requires if stmt.offset.Some? then stmt.offset.value in data && data[stmt.offset.value] == Number(skip) else skip == 0
    requires forall r :: AllHold(loc, stmt.where, data, r) <==> keep(r)
    requires forall a, b :: OrderOf(stmt.order, loc)(a, b) <==> before(a, b)
    ensures var listing := Select(rows, keep, before);
            Run(stmt, data, rows, loc) == Some(listing[Clip(skip, |listing|)..Clip(skip + take, |listing|)])
  {
    SelectSame(rows, WhereHolds(loc, stmt.where, data), keep, OrderOf(stmt.order, loc), before);
  }

  lemma OffsetRunMeans(stmt: Statement, data: Bindings, rows: seq<Product>, loc: Locale, filter: Filter, page: nat, size: nat)
    requires page >= 1 && stmt.offset == Some("offset") && stmt.limit == "rows_per_page"
    requires "offset" in data && data["offset"] == Number(Offset(page, size))
    requires "rows_per_page" in data && data["rows_per_page"] == Number(size)
    requires AllBound(stmt.where, data) && forall r :: AllHold(loc, stmt.where, data, r) <==> Satisfies(loc, filter, r)
    ensures Run(stmt, data, rows, loc) == Some(OffsetPage(Listing(rows, filter, stmt.order, loc), page, size))
  {
    RunMeans(stmt, data, rows, loc, Matches(loc, filter), OrderOf(stmt.order, loc), Offset(page, size), size);
  }

  /** The filter's conditions and the keyset predicate together mean the rows behind the boundary. */
  lemma KeyConditionMeans(loc: Locale, wc: seq<Condition>, filter: Filter, d1: Bindings, at: Instant, idText: string)
    requires AllBound(wc, d1) && forall r :: AllHold(loc, wc, d1, r) <==> Satisfies(loc, filter, r)
    requires "after_ts" !in d1 && "after_id" !in d1
    ensures var d2, all := d1["after_ts" := Time(at)]["after_id" := Text(idText)], wc + [KeyBelow("after_ts", "after_id")];
            if CastUuid(idText).None? then !AllBound(all, d2)
            else
              && AllBound(all, d2)
              && forall r :: AllHold(loc, all, d2, r) <==> Reach(Matches(loc, filter), Some(Key(at, CastUuid(idText).value)))(r)
  {
    var d2, c := d1["after_ts" := Time(at)]["after_id" := Text(idText)], KeyBelow("after_ts", "after_id");
    if CastUuid(idText).None? {
      assert c in wc + [c] && !c.Bound(d2);
    } else {
      assert c.Bound(d2);
      OneMore(loc, wc, c, d1, d2);
      var boundary := Some(Key(at, CastUuid(idText).value));
      forall r
        ensures AllHold(loc, wc + [c], d2, r) <==> Reach(Matches(loc, filter), boundary)(r)
      {
        assert c.Holds(loc, d2, r) <==> Past(KeyOf(r), boundary);
      }
    }
  }

  lemma NoKeyMeansNoBoundary(loc: Locale, filter: Filter)
    ensures forall r :: Reach(Matches(loc, filter), None)(r) <==> Satisfies(loc, filter, r)
  {
    forall r
      ensures Reach(Matches(loc, filter), None)(r) <==> Satisfies(loc, filter, r)
    {
      assert Reach(Matches(loc, filter), None)(r) <==> Matches(loc, filter)(r);
    }
  }

  /** The rows kept of a fetch and the next key: what is left of it within the limit, and whether it went beyond. */
  ghost predicate Trims(page: Page<ProductBody>, fetched: seq<Product>, limit: nat)
    requires limit >= 1
  {
    && page.items <= fetched && |page.items| <= limit
    && (page.next.Some? <==> |fetched| > limit)
    && (page.next.Some? ==> |page.items| == limit && page.next.value == KeyOf(page.items[limit - 1]))
    && (page.next.None? ==> page.items == fetched)
  }

  /** Fetching one row beyond the limit and trimming it away makes the page and its next key. */
  lemma TrimmedIsPage(rows: seq<Product>, matches: Product -> bool, boundary: Option<Key>, limit: nat,
                      fetched: seq<Product>, page: Page<ProductBody>)
    requires limit >= 1 && Trims(page, fetched, limit)
    requires var rest := Rest(rows, matches, boundary); fetched == rest[..Clip(limit + 1, |rest|)]
    ensures page == PageAfter(rows, matches, boundary, limit)
  {
    var rest := Rest(rows, matches, boundary);
    if |rest| > limit {
      assert page.items == fetched[..limit] && fetched[..limit] == rest[..limit];
    } else {
      assert fetched == rest;
    }
  }

  // ---- what a listing means ----

  /** The id tiebreaker makes every clause a total order of rows with distinct ids. */
  lemma ClauseIsTotal(clause: Clause, loc: Locale, rows: seq<Product>)
    requires DistinctIds(rows)
    ensures StrictOrder(OrderOf(clause, loc)) && Comparable(rows, OrderOf(clause, loc))
  {
    var before := OrderOf(clause, loc);
    forall a: Product, b: Product, c: Product | before(a, b) && before(b, c)
      ensures before(a, c)
    {
      assert ClauseBefore(clause, loc, a, b) && ClauseBefore(clause, loc, b, c);
    }
    forall a: Product
      ensures !before(a, a)
    {
      assert !ClauseBefore(clause, loc, a, a);
    }
    forall i, j | 0 <= i < j < |rows|
      ensures before(rows[i], rows[j]) || before(rows[j], rows[i])
    {
      assert ClauseBefore(clause, loc, rows[i], rows[j]) || ClauseBefore(clause, loc, rows[j], rows[i]);
    }
  }

  /** The field names a client may order by, and what each of them orders by. */
  predicate Listable(field: string) {
    field == "created_at" || field == "name" || field == "price"
  }

  predicate Lower(loc: Locale, field: string, a: Product, b: Product)
    requires Listable(field)
  {
    if field == "created_at" then a.createdAt < b.createdAt
    else if field == "name" then loc.collate(a.body.name) < loc.collate(b.body.name)
    else a.body.price < b.body.price
  }

  predicate Ties(loc: Locale, field: string, a: Product, b: Product)
    requires Listable(field)
  {
    if field == "created_at" then a.createdAt == b.createdAt
    else if field == "name" then loc.collate(a.body.name) == loc.collate(b.body.name)
    else a.body.price == b.body.price
  }

  /** Every row comes before the later ones by the field, and where they tie by id, in the direction asked for. */
  ghost predicate InOrder(loc: Locale, order: By, rows: seq<Product>)
    requires Listable(order.field)
  {
    forall i, j | 0 <= i < j < |rows| ::
      if order.direction.Asc?
      then Lower(loc, order.field, rows[i], rows[j]) || (Ties(loc, order.field, rows[i], rows[j]) && rows[i].id < rows[j].id)
      else Lower(loc, order.field, rows[j], rows[i]) || (Ties(loc, order.field, rows[i], rows[j]) && rows[i].id > rows[j].id)
  }

  /** The rows are products of the table that the filter lets through, name and both price bounds. */
  ghost predicate Within(loc: Locale, filter: Filter, table: seq<Product>, rows: seq<Product>) {
    forall p | p in rows ::
      && p in table
      && (filter.name.Some? ==> ILike(loc.fold, "%" + filter.name.value + "%", p.body.name))
      && (filter.minPrice.Some? ==> p.body.price >= filter.minPrice.value)
      && (filter.maxPrice.Some? ==> p.body.price <= filter.maxPrice.value)
  }

  /** And no such product is missing from them. */
  ghost predicate Misses(loc: Locale, filter: Filter, table: seq<Product>, rows: seq<Product>) {
    exists p :: p in table && p !in rows
      && (filter.name.Some? ==> ILike(loc.fold, "%" + filter.name.value + "%", p.body.name))
      && (filter.minPrice.Some? ==> p.body.price >= filter.minPrice.value)
      && (filter.maxPrice.Some? ==> p.body.price <= filter.maxPrice.value)
  }

  lemma OrderMeans(loc: Locale, order: By, a: Product, b: Product)
    requires Listable(order.field)
    ensures ColumnOf(order.field).Some?
    ensures OrderOf(Clause(ColumnOf(order.field).value, order.direction), loc)(a, b)
       <==> if order.direction.Asc?
            then Lower(loc, order.field, a, b) || (Ties(loc, order.field, a, b) && a.id < b.id)
            else Lower(loc, order.field, b, a) || (Ties(loc, order.field, a, b) && a.id > b.id)
  {}

  lemma ListableIff(field: string)
    ensures ColumnOf(field).Some? <==> Listable(field)
  {}

  /** The listing under an allowlisted field holds exactly the products let through, in the order asked for. */
  lemma ListingMeans(table: seq<Product>, filter: Filter, order: By, loc: Locale)
    requires DistinctIds(table) && Listable(order.field)
    ensures ColumnOf(order.field).Some?
    ensures var listing := Listing(table, filter, Clause(ColumnOf(order.field).value, order.direction), loc);
            InOrder(loc, order, listing) && Within(loc, filter, table, listing) && !Misses(loc, filter, table, listing)
  {
    ListableIff(order.field);
    var clause := Clause(ColumnOf(order.field).value, order.direction);
    var listing := Listing(table, filter, clause, loc);
    ClauseIsTotal(clause, loc, table);
    SelectSelects(table, Matches(loc, filter), OrderOf(clause, loc));
    forall i, j | 0 <= i < j < |listing|
      ensures if order.direction.Asc?
              then Lower(loc, order.field, listing[i], listing[j])
                   || (Ties(loc, order.field, listing[i], listing[j]) && listing[i].id < listing[j].id)
              else Lower(loc, order.field, listing[j], listing[i])
                   || (Ties(loc, order.field, listing[i], listing[j]) && listing[i].id > listing[j].id)
    {
      assert OrderOf(clause, loc)(listing[i], listing[j]);
      OrderMeans(loc, order, listing[i], listing[j]);
    }
    assert Anywhere("") == "%%";
  }

  lemma SlicesKeep(loc: Locale, filter: Filter, order: By, table: seq<Product>, listing: seq<Product>, lo: nat, hi: nat)
    requires Listable(order.field) && InOrder(loc, order, listing) && Within(loc, filter, table, listing)
    requires lo <= hi <= |listing|
    ensures InOrder(loc, order, listing[lo..hi]) && Within(loc, filter, table, listing[lo..hi])
  {}

  lemma PageMeans(table: seq<Product>, filter: Filter, order: By, loc: Locale, page: nat, size: nat)
    requires Listable(order.field) && page >= 1
    ensures ColumnOf(order.field).Some?
    ensures var rows := OffsetPage(Listing(table, filter, Clause(ColumnOf(order.field).value, order.direction), loc), page, size);
            |rows| <= size && (DistinctIds(table) ==> InOrder(loc, order, rows) && Within(loc, filter, table, rows))
  {
    ListableIff(order.field);
    var listing := Listing(table, filter, Clause(ColumnOf(order.field).value, order.direction), loc);
    var offset := Offset(page, size);
    if DistinctIds(table) {
      ListingMeans(table, filter, order, loc);
      SlicesKeep(loc, filter, order, table, listing, Clip(offset, |listing|), Clip(offset + size, |listing|));
    }
  }

  lemma ReplyMeans(loc: Locale, table: seq<Product>, filter: Filter, key: string, limit: nat)
    requires limit >= 1
    ensures var r := CursorReply(loc, table, filter, key, limit);
            && (key == "" ==> r.Ok?)
            && (key != "" && '|' !in key ==> r == Err(BadCursor(MalformedKey)))
            && (r.Ok? ==> |r.value.items| <= limit && (r.value.next != "" ==> |r.value.items| == limit))
            && (r.Ok? && DistinctIds(table) ==> Descends(r.value.items) && Within(loc, filter, table, r.value.items))
  {
    OnlyTheEmptyKeyRestarts(key);
    assert '|' !in key ==> NoBar(key);
    if BoundaryOf(key).Ok? {
      PageIsWithin(loc, table, filter, BoundaryOf(key).value, limit);
    }
  }

  lemma PageIsWithin(loc: Locale, table: seq<Product>, filter: Filter, boundary: Option<Key>, limit: nat)
    requires limit >= 1
    ensures var p := PageAfter(table, Matches(loc, filter), boundary, limit);
            && |p.items| <= limit && (p.next.Some? ==> |p.items| == limit)
            && (DistinctIds(table) ==> Descends(p.items) && Within(loc, filter, table, p.items))
  {
    if DistinctIds(table) {
      PageMembers(table, Matches(loc, filter), boundary, limit);
      SortedDescends(PageAfter(table, Matches(loc, filter), boundary, limit).items);
    }
  }

  class Store {
    var rows: seq<Product>
    const loc: Locale

    constructor (rows: seq<Product>, loc: Locale)
      ensures this.rows == rows && this.loc == loc
    {
      this.rows := rows;
      this.loc := loc;
    }

    /** How many products the filter means. */
    method Count(filter: Filter) returns (n: nat)
      ensures n == CountKept(rows, Matches(loc, filter))
    {
      var data := new Params();
      var wc := WhereConditions(loc, filter, data);
      n := CountKept(rows, WhereHolds(loc, wc, data.bound));
      CountSame(rows, WhereHolds(loc, wc, data.bound), Matches(loc, filter));
    }

    /** One offset page of the listing, or an error when the field is not on the allowlist. */
    method Query(filter: Filter, order: By, page: nat, size: nat) returns (r: Result<seq<Product>, QueryError>)
      requires page >= 1
      ensures ColumnOf(order.field).None? ==> r == Err(UnknownField(order.field))
      ensures ColumnOf(order.field).Some? ==>
                r == Ok(OffsetPage(Listing(rows, filter, Clause(ColumnOf(order.field).value, order.direction), loc), page, size))
      ensures r.Ok? <==> order.field in {"created_at", "name", "price"}
      ensures r.Ok? ==> |r.value| <= size
      ensures r.Ok? && DistinctIds(rows) ==> InOrder(loc, order, r.value) && Within(loc, filter, rows, r.value)
    {
      var clause := OrderByClause(order);
      if clause.Err? {
        return Err(clause.error);
      }
      var data := new Params();
      var offset := Offset(page, size);
      data.Bind("offset", Number(offset));
      data.Bind("rows_per_page", Number(size));
      var wc := WhereConditions(loc, filter, data);
      var stmt := Statement(wc, clause.value, Some("offset"), "rows_per_page");
      OffsetRunMeans(stmt, data.bound, rows, loc, filter, page, size);
      var answer := Run(stmt, data.bound, rows, loc);
      ListableIff(order.field);
      PageMeans(rows, filter, order, loc, page, size);
      return Ok(answer.value);
    }

    /**
     The filter's conditions and, behind a key, the keyset predicate. They cannot be bound
     when the key's id is no uuid, and otherwise hold of the matching rows behind the key.
     */
    static method CursorConditions(ghost loc: Locale, filter: Filter, key: string, data: Params) returns (r: Result<seq<Condition>, QueryError>)
      requires FILTER_PARAMS + {"after_ts", "after_id"} !! data.bound.Keys
      modifies data
      ensures r.Err? ==> BoundaryOf(key) == Err(r.error)
      ensures r.Ok? ==> match BoundaryOf(key)
                        case Err(e) => e == Database && !AllBound(r.value, data.bound)
                        case Ok(boundary) =>
                          && AllBound(r.value, data.bound)
                          && forall p :: AllHold(loc, r.value, data.bound, p) <==> Reach(Matches(loc, filter), boundary)(p)
      ensures forall k | k in old(data.bound) :: k in data.bound && data.bound[k] == old(data.bound[k])
    {
      var wc := WhereConditions(loc, filter, data);
      if key == "" {
        NoKeyMeansNoBoundary(loc, filter);
        return Ok(wc);
      }
      var decoded := DecodeCursor(key);
      if decoded.Err? {
        return Err(BadCursor(decoded.error));
      }
      var (at, idText) := decoded.value;
      KeyConditionMeans(loc, wc, filter, data.bound, at, idText);
      data.Bind("after_ts", Time(at));
      data.Bind("after_id", Text(idText));
      return Ok(wc + [KeyBelow("after_ts", "after_id")]);
    }

    /** One keyset page and the key of the next, empty when there is none. */
    method QueryByCursor(filter: Filter, key: string, limit: nat) returns (r: Result<Reply<ProductBody>, QueryError>)
      requires limit >= 1
      ensures r == CursorReply(loc, rows, filter, key, limit)
      ensures key == "" ==> r.Ok?
      ensures key != "" && '|' !in key ==> r == Err(BadCursor(MalformedKey))
      ensures r.Ok? ==> |r.value.items| <= limit && (r.value.next != "" ==> |r.value.items| == limit)
      ensures r.Ok? && DistinctIds(rows) ==> Descends(r.value.items) && Within(loc, filter, rows, r.value.items)
    {
      ReplyMeans(loc, rows, filter, key, limit);
      var data := new Params();
      data.Bind("limit", Number(limit + 1));
      var wc := CursorConditions(loc, filter, key, data);
      if wc.Err? {
        return Err(wc.error);
      }
      var stmt := Statement(wc.value, KEYSET_ORDER, None, "limit");
      var answer := Run(stmt, data.bound, rows, loc);
      if BoundaryOf(key).Ok? {
        KeysetClause(loc);
        RunMeans(stmt, data.bound, rows, loc, Reach(Matches(loc, filter), BoundaryOf(key).value), NewestFirst, 0, limit + 1);
      }
      if answer.None? {
        return Err(Database);
      }
      var page := Trim(answer.value, limit);
      TrimmedIsPage(rows, Matches(loc, filter), BoundaryOf(key).value, limit, answer.value, page);
      var next := "";
      if page.next.Some? {
        next := KeyText(page.next.value);
      }
      return Ok(Reply(page.items, next));
    }

    /** Drops the look-ahead row and keeps the key of the last row left, when the fetch went beyond the limit. */
    static method Trim(fetched: seq<Product>, limit: nat) returns (page: Page<ProductBody>)
      requires limit >= 1
      ensures Trims(page, fetched, limit)
    {
      var found, next := fetched, None;
      if |found| > limit {
        found := found[..limit];
        next := Some(KeyOf(found[|found| - 1]));
      }
      return Page(found, next);
    }
  }
}
