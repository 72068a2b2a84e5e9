/**
 How the product store's reads agree: keyset walks with offset pages and the count, a
 listing with itself under any physical order of the table, and the text tokens of a walk
 with the boundaries they stand for.
 */
module ProductListings {
  import opened Outcomes
  import opened Calendar
  import opened CursorCodec
  import opened TextSearch
  import opened OffsetPages
  import opened Selections
  import opened Keyset
  import opened ConcurrentWalk
  import opened TokenWalks
  import opened CursorTokens
  import opened ProductQueries

  /**
   Two tables with the same rows, however the database lays them out, list the same under
   every filter and clause, count the same, and answer every cursor request the same.
   */
  lemma PhysicalOrderIrrelevant(
      rows1: seq<Product>, rows2: seq<Product>, filter: Filter, clause: Clause, loc: Locale,
      key: string, limit: nat)
    requires DistinctIds(rows1) && DistinctIds(rows2) && limit >= 1
    requires forall r :: r in rows1 <==> r in rows2
    ensures Listing(rows1, filter, clause, loc) == Listing(rows2, filter, clause, loc)
    ensures CountKept(rows1, Matches(loc, filter)) == CountKept(rows2, Matches(loc, filter))
    ensures CursorReply(loc, rows1, filter, key, limit) == CursorReply(loc, rows2, filter, key, limit)
  {
    var before := OrderOf(clause, loc);
    ClauseIsTotal(clause, loc, rows1);
    ClauseIsTotal(clause, loc, rows2);
    SelectSelects(rows1, Matches(loc, filter), before);
    SelectionUnique(Listing(rows1, filter, clause, loc), rows2, Matches(loc, filter), before);
    SelectLength(rows1, Matches(loc, filter), before);
    SelectLength(rows2, Matches(loc, filter), before);
    if BoundaryOf(key).Ok? {
      SameRest(rows1, rows2, Matches(loc, filter), BoundaryOf(key).value);
    }
  }

  lemma SameRest(rows1: seq<Product>, rows2: seq<Product>, matches: Product -> bool, boundary: Option<Key>)
    requires DistinctIds(rows1) && DistinctIds(rows2)
    requires forall r :: r in rows1 <==> r in rows2
    ensures Rest(rows1, matches, boundary) == Rest(rows2, matches, boundary)
  {
    RestIs(rows1, matches, boundary);
    KeysOrderRows(rows2);
    SelectionUnique(Rest(rows1, matches, boundary), rows2, Reach(matches, boundary), NewestFirst);
  }

  lemma ListingIs(rows: seq<Product>, filter: Filter, clause: Clause, loc: Locale)
    requires DistinctIds(rows)
    ensures var listing := Listing(rows, filter, clause, loc);
            && |listing| == CountKept(rows, Matches(loc, filter))
            && DistinctIds(listing) && forall r :: r in listing <==> r in rows && Satisfies(loc, filter, r)
  {
    var before := OrderOf(clause, loc);
    var listing := Listing(rows, filter, clause, loc);
    ClauseIsTotal(clause, loc, rows);
    SelectSelects(rows, Matches(loc, filter), before);
    SelectLength(rows, Matches(loc, filter), before);
    forall i, j | 0 <= i < j < |listing|
      ensures listing[i].id != listing[j].id
    {
      assert before(listing[i], listing[j]);
      assert listing[i] in listing && listing[j] in listing;
      var m :| 0 <= m < |rows| && rows[m] == listing[i];
      var n :| 0 <= n < |rows| && rows[n] == listing[j];
    }
  }

  /**
   The offset pages of a listing, as many as its count fills, hold every matching row once:
   joined they are the listing, which has no id twice and is as long as Count says.
   */
  lemma OffsetPagesPartition(rows: seq<Product>, filter: Filter, clause: Clause, loc: Locale, size: nat)
    requires DistinctIds(rows) && size >= 1
    ensures var listing := Listing(rows, filter, clause, loc); var pages := Chunks(listing, size);
            && Concat(pages) == listing && |listing| == CountKept(rows, Matches(loc, filter))
            && DistinctIds(listing) && (forall r :: r in listing <==> r in rows && Satisfies(loc, filter, r))
            && |pages| == PageCount(|listing|, size)
            && forall k | 0 <= k < |pages| :: pages[k] == OffsetPage(listing, k + 1, size)
  {
    var listing := Listing(rows, filter, clause, loc);
    ListingIs(rows, filter, clause, loc);
    ChunksJoin(listing, size);
    ChunkCount(listing, size);
    forall k | 0 <= k < |Chunks(listing, size)|
      ensures Chunks(listing, size)[k] == OffsetPage(listing, k + 1, size)
    {
      ChunkIsOffsetPage(listing, size, k);
    }
  }

  /** The default order of the offset listing is the keyset order. */
  lemma DefaultListing(rows: seq<Product>, filter: Filter, loc: Locale)
    ensures Listing(rows, filter, OrderByClause(DEFAULT_ORDER).value, loc) == Rest(rows, Matches(loc, filter), None)
  {
    KeysetClause(loc);
    NoKeyMeansNoBoundary(loc, filter);
    SelectSame(rows, Matches(loc, filter), Reach(Matches(loc, filter), None), OrderOf(KEYSET_ORDER, loc), NewestFirst);
  }

  /**
   On a table at rest a walk visits the pages the offset query returns in its default order,
   page by page, and stops after returning as many products as the count.
   */
  lemma WalkAgreesWithOffsetAndCount(rows: seq<Product>, filter: Filter, loc: Locale, limit: nat)
    requires DistinctIds(rows) && limit >= 1
    ensures var listing := Listing(rows, filter, OrderByClause(DEFAULT_ORDER).value, loc);
            var pages := Walk(rows, Matches(loc, filter), None, limit);
            && Concat(Items(pages)) == listing
            && |listing| == CountKept(rows, Matches(loc, filter))
            && |pages| == PageCount(|listing|, limit)
            && forall k | 0 <= k < |pages| :: pages[k].items == OffsetPage(listing, k + 1, limit)
  {
    WalkIsListing(rows, Matches(loc, filter), limit);
    DefaultListing(rows, filter, loc);
    SelectLength(rows, Matches(loc, filter), OrderOf(KEYSET_ORDER, loc));
  }

  /** A filter by a name means a case-insensitive substring of the name exactly when the name is plain. */
  lemma NameFilterIff(loc: Locale, name: string)
    requires IsFold(loc.fold)
    ensures (forall p :: Satisfies(loc, Filter(Some(name), None, None), p)
                         <==> Occurs(Folded(loc.fold, name), Folded(loc.fold, p.body.name)))
            <==> Plain(name)
  {
    SubstringSearchIffPlain(loc.fold, name);
    if !Plain(name) {
      var text := SpecialFindsMore(loc.fold, name);
      var p := Row(0, 0, 0, ProductBody(text, 0));
      assert Satisfies(loc, Filter(Some(name), None, None), p);
      assert p.body.name == text;
    }
  }

  // ---- tokens ----

  /**
   On a table at rest a client that follows the tokens gets, request by request, the pages the
   offset query returns in its default order, and gets the empty token after as many replies
   as the count fills.
   */
  lemma TokensAgreeWithOffsetAndCount(
      rows: seq<Product>, filter: Filter, loc: Locale, replies: seq<Reply<ProductBody>>, limit: nat)
    requires DistinctIds(rows) && limit >= 1
    requires Complete(CURSOR_TOKENS, rows, replies, Matches(loc, filter), limit)
    ensures var listing := Listing(rows, filter, OrderByClause(DEFAULT_ORDER).value, loc);
            && Outputs(replies) == listing
            && |replies| == PageCount(CountKept(rows, Matches(loc, filter)), limit)
            && forall k | 0 <= k < |replies| :: replies[k].items == OffsetPage(listing, k + 1, limit)
  {
    var pages := Walk(rows, Matches(loc, filter), None, limit);
    TokensLegible();
    CompleteIsWalk(CURSOR_TOKENS, Readable(), rows, replies, Matches(loc, filter), limit);
    OutputsAreItems(CURSOR_TOKENS, replies, pages);
    WalkAgreesWithOffsetAndCount(rows, filter, loc, limit);
  }

  /** The n-th page of a listing has rows behind it. */
  predicate PageLeavesRows(listing: seq<Product>, n: nat, limit: nat) {
    n >= 1 && n * limit < |listing|
  }

  /** The row that ends the n-th page was created in a year of four digits. */
  predicate PageEndsReadable(listing: seq<Product>, n: nat, limit: nat)
    requires limit >= 1 && PageLeavesRows(listing, n, limit)
  {
    TimesMonotone(1, n, limit);
    FourDigitYear(listing[n * limit - 1].createdAt)
  }

  /** Page k has a next key exactly when it is not the last one and rows are left, and it is readable when the row is. */
  ghost predicate KeyFits(listing: seq<Product>, pages: seq<Page<ProductBody>>, limit: nat, k: nat)
    requires limit >= 1 && k < |pages|
  {
    && (pages[k].next.Some? <==> PageLeavesRows(listing, k + 1, limit))
    && (pages[k].next.Some? <==> k < |pages| - 1)
    && (pages[k].next.Some? ==> (FourDigitYear(pages[k].next.value.at) <==> PageEndsReadable(listing, k + 1, limit)))
  }

  lemma KeysFit(rows: seq<Product>, matches: Product -> bool, limit: nat, k: nat)
    requires DistinctIds(rows) && limit >= 1 && k < |Walk(rows, matches, None, limit)|
    ensures KeyFits(Rest(rows, matches, None), Walk(rows, matches, None, limit), limit, k)
  {
    NextKeyAt(rows, matches, None, limit, k);
    WalkStep(rows, matches, None, limit, k);
  }

  lemma GoodIffFits(listing: seq<Product>, pages: seq<Page<ProductBody>>, limit: nat)
    requires limit >= 1 && forall k: nat | k < |pages| :: KeyFits(listing, pages, limit, k)
    requires forall n: nat | PageLeavesRows(listing, n, limit) :: n - 1 < |pages|
    ensures AllGood(Readable(), pages)
            <==> forall n: nat | PageLeavesRows(listing, n, limit) :: PageEndsReadable(listing, n, limit)
  {
    if AllGood(Readable(), pages) {
      forall n: nat | PageLeavesRows(listing, n, limit)
        ensures PageEndsReadable(listing, n, limit)
      {
        assert KeyFits(listing, pages, limit, n - 1);
        assert Readable()(pages[n - 1].next.value);
      }
    }
    if forall n: nat | PageLeavesRows(listing, n, limit) :: PageEndsReadable(listing, n, limit) {
      forall k | 0 <= k < |pages| - 1
        ensures pages[k].next.Some? && Readable()(pages[k].next.value)
      {
        assert KeyFits(listing, pages, limit, k);
        assert PageEndsReadable(listing, k + 1, limit);
      }
    }
  }

  lemma GoodIffReadable(rows: seq<Product>, matches: Product -> bool, limit: nat)
    requires DistinctIds(rows) && limit >= 1
    ensures var listing := Rest(rows, matches, None);
            AllGood(Readable(), Walk(rows, matches, None, limit))
            <==> forall n: nat | PageLeavesRows(listing, n, limit) :: PageEndsReadable(listing, n, limit)
  {
    var listing, pages := Rest(rows, matches, None), Walk(rows, matches, None, limit);
    forall k: nat | k < |pages|
      ensures KeyFits(listing, pages, limit, k)
    {
      KeysFit(rows, matches, limit, k);
    }
    forall n: nat | PageLeavesRows(listing, n, limit)
      ensures n - 1 < |pages|
    {
      WalkReaches(rows, matches, None, limit, n);
    }
    GoodIffFits(listing, pages, limit);
  }

  /**
   Such a client reaches the empty token exactly when every row that ends a page with rows
   behind it was created in a year of four digits.
   */
  lemma TokensLeadToTheEndIff(rows: seq<Product>, filter: Filter, loc: Locale, limit: nat)
    requires DistinctIds(rows) && limit >= 1
    ensures var listing := Listing(rows, filter, OrderByClause(DEFAULT_ORDER).value, loc);
            (exists replies :: Complete(CURSOR_TOKENS, rows, replies, Matches(loc, filter), limit))
            <==> forall n: nat | PageLeavesRows(listing, n, limit) :: PageEndsReadable(listing, n, limit)
  {
    TokensLegible();
    CompleteIff(CURSOR_TOKENS, Readable(), rows, Matches(loc, filter), limit);
    DefaultListing(rows, filter, loc);
    GoodIffReadable(rows, Matches(loc, filter), limit);
  }
}
