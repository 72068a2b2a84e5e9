/**
 A cursor walk whose pages are fetched one by one from a table that changes in between. The
 next keys cut the key space into one interval a page; a page returns the matching rows
 that were in the table, at its fetch, with a key in its interval.
 */
module ConcurrentWalk {
  import opened Outcomes
  import opened Calendar
  import opened CursorCodec
  import opened Selections
  import opened OffsetPages
  import opened Keyset

  function Boundary<B>(pages: seq<Page<B>>, i: nat): Option<Key>
    requires i <= |pages|
  {
    if i == 0 then None else pages[i - 1].next
  }

  /** Page i was fetched from tables[i], behind the next key of the page before it. */
  ghost predicate FetchedFrom<B>(
      tables: seq<seq<Row<B>>>, pages: seq<Page<B>>, matches: Row<B> -> bool, limit: nat, i: nat)
    requires limit >= 1 && i < |pages| == |tables|
  {
    pages[i] == PageAfter(tables[i], matches, Boundary(pages, i), limit)
  }

  ghost predicate IsWalk<B>(tables: seq<seq<Row<B>>>, pages: seq<Page<B>>, matches: Row<B> -> bool, limit: nat) {
    && limit >= 1 && |tables| == |pages|
    && (forall i | 0 <= i < |tables| :: DistinctIds(tables[i]))
    && (forall i: nat | i < |pages| :: FetchedFrom(tables, pages, matches, limit, i))
    && (forall i | 0 <= i < |pages| - 1 :: pages[i].next.Some?)
  }

  /** The walk has followed every next key there was. */
  ghost predicate Ended<B>(pages: seq<Page<B>>) {
    |pages| >= 1 && pages[|pages| - 1].next.None?
  }

  /** Key k lies in the interval of page i. */
  predicate Covers<B>(pages: seq<Page<B>>, i: nat, k: Key)
    requires i < |pages|
  {
    Past(k, Boundary(pages, i)) && (pages[i].next.Some? ==> !Past(k, pages[i].next))
  }

  lemma PageHolds<B(!new)>(tables: seq<seq<Row<B>>>, pages: seq<Page<B>>, matches: Row<B> -> bool, limit: nat, i: nat)
    requires IsWalk(tables, pages, matches, limit) && i < |pages|
    ensures forall r :: r in pages[i].items <==> r in tables[i] && matches(r) && Covers(pages, i, KeyOf(r))
    ensures Sorted(pages[i].items, NewestFirst)
    ensures pages[i].next.Some? ==> Past(pages[i].next.value, Boundary(pages, i))
  {
    assert FetchedFrom(tables, pages, matches, limit, i);
    PageMembers(tables[i], matches, Boundary(pages, i), limit);
  }

  predicate StepsDown<B>(pages: seq<Page<B>>, i: nat)
    requires i < |pages|
  {
    i > 0 && pages[i].next.Some? ==> Past(pages[i].next.value, pages[i - 1].next)
  }

  /** Each next key but the last exists and lies strictly past the one before it. */
  ghost predicate KeysStepDown<B>(pages: seq<Page<B>>) {
    && (forall i | 0 <= i < |pages| - 1 :: pages[i].next.Some?)
    && (forall i: nat | i < |pages| :: StepsDown(pages, i))
  }

  lemma WalkStepsDown<B(!new)>(
      tables: seq<seq<Row<B>>>, pages: seq<Page<B>>, matches: Row<B> -> bool, limit: nat)
    requires IsWalk(tables, pages, matches, limit)
    ensures KeysStepDown(pages)
  {
    forall i: nat | i < |pages|
      ensures StepsDown(pages, i)
    {
      PageHolds(tables, pages, matches, limit, i);
    }
  }

  lemma {:induction false} LaterKeyIsBelow<B>(pages: seq<Page<B>>, i: nat, j: nat, k: Key)
    requires KeysStepDown(pages) && i <= j < |pages| && pages[j].next.Some? && Past(k, pages[j].next)
    ensures pages[i].next.Some? && Past(k, pages[i].next)
    decreases j
  {
    if i == j {
    } else {
      assert StepsDown(pages, j);
      LaterKeyIsBelow(pages, i, j - 1, k);
    }
  }

  lemma EarlierKeyIsAbove<B>(pages: seq<Page<B>>, i: nat, j: nat, k: Key)
    requires KeysStepDown(pages) && i < j < |pages| && Covers(pages, j, k)
    ensures pages[i].next.Some? && Past(k, pages[i].next)
  {
    LaterKeyIsBelow(pages, i, j - 1, k);
  }

  /** The first page, from page i on, whose interval does not lie wholly above k. */
  function PageFor<B>(pages: seq<Page<B>>, k: Key, i: nat): (j: nat)
    requires Ended(pages) && i < |pages| && Past(k, Boundary(pages, i))
    ensures j < |pages| && Covers(pages, j, k)
    decreases |pages| - i
  {
    if pages[i].next.None? || !Past(k, pages[i].next) then i else PageFor(pages, k, i + 1)
  }

  /**
   The intervals of an ended walk partition the keys: every key belongs to one page and no
   other. A row is returned, and by that page alone, exactly when it was in the table and
   matched at the moment that page was fetched. Nothing is assumed of how tables[i] and
   tables[j] relate.
   */
  lemma ReturnedIffPresentAtItsPage<B(!new)>(
      tables: seq<seq<Row<B>>>, pages: seq<Page<B>>, matches: Row<B> -> bool, limit: nat, r: Row<B>)
    requires IsWalk(tables, pages, matches, limit) && Ended(pages)
    ensures var j := PageFor(pages, KeyOf(r), 0);
            && (r in pages[j].items <==> r in tables[j] && matches(r))
            && forall i | 0 <= i < |pages| && i != j ::
                 !Covers(pages, i, KeyOf(r)) && r !in pages[i].items
  {
    var j := PageFor(pages, KeyOf(r), 0);
    PageHolds(tables, pages, matches, limit, j);
    WalkStepsDown(tables, pages, matches, limit);
    forall i | 0 <= i < |pages| && i != j
      ensures !Covers(pages, i, KeyOf(r)) && r !in pages[i].items
    {
      PageHolds(tables, pages, matches, limit, i);
      if Covers(pages, i, KeyOf(r)) {
        var lo, hi := if i < j then i else j, if i < j then j else i;
        EarlierKeyIsAbove(pages, lo, hi, KeyOf(r));
        assert false;
      }
    }
  }

  // ---- the output as a whole ----

  lemma {:induction false} InSomePage<B(!new)>(pages: seq<Page<B>>, r: Row<B>)
    ensures r in Concat(Items(pages)) <==> exists i :: 0 <= i < |pages| && r in pages[i].items
  {
    if pages == [] {
    } else {
      InSomePage(pages[1..], r);
      assert Items(pages)[1..] == Items(pages[1..]);
      if i :| 0 <= i < |pages| && r in pages[i].items {
        assert i > 0 ==> pages[1..][i - 1] == pages[i];
      }
    }
  }

  lemma SortedJoin<B(!new)>(s: seq<Row<B>>, t: seq<Row<B>>)
    requires Sorted(s, NewestFirst) && Sorted(t, NewestFirst)
    requires forall a, b :: a in s && b in t ==> NewestFirst(a, b)
    ensures Sorted(s + t, NewestFirst)
  {
    forall i, j | 0 <= i < j < |s + t|
      ensures NewestFirst((s + t)[i], (s + t)[j])
    {
      if i < |s| && j >= |s| {
        assert s[i] in s && t[j - |s|] in t;
      }
    }
  }

  /** Each page is in order and keeps to its interval. */
  ghost predicate KeepToIntervals<B(!new)>(pages: seq<Page<B>>) {
    && (forall i | 0 <= i < |pages| :: Sorted(pages[i].items, NewestFirst))
    && (forall i, r | 0 <= i < |pages| && r in pages[i].items :: Covers(pages, i, KeyOf(r)))
  }

  lemma LaterPageIsOlder<B(!new)>(pages: seq<Page<B>>, i: nat, j: nat, a: Row<B>, b: Row<B>)
    requires KeysStepDown(pages) && i < j < |pages|
    requires Covers(pages, i, KeyOf(a)) && Covers(pages, j, KeyOf(b))
    ensures NewestFirst(a, b)
  {
    EarlierKeyIsAbove(pages, i, j, KeyOf(b));
  }

  lemma LaterOutputIsOlder<B(!new)>(pages: seq<Page<B>>, from: nat, a: Row<B>, b: Row<B>)
    requires KeysStepDown(pages) && KeepToIntervals(pages) && from < |pages|
    requires a in pages[from].items && b in Concat(Items(pages[from + 1..]))
    ensures NewestFirst(a, b)
  {
    InSomePage(pages[from + 1..], b);
    var i :| 0 <= i < |pages[from + 1..]| && b in pages[from + 1..][i].items;
    assert b in pages[from + 1 + i].items;
    LaterPageIsOlder(pages, from, from + 1 + i, a, b);
  }

  lemma {:induction false} OutputSortedFrom<B(!new)>(pages: seq<Page<B>>, from: nat)
    requires KeysStepDown(pages) && KeepToIntervals(pages) && from <= |pages|
    ensures Sorted(Concat(Items(pages[from..])), NewestFirst)
    decreases |pages| - from
  {
    if from == |pages| {
    } else {
      OutputSortedFrom(pages, from + 1);
      var here, later := pages[from].items, Concat(Items(pages[from + 1..]));
      assert Items(pages[from..])[1..] == Items(pages[from + 1..]);
      assert Concat(Items(pages[from..])) == here + later;
      forall a, b | a in here && b in later
        ensures NewestFirst(a, b)
      {
        LaterOutputIsOlder(pages, from, a, b);
      }
      SortedJoin(here, later);
    }
  }

  lemma WalkKeepsToIntervals<B(!new)>(
      tables: seq<seq<Row<B>>>, pages: seq<Page<B>>, matches: Row<B> -> bool, limit: nat)
    requires IsWalk(tables, pages, matches, limit)
    ensures KeepToIntervals(pages)
  {
    forall i | 0 <= i < |pages|
      ensures Sorted(pages[i].items, NewestFirst)
      ensures forall r | r in pages[i].items :: Covers(pages, i, KeyOf(r))
    {
      PageHolds(tables, pages, matches, limit, i);
    }
  }

  /** Newer rows come first, and of rows of one time those with a greater id. */
  ghost predicate Descends<B>(rows: seq<Row<B>>) {
    forall i, j | 0 <= i < j < |rows| ::
      rows[i].createdAt > rows[j].createdAt || (rows[i].createdAt == rows[j].createdAt && rows[i].id > rows[j].id)
  }

  lemma SortedDescends<B(!new)>(rows: seq<Row<B>>)
    ensures Sorted(rows, NewestFirst) <==> Descends(rows)
  {
    if Sorted(rows, NewestFirst) {
      forall i, j | 0 <= i < j < |rows|
        ensures rows[i].createdAt > rows[j].createdAt || (rows[i].createdAt == rows[j].createdAt && rows[i].id > rows[j].id)
      {
        assert NewestFirst(rows[i], rows[j]);
      }
    }
  }

  /** However the table changes between fetches, the output strictly descends in (created_at, id). */
  lemma OutputDescends<B(!new)>(tables: seq<seq<Row<B>>>, pages: seq<Page<B>>, matches: Row<B> -> bool, limit: nat)
    requires IsWalk(tables, pages, matches, limit)
    ensures Sorted(Concat(Items(pages)), NewestFirst) && Descends(Concat(Items(pages)))
  {
    SortedDescends(Concat(Items(pages)));
    WalkStepsDown(tables, pages, matches, limit);
    WalkKeepsToIntervals(tables, pages, matches, limit);
    OutputSortedFrom(pages, 0);
    assert pages[0..] == pages;
  }

  /** No id is seen with two creation times, in one table or in two. */
  ghost predicate KeysFixed<B>(tables: seq<seq<Row<B>>>) {
    forall i, j, a, b | 0 <= i < |tables| && 0 <= j < |tables| && a in tables[i] && b in tables[j] && a.id == b.id ::
      a.createdAt == b.createdAt
  }

  /** The output holds the id at place n and nowhere else. */
  ghost predicate OnlyAt<B>(output: seq<Row<B>>, id: Uuid, n: nat) {
    n < |output| && output[n].id == id && forall m | 0 <= m < |output| && output[m].id == id :: m == n
  }

  lemma OutputFromTables<B(!new)>(
      tables: seq<seq<Row<B>>>, pages: seq<Page<B>>, matches: Row<B> -> bool, limit: nat, r: Row<B>)
    requires IsWalk(tables, pages, matches, limit) && r in Concat(Items(pages))
    ensures exists i :: 0 <= i < |tables| && r in tables[i] && matches(r)
  {
    InSomePage(pages, r);
    var i :| 0 <= i < |pages| && r in pages[i].items;
    PageHolds(tables, pages, matches, limit, i);
  }

  /** With creation times fixed, no id is returned twice, not even in two versions of its row. */
  lemma NoIdTwice<B(!new)>(
      tables: seq<seq<Row<B>>>, pages: seq<Page<B>>, matches: Row<B> -> bool, limit: nat)
    requires IsWalk(tables, pages, matches, limit) && KeysFixed(tables)
    ensures DistinctIds(Concat(Items(pages)))
  {
    var output := Concat(Items(pages));
    OutputDescends(tables, pages, matches, limit);
    forall m, n | 0 <= m < n < |output|
      ensures output[m].id != output[n].id
    {
      assert NewestFirst(output[m], output[n]);
      OutputFromTables(tables, pages, matches, limit, output[m]);
      OutputFromTables(tables, pages, matches, limit, output[n]);
    }
  }

  ghost predicate ReturnedOnce<B>(pages: seq<Page<B>>, id: Uuid) {
    exists n :: OnlyAt(Concat(Items(pages)), id, n)
  }

  ghost predicate HasMatch<B>(rows: seq<Row<B>>, matches: Row<B> -> bool, id: Uuid) {
    exists r | r in rows :: r.id == id && matches(r)
  }

  lemma StayingIdReturned<B(!new)>(
      tables: seq<seq<Row<B>>>, pages: seq<Page<B>>, matches: Row<B> -> bool, limit: nat, id: Uuid)
    requires IsWalk(tables, pages, matches, limit) && Ended(pages) && KeysFixed(tables)
    requires forall i | 0 <= i < |tables| :: HasMatch(tables[i], matches, id)
    ensures exists n :: 0 <= n < |Concat(Items(pages))| && Concat(Items(pages))[n].id == id
  {
    assert HasMatch(tables[0], matches, id);
    var r0 :| r0 in tables[0] && r0.id == id && matches(r0);
    var j := PageFor(pages, KeyOf(r0), 0);
    assert HasMatch(tables[j], matches, id);
    var r :| r in tables[j] && r.id == id && matches(r);
    assert KeyOf(r) == KeyOf(r0);
    ReturnedIffPresentAtItsPage(tables, pages, matches, limit, r);
    InSomePage(pages, r);
    var n :| 0 <= n < |Concat(Items(pages))| && Concat(Items(pages))[n] == r;
  }

  /** Every id present with a matching row at every fetch of an ended walk is returned, once. */
  lemma StayingIdReturnedOnce<B(!new)>(
      tables: seq<seq<Row<B>>>, pages: seq<Page<B>>, matches: Row<B> -> bool, limit: nat, id: Uuid)
    requires IsWalk(tables, pages, matches, limit) && Ended(pages) && KeysFixed(tables)
    requires forall i | 0 <= i < |tables| :: HasMatch(tables[i], matches, id)
    ensures ReturnedOnce(pages, id)
  {
    StayingIdReturned(tables, pages, matches, limit, id);
    var output := Concat(Items(pages));
    var n :| 0 <= n < |output| && output[n].id == id;
    NoIdTwice(tables, pages, matches, limit);
    assert OnlyAt(output, id, n);
  }

  // ---- walks over a table at rest ----

  lemma {:induction false} WalkStep<B(!new)>(
      rows: seq<Row<B>>, matches: Row<B> -> bool, boundary: Option<Key>, limit: nat, i: nat)
    requires DistinctIds(rows) && limit >= 1 && i < |Walk(rows, matches, boundary, limit)|
    ensures var pages := Walk(rows, matches, boundary, limit);
            && pages[i] == PageAfter(rows, matches, if i == 0 then boundary else pages[i - 1].next, limit)
            && (pages[i].next.Some? <==> i < |pages| - 1)
    decreases i
  {
    var p := PageAfter(rows, matches, boundary, limit);
    if i == 0 {
      assert Walk(rows, matches, boundary, limit)[0] == p;
    } else {
      WalkStep(rows, matches, p.next, limit, i - 1);
    }
  }

  /** Walking a table at rest is a walk whose every page is fetched from that table, to the end. */
  lemma WalkIsWalk<B(!new)>(rows: seq<Row<B>>, tables: seq<seq<Row<B>>>, matches: Row<B> -> bool, limit: nat)
    requires DistinctIds(rows) && limit >= 1 && |tables| == |Walk(rows, matches, None, limit)|
    requires forall i | 0 <= i < |tables| :: tables[i] == rows
    ensures IsWalk(tables, Walk(rows, matches, None, limit), matches, limit) && Ended(Walk(rows, matches, None, limit))
  {
    var pages := Walk(rows, matches, None, limit);
    forall i: nat | i < |pages|
      ensures FetchedFrom(tables, pages, matches, limit, i) && (pages[i].next.Some? <==> i < |pages| - 1)
    {
      WalkStep(rows, matches, None, limit, i);
    }
  }

  /** Two walks whose pages were all fetched from one table return the same pages, as far as one goes. */
  lemma {:induction false} SamePages<B(!new)>(
      rows: seq<Row<B>>, tables: seq<seq<Row<B>>>, a: seq<Page<B>>, more: seq<seq<Row<B>>>, b: seq<Page<B>>,
      matches: Row<B> -> bool, limit: nat, i: nat)
    requires IsWalk(tables, a, matches, limit) && IsWalk(more, b, matches, limit) && Ended(b)
    requires (forall j | 0 <= j < |tables| :: tables[j] == rows) && forall j | 0 <= j < |more| :: more[j] == rows
    requires i < |a|
    ensures i < |b| && a[i] == b[i]
    decreases i
  {
    if i == 0 {
      assert Boundary(a, 0) == Boundary(b, 0);
    } else {
      SamePages(rows, tables, a, more, b, matches, limit, i - 1);
      assert a[i - 1].next.Some?;
      assert Boundary(a, i) == Boundary(b, i);
    }
    assert FetchedFrom(tables, a, matches, limit, i) && FetchedFrom(more, b, matches, limit, i);
  }

  /** An ended walk whose pages were all fetched from one table is the walk over it at rest. */
  lemma EndedWalkIsWalk<B(!new)>(
      rows: seq<Row<B>>, tables: seq<seq<Row<B>>>, pages: seq<Page<B>>, matches: Row<B> -> bool, limit: nat)
    requires IsWalk(tables, pages, matches, limit) && Ended(pages) && DistinctIds(rows)
    requires forall i | 0 <= i < |tables| :: tables[i] == rows
    ensures pages == Walk(rows, matches, None, limit)
  {
    var walk := Walk(rows, matches, None, limit);
    var resting := seq(|walk|, i => rows);
    WalkIsWalk(rows, resting, matches, limit);
    SamePages(rows, resting, walk, tables, pages, matches, limit, |walk| - 1);
    forall i | 0 <= i < |pages|
      ensures i < |walk| && pages[i] == walk[i]
    {
      SamePages(rows, tables, pages, resting, walk, matches, limit, i);
    }
  }
}
