/** Keyset pagination over a table of rows: one page, and a walk over a table at rest. */
module Keyset {
  import opened Outcomes
  import opened Calendar
  import opened CursorCodec
  import opened OffsetPages
  import opened Selections

  datatype Row<B> = Row(id: Uuid, createdAt: Instant, updatedAt: Instant, body: B)

  datatype Key = Key(at: Instant, id: Uuid)

  datatype Page<B> = Page(items: seq<Row<B>>, next: Option<Key>)

  function KeyOf<B>(r: Row<B>): Key {
    Key(r.createdAt, r.id)
  }

  /** SQL's row comparison (created_at, id) < (at, id). */
  predicate Below(k: Key, b: Key) {
    k.at < b.at || (k.at == b.at && k.id < b.id)
  }

  predicate Past(k: Key, boundary: Option<Key>) {
    boundary.None? || Below(k, boundary.value)
  }

  /** ORDER BY created_at DESC, id DESC. */
  predicate NewestFirst<B>(a: Row<B>, b: Row<B>) {
    Below(KeyOf(b), KeyOf(a))
  }

  function Reach<B>(matches: Row<B> -> bool, boundary: Option<Key>): Row<B> -> bool {
    r => matches(r) && Past(KeyOf(r), boundary)
  }

  ghost predicate DistinctIds<B>(rows: seq<Row<B>>) {
    forall i, j | 0 <= i < j < |rows| :: rows[i].id != rows[j].id
  }

  lemma KeysOrderRows<B(!new)>(rows: seq<Row<B>>)
    requires DistinctIds(rows)
    ensures StrictOrder<Row<B>>(NewestFirst) && Comparable(rows, NewestFirst)
  {}

  /** Every row a listing has yet to return behind its boundary. */
  function Rest<B>(rows: seq<Row<B>>, matches: Row<B> -> bool, boundary: Option<Key>): seq<Row<B>> {
    Select(rows, Reach(matches, boundary), NewestFirst)
  }

  /** One page: the look-ahead row decides whether there is a next key and is not returned. */
  function PageAfter<B>(rows: seq<Row<B>>, matches: Row<B> -> bool, boundary: Option<Key>, limit: nat): Page<B>
    requires limit >= 1
  {
    var rest := Rest(rows, matches, boundary);
    if |rest| > limit then Page(rest[..limit], Some(KeyOf(rest[limit - 1]))) else Page(rest, None)
  }

  // ---- one page ----

  lemma RestIs<B(!new)>(rows: seq<Row<B>>, matches: Row<B> -> bool, boundary: Option<Key>)
    requires DistinctIds(rows)
    ensures IsSelection(Rest(rows, matches, boundary), rows, Reach(matches, boundary), NewestFirst)
  {
    KeysOrderRows(rows);
    SelectSelects(rows, Reach(matches, boundary), NewestFirst);
  }

  /** Behind the key of the n-th row of a listing lie exactly the rows after it. */
  lemma RestBehind<B(!new)>(rows: seq<Row<B>>, matches: Row<B> -> bool, boundary: Option<Key>, n: nat)
    requires DistinctIds(rows) && 1 <= n <= |Rest(rows, matches, boundary)|
    ensures Rest(rows, matches, Some(KeyOf(Rest(rows, matches, boundary)[n - 1]))) == Rest(rows, matches, boundary)[n..]
  {
    var rest := Rest(rows, matches, boundary);
    var next := Some(KeyOf(rest[n - 1]));
    RestIs(rows, matches, boundary);
    KeysOrderRows(rows);
    var tail := rest[n..];
    forall r
      ensures r in tail <==> r in rows && Reach(matches, next)(r)
    {
      if r in tail {
        var i :| 0 <= i < |tail| && tail[i] == r;
        assert r == rest[n + i] && NewestFirst(rest[n - 1], rest[n + i]);
      }
      if r in rows && Reach(matches, next)(r) {
        assert rest[n - 1] in rest;
        assert r in rest;
        var i :| 0 <= i < |rest| && rest[i] == r;
        assert tail[i - n] == r;
      }
    }
    SelectionUnique(tail, rows, Reach(matches, next), NewestFirst);
  }

  /**
   A next key is returned exactly when a matching row lies strictly past every returned row;
   the page is then full, and the rows behind the key are the listing without the page.
   */
  lemma LookAheadExact<B(!new)>(rows: seq<Row<B>>, matches: Row<B> -> bool, boundary: Option<Key>, limit: nat)
    requires DistinctIds(rows) && limit >= 1
    ensures var p := PageAfter(rows, matches, boundary, limit);
            && (p.next.Some? <==> exists r :: r in rows && Reach(matches, boundary)(r)
                                              && forall x | x in p.items :: NewestFirst(x, r))
            && (p.next.Some? ==> |p.items| == limit && p.next.value == KeyOf(p.items[limit - 1]))
            && p.items + (if p.next.Some? then Rest(rows, matches, p.next) else [])
               == Rest(rows, matches, boundary)
  {
    var rest := Rest(rows, matches, boundary);
    var p := PageAfter(rows, matches, boundary, limit);
    RestIs(rows, matches, boundary);
    if |rest| > limit {
      RestBehind(rows, matches, boundary, limit);
      assert rest[limit] in rest;
      assert forall x | x in p.items :: NewestFirst(x, rest[limit]);
    } else {
      forall r | r in rows && Reach(matches, boundary)(r)
        ensures exists x :: x in p.items && !NewestFirst(x, r)
      {
        assert r in p.items && !NewestFirst(r, r);
      }
    }
  }

  /** A page holds the matching rows from its boundary down to its next key, in order. */
  lemma PageMembers<B(!new)>(rows: seq<Row<B>>, matches: Row<B> -> bool, boundary: Option<Key>, limit: nat)
    requires DistinctIds(rows) && limit >= 1
    ensures var p := PageAfter(rows, matches, boundary, limit);
            && Sorted(p.items, NewestFirst)
            && (p.next.Some? ==> Past(p.next.value, boundary))
            && forall r :: r in p.items <==>
                 r in rows && Reach(matches, boundary)(r) && (p.next.Some? ==> !Past(KeyOf(r), p.next))
  {
    var rest := Rest(rows, matches, boundary);
    RestIs(rows, matches, boundary);
    if |rest| > limit {
      var last := rest[limit - 1];
      assert last in rest;
      forall r
        ensures r in rest[..limit] <==> r in rest && !NewestFirst(last, r)
      {
        BeforeOrAt(rest, limit - 1, r);
      }
    }
  }

  lemma BeforeOrAt<B(!new)>(s: seq<Row<B>>, n: nat, r: Row<B>)
    requires Sorted(s, NewestFirst) && n < |s|
    ensures r in s[..n + 1] <==> r in s && !NewestFirst(s[n], r)
  {
    if r in s {
      var i :| 0 <= i < |s| && s[i] == r;
      if i > n {
        assert NewestFirst(s[n], s[i]);
        forall m | 0 <= m <= n
          ensures s[m] != r
        {
          assert NewestFirst(s[m], s[i]);
        }
      } else {
        assert s[..n + 1][i] == r;
        assert i < n ==> NewestFirst(s[i], s[n]);
      }
    }
  }

  // ---- a walk over a table at rest ----

  /** Following next keys from a boundary until a page has none. */
  function Walk<B(!new)>(rows: seq<Row<B>>, matches: Row<B> -> bool, boundary: Option<Key>, limit: nat): seq<Page<B>>
    requires DistinctIds(rows) && limit >= 1
    decreases |Rest(rows, matches, boundary)|
  {
    var p := PageAfter(rows, matches, boundary, limit);
    LookAheadExact(rows, matches, boundary, limit);
    if p.next.None? then [p] else [p] + Walk(rows, matches, p.next, limit)
  }

  function Items<B>(pages: seq<Page<B>>): seq<seq<Row<B>>> {
    seq(|pages|, i requires 0 <= i < |pages| => pages[i].items)
  }

  lemma {:induction false} WalkIsChunks<B(!new)>(
      rows: seq<Row<B>>, matches: Row<B> -> bool, boundary: Option<Key>, limit: nat)
    requires DistinctIds(rows) && limit >= 1
    ensures Items(Walk(rows, matches, boundary, limit)) == Chunks(Rest(rows, matches, boundary), limit)
    decreases |Rest(rows, matches, boundary)|
  {
    var p := PageAfter(rows, matches, boundary, limit);
    LookAheadExact(rows, matches, boundary, limit);
    if p.next.None? {
    } else {
      WalkIsChunks(rows, matches, p.next, limit);
      assert Rest(rows, matches, p.next) == Rest(rows, matches, boundary)[limit..];
      assert Items(Walk(rows, matches, boundary, limit)) == [p.items] + Items(Walk(rows, matches, p.next, limit));
    }
  }

  /**
   A walk over a table at rest stops after as many pages as its rows fill; together they
   are the whole listing newest first, and the k-th is the k-th offset page of it.
   */
  lemma WalkIsListing<B(!new)>(rows: seq<Row<B>>, matches: Row<B> -> bool, limit: nat)
    requires DistinctIds(rows) && limit >= 1
    ensures var all, pages := Rest(rows, matches, None), Walk(rows, matches, None, limit);
            && Concat(Items(pages)) == all
            && |pages| == PageCount(|all|, limit)
            && forall k | 0 <= k < |pages| :: pages[k].items == OffsetPage(all, k + 1, limit)
  {
    var all, pages := Rest(rows, matches, None), Walk(rows, matches, None, limit);
    WalkIsChunks(rows, matches, None, limit);
    ChunksJoin(all, limit);
    ChunkCount(all, limit);
    assert |pages| == |Items(pages)|;
    forall k | 0 <= k < |pages|
      ensures pages[k].items == OffsetPage(all, k + 1, limit)
    {
      assert pages[k].items == Items(pages)[k];
      ChunkIsOffsetPage(all, limit, k);
    }
  }

  /** A page of a walk has a next key exactly when rows are left behind it: the key of the last row it fills up to. */
  lemma {:induction false} NextKeyAt<B(!new)>(
      rows: seq<Row<B>>, matches: Row<B> -> bool, boundary: Option<Key>, limit: nat, k: nat)
    requires DistinctIds(rows) && limit >= 1 && k < |Walk(rows, matches, boundary, limit)|
    ensures var rest, next := Rest(rows, matches, boundary), Walk(rows, matches, boundary, limit)[k].next;
            && (next.Some? <==> (k + 1) * limit < |rest|)
            && (next.Some? ==> next.value == KeyOf(rest[(k + 1) * limit - 1]))
    decreases k
  {
    var rest, p := Rest(rows, matches, boundary), PageAfter(rows, matches, boundary, limit);
    LookAheadExact(rows, matches, boundary, limit);
    if k == 0 {
      assert Walk(rows, matches, boundary, limit)[0] == p;
    } else {
      NextKeyAt(rows, matches, p.next, limit, k - 1);
      assert Rest(rows, matches, p.next) == rest[limit..];
      assert (k + 1) * limit == k * limit + limit;
    }
  }

  /** A walk does not stop before the rows do. */
  lemma {:induction false} WalkReaches<B(!new)>(
      rows: seq<Row<B>>, matches: Row<B> -> bool, boundary: Option<Key>, limit: nat, k: nat)
    requires DistinctIds(rows) && limit >= 1 && k * limit < |Rest(rows, matches, boundary)|
    ensures k < |Walk(rows, matches, boundary, limit)|
    decreases k
  {
    var rest, p := Rest(rows, matches, boundary), PageAfter(rows, matches, boundary, limit);
    if k == 0 {
      assert Walk(rows, matches, boundary, limit) != [];
    } else {
      LookAheadExact(rows, matches, boundary, limit);
      assert k * limit == (k - 1) * limit + limit;
      TimesMonotone(1, k, limit);
      assert Rest(rows, matches, p.next) == rest[limit..];
      WalkReaches(rows, matches, p.next, limit, k - 1);
    }
  }
}
