/**
 A client that follows next tokens: the texts it sends back and forth, the boundaries they
 stand for, and what its requests return together.
 */
module TokenWalks {
  import opened Outcomes
  import opened Calendar
  import opened CursorCodec
  import opened Selections
  import opened OffsetPages
  import opened Keyset
  import opened ConcurrentWalk

  /** How a next key is written and how a token is read back; the empty token is the first page. */
  datatype Tokens<E> = Tokens(read: string -> Result<Option<Key>, E>, write: Key -> string)

  /** No key is written as the empty token, and the good keys, they alone, are read back. */
  ghost predicate Legible<E(!new)>(tok: Tokens<E>, good: Key -> bool) {
    && tok.read("") == Ok(None)
    && forall k :: tok.write(k) != "" && if good(k) then tok.read(tok.write(k)) == Ok(Some(k)) else tok.read(tok.write(k)).Err?
  }

  datatype Reply<B> = Reply(items: seq<Row<B>>, next: string)

  function TextOf<E>(tok: Tokens<E>, next: Option<Key>): string {
    if next.None? then "" else tok.write(next.value)
  }

  function ReplyOf<B, E>(tok: Tokens<E>, p: Page<B>): Reply<B> {
    Reply(p.items, TextOf(tok, p.next))
  }

  /** The reply to a token: the page behind the boundary it stands for, or the error it reads as. */
  function ReplyTo<B, E>(
      tok: Tokens<E>, rows: seq<Row<B>>, matches: Row<B> -> bool, token: string, limit: nat): Result<Reply<B>, E>
    requires limit >= 1
  {
    match tok.read(token)
    case Err(e) => Err(e)
    case Ok(boundary) => Ok(ReplyOf(tok, PageAfter(rows, matches, boundary, limit)))
  }

  /** The token a client sends for reply i: none at first, then the next token of the reply before. */
  function Token<B>(replies: seq<Reply<B>>, i: nat): string
    requires i <= |replies|
  {
    if i == 0 then "" else replies[i - 1].next
  }

  /** Reply i is the reply tables[i] gives to the client's i-th token. */
  ghost predicate Answers<B, E>(
      tok: Tokens<E>, tables: seq<seq<Row<B>>>, replies: seq<Reply<B>>, matches: Row<B> -> bool, limit: nat, i: nat)
    requires limit >= 1 && i < |replies| == |tables|
  {
    ReplyTo(tok, tables[i], matches, Token(replies, i), limit) == Ok(replies[i])
  }

  ghost predicate IsTokenWalk<B, E>(
      tok: Tokens<E>, tables: seq<seq<Row<B>>>, replies: seq<Reply<B>>, matches: Row<B> -> bool, limit: nat)
  {
    && limit >= 1 && |tables| == |replies|
    && (forall i | 0 <= i < |tables| :: DistinctIds(tables[i]))
    && (forall i: nat | i < |replies| :: Answers(tok, tables, replies, matches, limit, i))
    && (forall i | 0 <= i < |replies| - 1 :: replies[i].next != "")
  }

  /** The client has followed every token there was. */
  ghost predicate Finished<B>(replies: seq<Reply<B>>) {
    replies != [] && replies[|replies| - 1].next == ""
  }

  // ---- tokens stand for keys ----

  /** The boundary the client's i-th token stands for. */
  function Resolved<B, E>(tok: Tokens<E>, replies: seq<Reply<B>>, i: nat): Option<Key>
    requires i <= |replies|
  {
    var b := tok.read(Token(replies, i));
    if b.Ok? then b.value else None
  }

  function PagesOf<B, E>(
      tok: Tokens<E>, tables: seq<seq<Row<B>>>, replies: seq<Reply<B>>, matches: Row<B> -> bool, limit: nat): seq<Page<B>>
    requires limit >= 1 && |tables| == |replies|
  {
    seq(|tables|, i requires 0 <= i < |tables| => PageAfter(tables[i], matches, Resolved(tok, replies, i), limit))
  }

  lemma ReplyAt<B(!new), E(!new)>(
      tok: Tokens<E>, good: Key -> bool, tables: seq<seq<Row<B>>>, replies: seq<Reply<B>>, matches: Row<B> -> bool,
      limit: nat, i: nat)
    requires Legible(tok, good) && IsTokenWalk(tok, tables, replies, matches, limit) && i < |replies|
    ensures var p := PagesOf(tok, tables, replies, matches, limit)[i];
            && replies[i] == ReplyOf(tok, p)
            && (i == 0 ==> Resolved(tok, replies, i) == None)
            && (i + 1 < |replies| ==> p.next.Some? && good(p.next.value) && Resolved(tok, replies, i + 1) == p.next)
  {
    assert Answers(tok, tables, replies, matches, limit, i);
    if i + 1 < |replies| {
      assert Answers(tok, tables, replies, matches, limit, i + 1);
      assert Token(replies, i + 1) == replies[i].next;
    }
  }

  /** A walk by tokens is the walk by the keys they stand for, all of them good keys. */
  lemma TokensFollowKeys<B(!new), E(!new)>(
      tok: Tokens<E>, good: Key -> bool, tables: seq<seq<Row<B>>>, replies: seq<Reply<B>>, matches: Row<B> -> bool, limit: nat)
    requires Legible(tok, good) && IsTokenWalk(tok, tables, replies, matches, limit)
    ensures var pages := PagesOf(tok, tables, replies, matches, limit);
            && IsWalk(tables, pages, matches, limit)
            && (forall i | 0 <= i < |pages| :: replies[i] == ReplyOf(tok, pages[i]))
            && (forall i | 0 <= i < |pages| - 1 :: pages[i].next.Some? && good(pages[i].next.value))
  {
    var pages := PagesOf(tok, tables, replies, matches, limit);
    forall i: nat | i < |pages|
      ensures FetchedFrom(tables, pages, matches, limit, i)
      ensures replies[i] == ReplyOf(tok, pages[i])
      ensures i < |pages| - 1 ==> pages[i].next.Some? && good(pages[i].next.value)
    {
      ReplyAt(tok, good, tables, replies, matches, limit, i);
      if i > 0 {
        ReplyAt(tok, good, tables, replies, matches, limit, i - 1);
      }
    }
  }

  lemma FinishedIsEnded<B(!new), E(!new)>(tok: Tokens<E>, good: Key -> bool, replies: seq<Reply<B>>, pages: seq<Page<B>>)
    requires Legible(tok, good) && |replies| == |pages|
    requires forall i | 0 <= i < |pages| :: replies[i] == ReplyOf(tok, pages[i])
    ensures Finished(replies) <==> Ended(pages)
  {}

  // ---- over tables that change ----

  function Outputs<B>(replies: seq<Reply<B>>): seq<Row<B>> {
    if replies == [] then [] else replies[0].items + Outputs(replies[1..])
  }

  lemma {:induction false} OutputsAreItems<B, E>(tok: Tokens<E>, replies: seq<Reply<B>>, pages: seq<Page<B>>)
    requires |replies| == |pages| && forall i | 0 <= i < |pages| :: replies[i] == ReplyOf(tok, pages[i])
    ensures Outputs(replies) == Concat(Items(pages))
  {
    if replies == [] {
      assert Items(pages) == [];
    } else {
      OutputsAreItems(tok, replies[1..], pages[1..]);
      assert Items(pages)[1..] == Items(pages[1..]);
    }
  }

  /** Over tables that change at will between requests, what comes descends in (created_at, id). */
  lemma TokenOutputDescends<B(!new), E(!new)>(
      tok: Tokens<E>, good: Key -> bool, tables: seq<seq<Row<B>>>, replies: seq<Reply<B>>, matches: Row<B> -> bool, limit: nat)
    requires Legible(tok, good) && IsTokenWalk(tok, tables, replies, matches, limit)
    ensures Descends(Outputs(replies))
  {
    var pages := PagesOf(tok, tables, replies, matches, limit);
    TokensFollowKeys(tok, good, tables, replies, matches, limit);
    OutputsAreItems(tok, replies, pages);
    OutputDescends(tables, pages, matches, limit);
  }

  /** While no id changes its creation time, no id comes twice. */
  lemma TokenNoIdTwice<B(!new), E(!new)>(
      tok: Tokens<E>, good: Key -> bool, tables: seq<seq<Row<B>>>, replies: seq<Reply<B>>, matches: Row<B> -> bool, limit: nat)
    requires Legible(tok, good) && IsTokenWalk(tok, tables, replies, matches, limit) && KeysFixed(tables)
    ensures DistinctIds(Outputs(replies))
  {
    var pages := PagesOf(tok, tables, replies, matches, limit);
    TokensFollowKeys(tok, good, tables, replies, matches, limit);
    OutputsAreItems(tok, replies, pages);
    NoIdTwice(tables, pages, matches, limit);
  }

  /** The replies hold the id in one place and no other. */
  ghost predicate ComesOnce<B>(replies: seq<Reply<B>>, id: Uuid) {
    exists n :: OnlyAt(Outputs(replies), id, n)
  }

  /** When the last token is empty, an id that had a matching row at every request has come once. */
  lemma TokenStayingIdOnce<B(!new), E(!new)>(
      tok: Tokens<E>, good: Key -> bool, tables: seq<seq<Row<B>>>, replies: seq<Reply<B>>, matches: Row<B> -> bool,
      limit: nat, id: Uuid)
    requires Legible(tok, good) && IsTokenWalk(tok, tables, replies, matches, limit) && KeysFixed(tables)
    requires Finished(replies) && forall i | 0 <= i < |tables| :: HasMatch(tables[i], matches, id)
    ensures ComesOnce(replies, id)
  {
    var pages := PagesOf(tok, tables, replies, matches, limit);
    TokensFollowKeys(tok, good, tables, replies, matches, limit);
    FinishedIsEnded(tok, good, replies, pages);
    OutputsAreItems(tok, replies, pages);
    StayingIdReturnedOnce(tables, pages, matches, limit, id);
    var n :| OnlyAt(Concat(Items(pages)), id, n);
    assert OnlyAt(Outputs(replies), id, n);
  }

  // ---- over a table at rest ----

  function Always<B>(rows: seq<Row<B>>, n: nat): (tables: seq<seq<Row<B>>>)
    ensures |tables| == n && forall i | 0 <= i < n :: tables[i] == rows
  {
    seq(n, i => rows)
  }

  /** Following the tokens of a table at rest to the end. */
  ghost predicate Complete<B, E>(
      tok: Tokens<E>, rows: seq<Row<B>>, replies: seq<Reply<B>>, matches: Row<B> -> bool, limit: nat)
  {
    IsTokenWalk(tok, Always(rows, |replies|), replies, matches, limit) && Finished(replies)
  }

  function RepliesOf<B, E>(tok: Tokens<E>, pages: seq<Page<B>>): (replies: seq<Reply<B>>)
    ensures |replies| == |pages| && forall i | 0 <= i < |pages| :: replies[i] == ReplyOf(tok, pages[i])
  {
    seq(|pages|, i requires 0 <= i < |pages| => ReplyOf(tok, pages[i]))
  }

  /** Every key that ends a page but the last is good. */
  ghost predicate AllGood<B>(good: Key -> bool, pages: seq<Page<B>>) {
    forall i | 0 <= i < |pages| - 1 :: pages[i].next.Some? && good(pages[i].next.value)
  }

  /** A complete walk by tokens has the replies of the walk by keys, as many and in that order, and its keys are good. */
  lemma CompleteIsWalk<B(!new), E(!new)>(
      tok: Tokens<E>, good: Key -> bool, rows: seq<Row<B>>, replies: seq<Reply<B>>, matches: Row<B> -> bool, limit: nat)
    requires Legible(tok, good) && DistinctIds(rows) && Complete(tok, rows, replies, matches, limit)
    ensures var pages := Walk(rows, matches, None, limit); replies == RepliesOf(tok, pages) && AllGood(good, pages)
  {
    var tables := Always(rows, |replies|);
    var pages := PagesOf(tok, tables, replies, matches, limit);
    TokensFollowKeys(tok, good, tables, replies, matches, limit);
    FinishedIsEnded(tok, good, replies, pages);
    EndedWalkIsWalk(rows, tables, pages, matches, limit);
  }

  lemma WalkIsComplete<B(!new), E(!new)>(
      tok: Tokens<E>, good: Key -> bool, rows: seq<Row<B>>, matches: Row<B> -> bool, limit: nat)
    requires Legible(tok, good) && DistinctIds(rows) && limit >= 1
    requires AllGood(good, Walk(rows, matches, None, limit))
    ensures Complete(tok, rows, RepliesOf(tok, Walk(rows, matches, None, limit)), matches, limit)
  {
    var pages := Walk(rows, matches, None, limit);
    var replies := RepliesOf(tok, pages);
    var tables := Always(rows, |pages|);
    WalkIsWalk(rows, tables, matches, limit);
    FinishedIsEnded(tok, good, replies, pages);
    forall i: nat | i < |replies|
      ensures Answers(tok, tables, replies, matches, limit, i)
    {
      assert FetchedFrom(tables, pages, matches, limit, i);
      assert replies[i] == ReplyOf(tok, pages[i]);
      if i > 0 {
        assert replies[i - 1] == ReplyOf(tok, pages[i - 1]) && good(pages[i - 1].next.value);
      }
    }
  }

  /**
   On a table at rest the tokens lead to the end exactly when every key that ends a page but
   the last is a good one; the replies are then those of the walk by keys, and no others.
   */
  lemma CompleteIff<B(!new), E(!new)>(
      tok: Tokens<E>, good: Key -> bool, rows: seq<Row<B>>, matches: Row<B> -> bool, limit: nat)
    requires Legible(tok, good) && DistinctIds(rows) && limit >= 1
    ensures var pages := Walk(rows, matches, None, limit);
            && ((exists replies :: Complete(tok, rows, replies, matches, limit)) <==> AllGood(good, pages))
            && forall replies | Complete(tok, rows, replies, matches, limit) :: replies == RepliesOf(tok, pages)
  {
    var pages := Walk(rows, matches, None, limit);
    forall replies | Complete(tok, rows, replies, matches, limit)
      ensures replies == RepliesOf(tok, pages) && AllGood(good, pages)
    {
      CompleteIsWalk(tok, good, rows, replies, matches, limit);
    }
    if AllGood(good, pages) {
      WalkIsComplete(tok, good, rows, matches, limit);
    }
  }
}
