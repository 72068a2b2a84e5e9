/**
 Walks by token over the moments of one run: what follows for a client once the run keeps,
 for every id, the one creation time the id was drawn with.
 */
module StableWalks {
  import opened Outcomes
  import opened CursorCodec
  import opened Selections
  import opened Keyset
  import opened ConcurrentWalk
  import opened TokenWalks
  import opened CursorTokens

  /** Every row is under its id, with the creation time the id was drawn with. */
  ghost predicate BornAs<B>(t: map<Uuid, Row<B>>, drawn: map<Uuid, Row<B>>) {
    forall id | id in t :: t[id].id == id && id in drawn && t[id].createdAt == drawn[id].createdAt
  }

  /** The rows of the table in some physical order. */
  ghost predicate Layout<B(!new)>(rows: seq<Row<B>>, t: map<Uuid, Row<B>>) {
    DistinctIds(rows) && forall r :: r in rows <==> r.id in t && t[r.id] == r
  }

  /** The tables a client's requests met, laid out somehow, all of ids drawn as recorded. */
  ghost predicate Met<B(!new)>(tables: seq<seq<Row<B>>>, maps: seq<map<Uuid, Row<B>>>, drawn: map<Uuid, Row<B>>) {
    |tables| == |maps| && forall i | 0 <= i < |maps| :: Layout(tables[i], maps[i]) && BornAs(maps[i], drawn)
  }

  lemma MetFixesKeys<B(!new)>(tables: seq<seq<Row<B>>>, maps: seq<map<Uuid, Row<B>>>, drawn: map<Uuid, Row<B>>)
    requires Met(tables, maps, drawn)
    ensures KeysFixed(tables)
  {
    forall i, j, a, b | 0 <= i < |tables| && 0 <= j < |tables| && a in tables[i] && b in tables[j] && a.id == b.id
      ensures a.createdAt == b.createdAt
    {
      assert Layout(tables[i], maps[i]) && Layout(tables[j], maps[j]);
      assert maps[i][a.id] == a && maps[j][b.id] == b;
    }
  }

  /** The id has a matching row in each of the tables. */
  ghost predicate Stays<B>(maps: seq<map<Uuid, Row<B>>>, matches: Row<B> -> bool, id: Uuid) {
    forall i | 0 <= i < |maps| :: id in maps[i] && matches(maps[i][id])
  }

  lemma StayingHasMatch<B(!new)>(
      tables: seq<seq<Row<B>>>, maps: seq<map<Uuid, Row<B>>>, drawn: map<Uuid, Row<B>>, matches: Row<B> -> bool, id: Uuid)
    requires Met(tables, maps, drawn) && Stays(maps, matches, id)
    ensures forall i | 0 <= i < |tables| :: HasMatch(tables[i], matches, id)
  {
    forall i | 0 <= i < |tables|
      ensures HasMatch(tables[i], matches, id)
    {
      assert Layout(tables[i], maps[i]) && BornAs(maps[i], drawn);
      var r := maps[i][id];
      assert r in tables[i] && r.id == id && matches(r);
    }
  }

  /** What a client sees that follows the tokens: newest first, no id twice, and all that stayed, once. */
  ghost predicate StableOutput<B(!new)>(
      replies: seq<Reply<B>>, maps: seq<map<Uuid, Row<B>>>, matches: Row<B> -> bool)
  {
    && Descends(Outputs(replies)) && DistinctIds(Outputs(replies))
    && (Finished(replies) ==> forall id | Stays(maps, matches, id) :: ComesOnce(replies, id))
  }

  lemma WalkIsStable<B(!new)>(
      tables: seq<seq<Row<B>>>, maps: seq<map<Uuid, Row<B>>>, drawn: map<Uuid, Row<B>>, replies: seq<Reply<B>>,
      matches: Row<B> -> bool, limit: nat)
    requires Met(tables, maps, drawn) && IsTokenWalk(CURSOR_TOKENS, tables, replies, matches, limit)
    ensures StableOutput(replies, maps, matches)
  {
    TokensLegible();
    MetFixesKeys(tables, maps, drawn);
    TokenOutputDescends(CURSOR_TOKENS, Readable(), tables, replies, matches, limit);
    TokenNoIdTwice(CURSOR_TOKENS, Readable(), tables, replies, matches, limit);
    if Finished(replies) {
      forall id | Stays(maps, matches, id)
        ensures ComesOnce(replies, id)
      {
        StayingHasMatch(tables, maps, drawn, matches, id);
        TokenStayingIdOnce(CURSOR_TOKENS, Readable(), tables, replies, matches, limit, id);
      }
    }
  }
}
