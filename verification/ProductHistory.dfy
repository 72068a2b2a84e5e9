/** Runs of the products table, and the cursor walks taken meanwhile. */
module ProductHistory {
  import opened Outcomes
  import opened CursorCodec
  import opened Keyset
  import opened TokenWalks
  import opened CursorTokens
  import opened ProductQueries
  import opened StableWalks

  type Table = map<Uuid, Product>

  datatype StoreError = NotFound | OtherError

  function Inserted(t: Table, p: Product): Result<Table, StoreError> {
    if p.id in t then Err(OtherError) else Ok(t[p.id := p])
  }

  /** SET name, price, updated_at: the creation time is not among the columns. */
  function Updated(t: Table, p: Product): Result<Table, StoreError> {
    if p.id !in t then Err(NotFound) else Ok(t[p.id := t[p.id].(body := p.body, updatedAt := p.updatedAt)])
  }

  function Deleted(t: Table, id: Uuid): Result<Table, StoreError> {
    if id in t then Ok(t - {id}) else Err(NotFound)
  }

  /**
   What the statements do: a create adds its row unless the id is taken, an update sets name,
   price and update time of its row and of no other, and a deleted product is gone.
   */
  lemma StatementsMean(t: Table, p: Product, id: Uuid)
    requires forall i | i in t :: t[i].id == i
    ensures Inserted(t, p) == if p.id in t then Err(OtherError) else Ok(t[p.id := p])
    ensures Updated(t, p).Ok? <==> p.id in t
    ensures Updated(t, p).Ok? ==>
              var u := Updated(t, p).value;
              && u.Keys == t.Keys && (forall i | i in t && i != p.id :: u[i] == t[i])
              && u[p.id] == Row(p.id, t[p.id].createdAt, p.updatedAt, ProductBody(p.body.name, p.body.price))
    ensures Deleted(t, id).Ok? <==> id in t
    ensures Deleted(t, id).Ok? ==>
              id !in Deleted(t, id).value && forall i | i in t && i != id :: i in Deleted(t, id).value && Deleted(t, id).value[i] == t[i]
  {}

  /** The table and every id ever drawn with the product it was drawn for. */
  datatype State = State(table: Table, drawn: Table)

  datatype Step = Create(p: Product) | Update(p: Product) | Delete(id: Uuid)

  /** An id drawn is a new one; an update and a delete name any id there is or was. */
  predicate Enabled(s: State, step: Step) {
    step.Create? ==> step.p.id !in s.drawn
  }

  function Written(s: State, step: Step): Result<Table, StoreError> {
    match step
    case Create(p) => Inserted(s.table, p)
    case Update(p) => Updated(s.table, p)
    case Delete(id) => Deleted(s.table, id)
  }

  /** The statement's effect, if it is applied at all. */
  function Apply(s: State, step: Step, applied: bool): State {
    var written := Written(s, step);
    State(if applied && written.Ok? then written.value else s.table,
          if step.Create? then s.drawn[step.p.id := step.p] else s.drawn)
  }

  /** A step that is applied does what its statement does; one that is not leaves the table. */
  lemma StepMeans(s: State, step: Step, applied: bool)
    requires Enabled(s, step)
    ensures !applied ==> Apply(s, step, applied).table == s.table
    ensures applied ==>
              var t := Apply(s, step, true).table;
              match step
              case Create(p) => t == if p.id in s.table then s.table else s.table[p.id := p]
              case Update(p) => t == if p.id in s.table then s.table[p.id := s.table[p.id].(body := p.body, updatedAt := p.updatedAt)]
                                     else s.table
              case Delete(id) => t == s.table - {id}
  {}

  /** A run as the states it goes through, one more than its steps. */
  ghost predicate IsRun(states: seq<State>) {
    && states != []
    && forall i: nat | i + 1 < |states| :: Follows(states[i], states[i + 1])
  }

  ghost predicate Follows(s: State, t: State) {
    exists step, applied :: Enabled(s, step) && t == Apply(s, step, applied)
  }

  ghost predicate OnRecord(s: State, t: State) {
    forall id | id in s.drawn :: id in t.drawn && t.drawn[id] == s.drawn[id]
  }

  lemma StepKeepsBirths(s: State, t: State)
    requires BornAs(s.table, s.drawn) && Follows(s, t)
    ensures BornAs(t.table, t.drawn) && OnRecord(s, t)
  {}

  lemma {:induction false} RunKeepsBirths(states: seq<State>, n: nat)
    requires IsRun(states) && BornAs(states[0].table, states[0].drawn) && n < |states|
    ensures forall i | 0 <= i <= n :: BornAs(states[i].table, states[i].drawn) && OnRecord(states[i], states[n])
  {
    if n == 0 {
      assert OnRecord(states[0], states[0]);
    } else {
      RunKeepsBirths(states, n - 1);
      assert Follows(states[n - 1], states[(n - 1) + 1]);
      StepKeepsBirths(states[n - 1], states[n]);
      forall i | 0 <= i <= n
        ensures BornAs(states[i].table, states[i].drawn) && OnRecord(states[i], states[n])
      {
        assert i < n ==> OnRecord(states[i], states[n - 1]) && OnRecord(states[n - 1], states[n]);
      }
    }
  }

  /** The tables at the given moments of a run. */
  function At(states: seq<State>, moments: seq<nat>): (maps: seq<Table>)
    requires forall m | m in moments :: m < |states|
    ensures |maps| == |moments| && forall i | 0 <= i < |maps| :: moments[i] in moments && maps[i] == states[moments[i]].table
  {
    seq(|moments|, i requires 0 <= i < |moments| => assert moments[i] in moments; states[moments[i]].table)
  }

  /**
   A client that follows the tokens of the product listing, its requests met at any moments of
   any run of creates, updates and deletes: newest first, no product twice, and every product
   that matched at every request once.
   */
  lemma ProductWalkIsStable(
      states: seq<State>, moments: seq<nat>, tables: seq<seq<Product>>, loc: Locale, filter: Filter,
      replies: seq<Reply<ProductBody>>, limit: nat)
    requires IsRun(states) && BornAs(states[0].table, states[0].drawn) && forall m | m in moments :: m < |states|
    requires |tables| == |moments| && forall i | 0 <= i < |tables| :: Layout(tables[i], At(states, moments)[i])
    requires IsTokenWalk(CURSOR_TOKENS, tables, replies, Matches(loc, filter), limit)
    ensures StableOutput(replies, At(states, moments), Matches(loc, filter))
  {
    var maps, end := At(states, moments), states[|states| - 1];
    RunKeepsBirths(states, |states| - 1);
    forall i | 0 <= i < |maps|
      ensures BornAs(maps[i], end.drawn)
    {
      assert moments[i] in moments;
      assert BornAs(states[moments[i]].table, states[moments[i]].drawn) && OnRecord(states[moments[i]], end);
    }
    WalkIsStable(tables, maps, end.drawn, replies, Matches(loc, filter), limit);
  }
}
