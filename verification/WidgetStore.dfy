/** The widget store over its table, and the flat argument list of its bulk insert. */
module WidgetStore {
  import opened Outcomes
  import opened Calendar
  import opened CursorCodec
  import opened OffsetPages
  import opened Keyset
  import opened WidgetTable

  // ---- the argument list of a bulk insert ----

  datatype Arg = IdArg(id: Uuid) | TextArg(text: string) | TimeArg(at: Instant)

  function ArgsOf(w: Widget): (args: seq<Arg>)
    ensures |args| == 5
  {
    [IdArg(w.id), TextArg(w.body.name), TextArg(w.body.description), TimeArg(w.createdAt), TimeArg(w.updatedAt)]
  }

  /** The values are five a row, row after row. */
  ghost predicate Flat(values: seq<Arg>, ws: seq<Widget>) {
    |values| == 5 * |ws| && forall i | 0 <= i < |ws| :: values[5 * i..5 * i + 5] == ArgsOf(ws[i])
  }

  /** The i-th row of a flat argument list, as the database reads it by five columns. */
  function RowAt(values: seq<Arg>, i: nat): Option<Widget>
    requires 5 * i + 5 <= |values|
  {
    match (values[5 * i], values[5 * i + 1], values[5 * i + 2], values[5 * i + 3], values[5 * i + 4])
    case (IdArg(id), TextArg(name), TextArg(description), TimeArg(created), TimeArg(updated)) =>
      Some(Row(id, created, updated, WidgetBody(name, description)))
    case _ => None
  }

  lemma FlatReadsBack(values: seq<Arg>, ws: seq<Widget>, i: nat)
    requires Flat(values, ws) && i < |ws|
    ensures RowAt(values, i) == Some(ws[i])
  {
    var slice := values[5 * i..5 * i + 5];
    assert slice == ArgsOf(ws[i]);
    assert values[5 * i] == slice[0] && values[5 * i + 1] == slice[1] && values[5 * i + 2] == slice[2];
    assert values[5 * i + 3] == slice[3] && values[5 * i + 4] == slice[4];
  }

  lemma FlatGrows(values: seq<Arg>, ws: seq<Widget>, w: Widget)
    requires Flat(values, ws)
    ensures Flat(values + ArgsOf(w), ws + [w])
  {
    var more, all := values + ArgsOf(w), ws + [w];
    forall i | 0 <= i < |all|
      ensures more[5 * i..5 * i + 5] == ArgsOf(all[i])
    {
      if i < |ws| {
        assert more[5 * i..5 * i + 5] == values[5 * i..5 * i + 5];
      }
    }
  }

  function Sum(sizes: seq<nat>): nat {
    if sizes == [] then 0 else sizes[0] + Sum(sizes[1..])
  }

  /** The batch cut at row boundaries into statements of the given sizes. */
  function Statements(ws: seq<Widget>, sizes: seq<nat>): (r: seq<seq<Widget>>)
    requires Sum(sizes) == |ws|
    ensures |r| == |sizes|
    decreases |sizes|
  {
    if sizes == [] then [] else [ws[..sizes[0]]] + Statements(ws[sizes[0]..], sizes[1..])
  }

  lemma {:induction false} StatementsJoin(ws: seq<Widget>, sizes: seq<nat>)
    requires Sum(sizes) == |ws|
    ensures Concat(Statements(ws, sizes)) == ws
    ensures forall i | 0 <= i < |sizes| :: |Statements(ws, sizes)[i]| == sizes[i]
    decreases |sizes|
  {
    if sizes == [] {
    } else {
      StatementsJoin(ws[sizes[0]..], sizes[1..]);
      assert Statements(ws, sizes)[1..] == Statements(ws[sizes[0]..], sizes[1..]);
    }
  }

  /** `n` rows of a flat argument list, from row number `row` on. */
  function RowsAt(values: seq<Arg>, row: nat, n: nat): Option<seq<Widget>>
    requires 5 * (row + n) <= |values|
    decreases n
  {
    if n == 0 then Some([])
    else
      var w :- RowAt(values, row);
      var rest :- RowsAt(values, row + 1, n - 1);
      Some([w] + rest)
  }

  lemma FlatLength(values: seq<Arg>, ws: seq<Widget>, row: nat, n: nat)
    requires Flat(values, ws) && row + n <= |ws|
    ensures 5 * (row + n) <= |values|
  {}

  lemma RowsCons(values: seq<Arg>, w: Widget, rest: seq<Widget>, row: nat, n: nat)
    requires n > 0 && 5 * (row + n) <= |values|
    requires RowAt(values, row) == Some(w) && RowsAt(values, row + 1, n - 1) == Some(rest)
    ensures RowsAt(values, row, n) == Some([w] + rest)
  {}

  /** Regrouping the flat list by five gives the rows of the batch back, in order, wherever it is cut. */
  lemma {:induction false} FlatRows(values: seq<Arg>, ws: seq<Widget>, row: nat, n: nat)
    requires Flat(values, ws) && row + n <= |ws|
    ensures 5 * (row + n) <= |values| && RowsAt(values, row, n) == Some(ws[row..row + n])
    decreases n
  {
    FlatLength(values, ws, row, n);
    if n == 0 {
      assert ws[row..row] == [];
    } else {
      FlatReadsBack(values, ws, row);
      FlatRows(values, ws, row + 1, n - 1);
      RowsCons(values, ws[row], ws[row + 1..row + n], row, n);
      assert ws[row..row + n] == [ws[row]] + ws[row + 1..row + n];
    }
  }

  lemma NoStatement(t: Table, statements: seq<seq<Widget>>, sizes: seq<nat>, ws: seq<Widget>)
    ensures AllStatements(t, statements[..0]) == (t, true)
    ensures statements[0..] == statements && sizes[0..] == sizes && ws[0..] == ws
  {}

  /** The n-th statement is the next rows of the batch, and the cut goes on behind it. */
  lemma CutHere(ws: seq<Widget>, sizes: seq<nat>, statements: seq<seq<Widget>>, row: nat, n: nat)
    requires n < |sizes| == |statements| && row <= |ws|
    requires Sum(sizes[n..]) == |ws| - row && statements[n..] == Statements(ws[row..], sizes[n..])
    ensures row + sizes[n] <= |ws| && statements[n] == ws[row..row + sizes[n]]
    ensures Sum(sizes[n + 1..]) == |ws| - row - sizes[n]
    ensures statements[n + 1..] == Statements(ws[row + sizes[n]..], sizes[n + 1..])
  {
    assert sizes[n..][1..] == sizes[n + 1..] && sizes[n..][0] == sizes[n];
    assert statements[n..][0] == statements[n] && statements[n..][1..] == statements[n + 1..];
    assert ws[row..][..sizes[n]] == ws[row..row + sizes[n]];
    assert ws[row..][sizes[n]..] == ws[row + sizes[n]..];
  }

  lemma {:induction false} EmptyBatch(t: Table, ws: seq<Widget>, sizes: seq<nat>, n: nat)
    requires Sum(sizes) == |ws| == 0 && n <= |sizes|
    ensures AllStatements(t, Statements(ws, sizes)[..n]) == (t, true)
    decreases |sizes|
  {
    if n == 0 {
    } else {
      var statements := Statements(ws, sizes);
      assert statements[..n][1..] == Statements(ws[sizes[0]..], sizes[1..])[..n - 1];
      EmptyBatch(t, ws[sizes[0]..], sizes[1..], n - 1);
    }
  }

  lemma StatementsSnoc(t: Table, statements: seq<seq<Widget>>, n: nat)
    requires n < |statements| && AllStatements(t, statements[..n]).1
    ensures var u := AllStatements(t, statements[..n]).0; var next := BulkInserted(u, statements[n]);
            AllStatements(t, statements[..n + 1]) == if next.None? then (u, false) else (next.value, true)
  {
    assert statements[..n + 1] == statements[..n] + [statements[n]];
    StatementsCompose(t, statements[..n], [statements[n]]);
  }

  /** Once a statement fails, going on with the batch changes nothing. */
  lemma FailsFrom(t: Table, statements: seq<seq<Widget>>, n: nat, m: nat)
    requires n < m <= |statements| && AllStatements(t, statements[..n]).1
    requires BulkInserted(AllStatements(t, statements[..n]).0, statements[n]).None?
    ensures AllStatements(t, statements[..m]) == (AllStatements(t, statements[..n]).0, false)
  {
    StatementsSnoc(t, statements, n);
    assert statements[..m] == statements[..n + 1] + statements[n + 1..m];
    StatementsCompose(t, statements[..n + 1], statements[n + 1..m]);
  }

  /** The first n statements went through from `start` to `t`, and the rest of the batch is still to be cut. */
  ghost predicate Reached(
      start: Table, t: Table, ws: seq<Widget>, sizes: seq<nat>, statements: seq<seq<Widget>>, row: nat, n: nat)
  {
    && |statements| == |sizes| && n <= |sizes| && row <= |ws|
    && Sum(sizes[n..]) == |ws| - row && statements[n..] == Statements(ws[row..], sizes[n..])
    && AllStatements(start, statements[..n]) == (t, true)
  }

  /** The next statement read off the flat list is the next one of the batch, and what it makes of the run so far. */
  lemma NextStatement(start: Table, t: Table, values: seq<Arg>, ws: seq<Widget>, sizes: seq<nat>,
                      statements: seq<seq<Widget>>, row: nat, n: nat)
    requires Flat(values, ws) && Reached(start, t, ws, sizes, statements, row, n) && n < |sizes|
    ensures row + sizes[n] <= |ws| && 5 * (row + sizes[n]) <= |values|
    ensures RowsAt(values, row, sizes[n]) == Some(statements[n])
    ensures var next := BulkInserted(t, statements[n]);
            next.Some? ==> Reached(start, next.value, ws, sizes, statements, row + sizes[n], n + 1)
  {
    CutHere(ws, sizes, statements, row, n);
    FlatRows(values, ws, row, sizes[n]);
    StatementsSnoc(start, statements, n);
  }

  lemma StopsHere(start: Table, t: Table, statements: seq<seq<Widget>>, n: nat, limit: nat)
    requires n < limit <= |statements| && AllStatements(start, statements[..n]) == (t, true)
    requires BulkInserted(t, statements[n]).None?
    ensures AllStatements(start, statements[..limit]).0 == t && !AllStatements(start, statements).1
  {
    FailsFrom(start, statements, n, limit);
    FailsFrom(start, statements, n, |statements|);
    assert statements[..|statements|] == statements;
  }

  // ---- the store ----

  class Store {
    var table: Table

    constructor ()
      ensures table == map[] && Indexed(table)
    {
      table := map[];
    }

    /** Adds the row if its id and its name are free; a fault hides what happened. */
    method Create(w: Widget, fault: Fault) returns (r: Result<(), StoreError>)
      requires Indexed(table)
      modifies this
      ensures var free := w.id !in old(table) && !NameTaken(old(table), w.body.name);
              && table == (if free && !fault.Unapplied? then old(table)[w.id := w] else old(table))
              && r == if !fault.NoFault? then Err(OtherError) else if free then Ok(()) else Err(AlreadyExists)
      ensures Indexed(table)
    {
      WritesKeepIndexes(table, w, w.id);
      if fault.Unapplied? {
        return Err(OtherError);
      }
      var written := Inserted(table, w);
      if written.Ok? {
        table := written.value;
      }
      if fault.Applied? {
        return Err(OtherError);
      }
      if written.Err? {
        return Err(written.error);
      }
      return Ok(());
    }

    /** Sets name, description and update time of the row, unless another row has the name. */
    method Update(w: Widget, fault: Fault) returns (r: Result<(), StoreError>)
      requires Indexed(table)
      modifies this
      ensures var there := w.id in old(table); var clash := NameTaken(old(table) - {w.id}, w.body.name);
              && r == (if !fault.NoFault? || (there && clash) then Err(OtherError) else if there then Ok(()) else Err(NotFound))
              && table.Keys == old(table).Keys
              && (forall i | i in table && (i != w.id || clash || fault.Unapplied?) :: table[i] == old(table)[i])
              && (there && !clash && !fault.Unapplied? ==>
                    table[w.id] == Row(old(table)[w.id].id, old(table)[w.id].createdAt, w.updatedAt, w.body))
      ensures Indexed(table)
    {
      WritesKeepIndexes(table, w, w.id);
      if fault.Unapplied? {
        return Err(OtherError);
      }
      var written := Updated(table, w);
      if written.Ok? {
        table := written.value;
      }
      if fault.Applied? {
        return Err(OtherError);
      }
      if written.Err? {
        return Err(written.error);
      }
      return Ok(());
    }

    /** Removes the row under the id. */
    method Delete(id: Uuid, fault: Fault) returns (r: Result<(), StoreError>)
      requires Indexed(table)
      modifies this
      ensures r == if !fault.NoFault? then Err(OtherError) else if id in old(table) then Ok(()) else Err(NotFound)
      ensures table == (if fault.Unapplied? then old(table) else old(table) - {id}) && Indexed(table)
    {
      if fault.Unapplied? {
        return Err(OtherError);
      }
      var there := id in table;
      table := table - {id};
      if fault.Applied? {
        return Err(OtherError);
      }
      return if there then Ok(()) else Err(NotFound);
    }

    /**
     Runs the batch as multi-row statements, one after another, until all are done, one
     fails, or the connection is lost before statement number `stop`.
     */
    method BulkInsert(ws: seq<Widget>, sizes: seq<nat>, stop: nat) returns (r: Result<(), StoreError>)
      requires Indexed(table) && Sum(sizes) == |ws|
      modifies this
      ensures table == AllStatements(old(table), Statements(ws, sizes)[..Clip(stop, |sizes|)]).0
      ensures r.Ok? <==> ws == [] || (stop >= |sizes| && AllStatements(old(table), Statements(ws, sizes)).1)
      ensures Indexed(table)
    {
      if |ws| == 0 {
        EmptyBatch(table, ws, sizes, Clip(stop, |sizes|));
        return Ok(());
      }
      var values: seq<Arg> := [];
      for i := 0 to |ws|
        invariant Flat(values, ws[..i]) && table == old(table)
      {
        FlatGrows(values, ws[..i], ws[i]);
        assert ws[..i] + [ws[i]] == ws[..i + 1];
        values := values + ArgsOf(ws[i]);
      }
      assert ws[..|ws|] == ws;
      r := Exec(values, ws, sizes, stop);
    }

    /** The database helper: it regroups the flat values by row and cuts them into statements. */
    method Exec(values: seq<Arg>, ghost ws: seq<Widget>, sizes: seq<nat>, stop: nat) returns (r: Result<(), StoreError>)
      requires Indexed(table) && Flat(values, ws) && Sum(sizes) == |ws|
      modifies this
      ensures table == AllStatements(old(table), Statements(ws, sizes)[..Clip(stop, |sizes|)]).0
      ensures r.Ok? <==> stop >= |sizes| && AllStatements(old(table), Statements(ws, sizes)).1
      ensures Indexed(table)
    {
      ghost var statements, start := Statements(ws, sizes), table;
      ghost var limit := Clip(stop, |sizes|);
      AllKeepRows(table, statements[..limit]);
      NoStatement(start, statements, sizes, ws);
      var row := 0;
      for n := 0 to |sizes|
        invariant Reached(start, table, ws, sizes, statements, row, n)
        invariant n <= limit
      {
        if n == stop {
          return Err(OtherError);
        }
        NextStatement(start, table, values, ws, sizes, statements, row, n);
        var statement := RowsAt(values, row, sizes[n]).value;
        var written := BulkInserted(table, statement);
        if written.None? {
          StopsHere(start, table, statements, n, limit);
          return Err(OtherError);
        }
        table := written.value;
        row := row + sizes[n];
      }
      assert statements[..|sizes|] == statements && limit == |sizes|;
      return Ok(());
    }
  }
}
