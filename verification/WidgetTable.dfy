/**
 The widgets table and the statements the store runs on it: ids are the primary key, names
 have a unique index, and a bulk statement skips the ids that exist already.
 */
module WidgetTable {
  import opened Outcomes
  import opened Calendar
  import opened CursorCodec
  import opened OffsetPages
  import opened Keyset

  datatype WidgetBody = WidgetBody(name: string, description: string)

  type Widget = Row<WidgetBody>

  type Table = map<Uuid, Widget>

  datatype StoreError = AlreadyExists | NotFound | OtherError

  /** How the database fails a statement, if it does: the error may hide that it was applied. */
  datatype Fault = NoFault | Unapplied | Applied

  /** Every row is under its id, and no two rows share a name. */
  ghost predicate Indexed(t: Table) {
    && (forall id | id in t :: t[id].id == id)
    && (forall i, j | i in t && j in t && t[i].body.name == t[j].body.name :: i == j)
  }

  predicate NameTaken(t: Table, name: string) {
    exists id | id in t :: t[id].body.name == name
  }

  function Inserted(t: Table, w: Widget): Result<Table, StoreError> {
    if w.id in t || NameTaken(t, w.body.name) then Err(AlreadyExists) else Ok(t[w.id := w])
  }

  /** SET name, description, updated_at: the creation time is not among the columns. */
  function Updated(t: Table, w: Widget): Result<Table, StoreError> {
    if w.id !in t then Err(NotFound)
    else if NameTaken(t - {w.id}, w.body.name) then Err(OtherError)
    else Ok(t[w.id := t[w.id].(body := w.body, updatedAt := w.updatedAt)])
  }

  function Deleted(t: Table, id: Uuid): Result<Table, StoreError> {
    if id in t then Ok(t - {id}) else Err(NotFound)
  }

  /** One INSERT … ON CONFLICT (id) DO NOTHING: a taken name fails the whole statement. */
  function BulkInserted(t: Table, ws: seq<Widget>): Option<Table>
    decreases |ws|
  {
    if ws == [] then Some(t)
    else if ws[0].id in t then BulkInserted(t, ws[1..])
    else if NameTaken(t, ws[0].body.name) then None
    else BulkInserted(t[ws[0].id := ws[0]], ws[1..])
  }

  /** Statement after statement until one fails; the earlier ones stay. */
  function AllStatements(t: Table, statements: seq<seq<Widget>>): (Table, bool)
    decreases |statements|
  {
    if statements == [] then (t, true)
    else match BulkInserted(t, statements[0])
      case None => (t, false)
      case Some(next) => AllStatements(next, statements[1..])
  }

  // ---- what the statements keep ----

  lemma WritesKeepIndexes(t: Table, w: Widget, id: Uuid)
    requires Indexed(t)
    ensures Inserted(t, w).Ok? ==> Indexed(Inserted(t, w).value)
    ensures Updated(t, w).Ok? ==> Indexed(Updated(t, w).value)
    ensures Deleted(t, id).Ok? ==> Indexed(Deleted(t, id).value)
  {
    if Updated(t, w).Ok? {
      var u := Updated(t, w).value;
      forall i, j | i in u && j in u && u[i].body.name == u[j].body.name
        ensures i == j
      {
        assert i != w.id ==> i in t - {w.id};
        assert j != w.id ==> j in t - {w.id};
      }
    }
  }

  /** An update adds no row, so it never brings back a deleted one, and keeps every creation time. */
  lemma UpdateResurrectsNothing(t: Table, w: Widget)
    requires Updated(t, w).Ok?
    ensures Updated(t, w).value.Keys == t.Keys
    ensures forall i | i in t :: Updated(t, w).value[i].createdAt == t[i].createdAt
    ensures forall i | i in t && i != w.id :: Updated(t, w).value[i] == t[i]
  {}

  /** A bulk statement keeps every row there is, and leaves every id of its rows present. */
  lemma {:induction false} BulkKeepsRows(t: Table, ws: seq<Widget>)
    requires BulkInserted(t, ws).Some?
    ensures var u := BulkInserted(t, ws).value;
            && (forall id | id in t :: id in u && u[id] == t[id])
            && (forall w | w in ws :: w.id in u)
            && (forall id | id in u && id !in t :: u[id] in ws && u[id].id == id)
            && (Indexed(t) ==> Indexed(u))
    decreases |ws|
  {
    if ws == [] {
    } else {
      var next := if ws[0].id in t then t else t[ws[0].id := ws[0]];
      BulkKeepsRows(next, ws[1..]);
      assert ws == [ws[0]] + ws[1..];
    }
  }

  lemma {:induction false} AllKeepRows(t: Table, statements: seq<seq<Widget>>)
    ensures var u := AllStatements(t, statements).0;
            && (forall id | id in t :: id in u && u[id] == t[id])
            && (Indexed(t) ==> Indexed(u))
    decreases |statements|
  {
    if statements == [] || BulkInserted(t, statements[0]).None? {
    } else {
      BulkKeepsRows(t, statements[0]);
      AllKeepRows(BulkInserted(t, statements[0]).value, statements[1..]);
    }
  }

  /** The rows a statement would add, were no name in its way. */
  function Missing(t: Table, ws: seq<Widget>): seq<Widget>
    decreases |ws|
  {
    if ws == [] then []
    else if ws[0].id in t then Missing(t, ws[1..])
    else [ws[0]] + Missing(t[ws[0].id := ws[0]], ws[1..])
  }

  /** The names of the rows are new to the table and differ from each other. */
  ghost predicate NewNames(t: Table, rows: seq<Widget>) {
    && (forall i | 0 <= i < |rows| :: !NameTaken(t, rows[i].body.name))
    && (forall i, j | 0 <= i < j < |rows| :: rows[i].body.name != rows[j].body.name)
  }

  /** A statement goes through exactly when the names of the rows it adds are new and differ. */
  lemma {:induction false} BulkSucceedsIff(t: Table, ws: seq<Widget>)
    ensures BulkInserted(t, ws).Some? <==> NewNames(t, Missing(t, ws))
    decreases |ws|
  {
    if ws == [] {
    } else {
      if ws[0].id in t {
        BulkSucceedsIff(t, ws[1..]);
      } else {
        var next := t[ws[0].id := ws[0]];
        BulkSucceedsIff(next, ws[1..]);
        NewNamesStep(t, ws[0], Missing(next, ws[1..]));
      }
    }
  }

  lemma OneMoreName(t: Table, w: Widget, name: string)
    requires w.id !in t
    ensures NameTaken(t[w.id := w], name) <==> name == w.body.name || NameTaken(t, name)
  {
    var next := t[w.id := w];
    assert w.id in next && next[w.id].body.name == w.body.name;
    if NameTaken(t, name) {
      var id :| id in t && t[id].body.name == name;
      assert id in next && next[id].body.name == name;
    }
  }

  lemma NewNamesStep(t: Table, w: Widget, rest: seq<Widget>)
    requires w.id !in t
    ensures NewNames(t, [w] + rest) <==> !NameTaken(t, w.body.name) && NewNames(t[w.id := w], rest)
  {
    var all := [w] + rest;
    assert all[0] == w;
    forall i | 0 <= i < |rest|
      ensures all[i + 1] == rest[i]
      ensures NameTaken(t[w.id := w], rest[i].body.name) <==> rest[i].body.name == w.body.name || NameTaken(t, rest[i].body.name)
    {
      OneMoreName(t, w, rest[i].body.name);
    }
    if NewNames(t, all) {
      forall i | 0 <= i < |rest|
        ensures !NameTaken(t[w.id := w], rest[i].body.name)
      {
        assert all[0].body.name != all[i + 1].body.name && !NameTaken(t, all[i + 1].body.name);
      }
      forall i, j | 0 <= i < j < |rest|
        ensures rest[i].body.name != rest[j].body.name
      {
        assert all[i + 1].body.name != all[j + 1].body.name;
      }
    }
    if !NameTaken(t, w.body.name) && NewNames(t[w.id := w], rest) {
      forall i | 0 <= i < |all|
        ensures !NameTaken(t, all[i].body.name)
      {
        assert i > 0 ==> all[i] == rest[i - 1];
      }
      forall i, j | 0 <= i < j < |all|
        ensures all[i].body.name != all[j].body.name
      {
        assert all[j] == rest[j - 1] && (i > 0 ==> all[i] == rest[i - 1]);
      }
    }
  }

  // ---- replaying a batch ----

  lemma {:induction false} PresentSkipped(t: Table, ws: seq<Widget>)
    requires forall w | w in ws :: w.id in t
    ensures BulkInserted(t, ws) == Some(t)
  {
    if ws == [] {
      assert BulkInserted(t, []) == Some(t);
    } else {
      assert ws[0] in ws;
      PresentSkipped(t, ws[1..]);
    }
  }

  /** A statement changes nothing exactly when all its ids are there: any row missing comes in, or fails it. */
  lemma NoChangeIff(t: Table, ws: seq<Widget>)
    ensures BulkInserted(t, ws) == Some(t) <==> forall w | w in ws :: w.id in t
  {
    if BulkInserted(t, ws) == Some(t) {
      BulkKeepsRows(t, ws);
    }
    if forall w | w in ws :: w.id in t {
      PresentSkipped(t, ws);
    }
  }

  /** Statements whose rows are all present change nothing. */
  lemma {:induction false} PresentStatementsSkipped(t: Table, done: seq<seq<Widget>>, rest: seq<seq<Widget>>)
    requires forall s, w | s in done && w in s :: w.id in t
    ensures AllStatements(t, done + rest) == AllStatements(t, rest)
  {
    if done == [] {
      assert done + rest == rest;
    } else {
      assert done[0] in done;
      PresentSkipped(t, done[0]);
      assert (done + rest)[1..] == done[1..] + rest;
      PresentStatementsSkipped(t, done[1..], rest);
    }
  }

  lemma {:induction false} DoneArePresent(t: Table, statements: seq<seq<Widget>>)
    requires AllStatements(t, statements).1
    ensures forall s, w | s in statements && w in s :: w.id in AllStatements(t, statements).0
    decreases |statements|
  {
    if statements == [] {
    } else {
      BulkKeepsRows(t, statements[0]);
      var next := BulkInserted(t, statements[0]).value;
      DoneArePresent(next, statements[1..]);
      AllKeepRows(next, statements[1..]);
    }
  }

  lemma {:induction false} StatementsCompose(t: Table, a: seq<seq<Widget>>, b: seq<seq<Widget>>)
    ensures AllStatements(t, a + b)
         == if AllStatements(t, a).1 then AllStatements(AllStatements(t, a).0, b) else AllStatements(t, a)
    decreases |a|
  {
    if a == [] {
      assert a + b == b;
    } else {
      assert (a + b)[0] == a[0] && (a + b)[1..] == a[1..] + b;
      if BulkInserted(t, a[0]).Some? {
        StatementsCompose(BulkInserted(t, a[0]).value, a[1..], b);
      }
    }
  }

  /** How many statements of an attempt went through. */
  function Through(t: Table, statements: seq<seq<Widget>>): (n: nat)
    ensures n <= |statements|
    decreases |statements|
  {
    if statements == [] || BulkInserted(t, statements[0]).None? then 0
    else 1 + Through(BulkInserted(t, statements[0]).value, statements[1..])
  }

  lemma {:induction false} ThroughWentThrough(t: Table, statements: seq<seq<Widget>>)
    ensures var done := statements[..Through(t, statements)];
            AllStatements(t, done) == (AllStatements(t, statements).0, true)
    decreases |statements|
  {
    if statements == [] || BulkInserted(t, statements[0]).None? {
    } else {
      var next := BulkInserted(t, statements[0]).value;
      ThroughWentThrough(next, statements[1..]);
      var n := Through(next, statements[1..]);
      assert statements[..n + 1][1..] == statements[1..][..n];
    }
  }

  /**
   An attempt stopped after any number of statements, by an outage or by a name clash, leaves
   a table on which the whole batch ends exactly as it would have on the first table: the
   same rows, and the same success or failure.
   */
  lemma ReplayAbsorbs(t: Table, statements: seq<seq<Widget>>, stop: nat)
    requires stop <= |statements|
    ensures AllStatements(AllStatements(t, statements[..stop]).0, statements) == AllStatements(t, statements)
  {
    var attempt := statements[..stop];
    var n := Through(t, attempt);
    var done, rest := attempt[..n], statements[n..];
    ThroughWentThrough(t, attempt);
    DoneArePresent(t, done);
    assert done + rest == statements;
    StatementsCompose(t, done, rest);
    PresentStatementsSkipped(AllStatements(t, done).0, done, rest);
  }

  /** However a batch is cut into statements, all go through iff one statement would, to the same table. */
  lemma {:induction false} CutIrrelevant(t: Table, statements: seq<seq<Widget>>)
    ensures BulkInserted(t, Concat(statements))
         == if AllStatements(t, statements).1 then Some(AllStatements(t, statements).0) else None
    decreases |statements|
  {
    if statements == [] {
    } else {
      BulkCompose(t, statements[0], Concat(statements[1..]));
      if BulkInserted(t, statements[0]).Some? {
        CutIrrelevant(BulkInserted(t, statements[0]).value, statements[1..]);
      }
    }
  }

  lemma {:induction false} BulkCompose(t: Table, a: seq<Widget>, b: seq<Widget>)
    ensures BulkInserted(t, a + b)
         == if BulkInserted(t, a).Some? then BulkInserted(BulkInserted(t, a).value, b) else None
    decreases |a|
  {
    if a == [] {
      assert a + b == b;
    } else {
      assert (a + b)[0] == a[0] && (a + b)[1..] == a[1..] + b;
      if a[0].id in t {
        BulkCompose(t, a[1..], b);
      } else if !NameTaken(t, a[0].body.name) {
        BulkCompose(t[a[0].id := a[0]], a[1..], b);
      }
    }
  }

  /**
   An attempt brings in an id that is not there exactly when one of the statements that go
   through before the first failure has a row of it.
   */
  lemma {:induction false} AttemptBringsIff(t: Table, statements: seq<seq<Widget>>, id: Uuid)
    requires id !in t
    ensures id in AllStatements(t, statements).0 <==> exists i :: 0 <= i < Through(t, statements) && HasRow(statements[i], id)
    decreases |statements|
  {
    if statements == [] || BulkInserted(t, statements[0]).None? {
      assert AllStatements(t, statements).0 == t;
    } else {
      var next := BulkInserted(t, statements[0]).value;
      var n := Through(next, statements[1..]);
      BulkKeepsRows(t, statements[0]);
      if HasRow(statements[0], id) {
        assert id in next;
        AllKeepRows(next, statements[1..]);
        assert 0 < Through(t, statements);
      } else {
        assert id !in next;
        AttemptBringsIff(next, statements[1..], id);
        if i :| 0 <= i < n && HasRow(statements[1..][i], id) {
          assert HasRow(statements[i + 1], id);
        }
        if i :| 0 <= i < n + 1 && HasRow(statements[i], id) {
          assert HasRow(statements[1..][i - 1], id);
        }
      }
    }
  }

  predicate HasRow(ws: seq<Widget>, id: Uuid) {
    exists w | w in ws :: w.id == id
  }
}
