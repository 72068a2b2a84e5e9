/**
 Runs of the widgets table: creates, updates, deletes and import statements in any order,
 the statements of a batch any number of times, and the cursor walks taken meanwhile.
 */
module WidgetHistory {
  import opened Outcomes
  import opened Calendar
  import opened CursorCodec
  import opened Selections
  import opened OffsetPages
  import opened Keyset
  import opened ConcurrentWalk
  import opened TokenWalks
  import opened CursorTokens
  import opened StableWalks
  import opened WidgetTable
  import opened WidgetStore

  /** The table, the batches ever queued, and every id ever drawn with the row it was drawn for. */
  datatype State = State(table: Table, batches: seq<seq<Widget>>, drawn: Table)

  /** An Import step is one statement of one attempt on a batch: its rows from `lo` to `hi`. */
  datatype Step =
    | Create(w: Widget)
    | Update(w: Widget)
    | Delete(id: Uuid)
    | Schedule(ws: seq<Widget>)
    | Import(batch: nat, lo: nat, hi: nat)

  function Drawn(drawn: Table, ws: seq<Widget>): Table
    decreases |ws|
  {
    if ws == [] then drawn else Drawn(drawn[ws[0].id := ws[0]], ws[1..])
  }

  /** A drawn id is a new one, and the rows of a batch draw different ids. */
  ghost predicate Enabled(s: State, step: Step) {
    match step
    case Create(w) => w.id !in s.drawn
    case Schedule(ws) => DistinctIds(ws) && forall w | w in ws :: w.id !in s.drawn
    case Import(b, lo, hi) => b < |s.batches| && lo <= hi <= |s.batches[b]|
    case _ => true
  }

  /** What a step makes of the table, when its statement goes through. */
  function Written(s: State, step: Step): Option<Table>
    requires Enabled(s, step)
  {
    match step
    case Create(w) => Inserted(s.table, w).ToOption()
    case Update(w) => Updated(s.table, w).ToOption()
    case Delete(id) => Deleted(s.table, id).ToOption()
    case Schedule(_) => Some(s.table)
    case Import(b, lo, hi) => BulkInserted(s.table, s.batches[b][lo..hi])
  }

  function Apply(s: State, step: Step): State
    requires Enabled(s, step)
  {
    var table := match Written(s, step) case Some(t) => t case None => s.table;
    match step
    case Create(w) => State(table, s.batches, s.drawn[w.id := w])
    case Schedule(ws) => State(table, s.batches + [ws], Drawn(s.drawn, ws))
    case _ => State(table, s.batches, s.drawn)
  }

  /** What a step does to the table: just what the statement it stands for does. */
  lemma StepMeans(s: State, step: Step)
    requires Indexed(s.table) && Enabled(s, step)
    ensures var t := Apply(s, step).table;
            match step
            case Create(w) =>
              t == if w.id !in s.table && (forall i | i in s.table :: s.table[i].body.name != w.body.name)
                   then s.table[w.id := w] else s.table
            case Update(w) =>
              if w.id in s.table && forall i | i in s.table && i != w.id :: s.table[i].body.name != w.body.name
              then t == s.table[w.id := Row(w.id, s.table[w.id].createdAt, w.updatedAt, w.body)]
              else t == s.table
            case Delete(id) => t == s.table - {id}
            case Schedule(_) => t == s.table
            case Import(b, lo, hi) =>
              t == match BulkInserted(s.table, s.batches[b][lo..hi]) case Some(u) => u case None => s.table
    ensures Apply(s, step).batches == if step.Schedule? then s.batches + [step.ws] else s.batches
  {
    if step.Update? && step.w.id in s.table {
      assert NameTaken(s.table - {step.w.id}, step.w.body.name)
        <==> exists i | i in s.table && i != step.w.id :: s.table[i].body.name == step.w.body.name by {
        forall i | i in s.table && i != step.w.id
          ensures i in s.table - {step.w.id}
        {}
      }
    }
  }

  ghost predicate CanRun(s: State, steps: seq<Step>)
    decreases |steps|
  {
    steps == [] || (Enabled(s, steps[0]) && CanRun(Apply(s, steps[0]), steps[1..]))
  }

  function Run(s: State, steps: seq<Step>): State
    requires CanRun(s, steps)
    decreases |steps|
  {
    if steps == [] then s else Run(Apply(s, steps[0]), steps[1..])
  }

  const START := State(map[], [], map[])

  ghost predicate Inv(s: State) {
    && Indexed(s.table) && BornAs(s.table, s.drawn)
    && (forall b, w | 0 <= b < |s.batches| && w in s.batches[b] :: w.id in s.drawn && s.drawn[w.id] == w)
  }

  lemma {:induction false} DrawnHolds(drawn: Table, ws: seq<Widget>)
    requires DistinctIds(ws) && forall w | w in ws :: w.id !in drawn
    ensures forall id | id in drawn :: id in Drawn(drawn, ws) && Drawn(drawn, ws)[id] == drawn[id]
    ensures forall w | w in ws :: w.id in Drawn(drawn, ws) && Drawn(drawn, ws)[w.id] == w
    decreases |ws|
  {
    if ws == [] {
    } else {
      assert ws == [ws[0]] + ws[1..] && ws[0] in ws;
      forall w | w in ws[1..]
        ensures w.id !in drawn[ws[0].id := ws[0]]
      {
        var i :| 0 <= i < |ws[1..]| && ws[1..][i] == w;
        assert ws[i + 1] == w;
      }
      DrawnHolds(drawn[ws[0].id := ws[0]], ws[1..]);
    }
  }

  /** Ids once drawn keep their rows on record. */
  ghost predicate OnRecord(s: State, u: State) {
    forall id | id in s.drawn :: id in u.drawn && u.drawn[id] == s.drawn[id]
  }

  lemma StepKeepsInv(s: State, step: Step)
    requires Inv(s) && Enabled(s, step)
    ensures Inv(Apply(s, step)) && OnRecord(s, Apply(s, step))
  {
    match step
    case Create(w) => WritesKeepIndexes(s.table, w, w.id);
    case Update(w) => WritesKeepIndexes(s.table, w, w.id);
    case Delete(id) =>
      if id in s.table {
        WritesKeepIndexes(s.table, s.table[id], id);
      }
    case Schedule(ws) => DrawnHolds(s.drawn, ws);
    case Import(b, lo, hi) =>
      var rows := s.batches[b][lo..hi];
      if BulkInserted(s.table, rows).Some? {
        BulkKeepsRows(s.table, rows);
      }
  }

  /**
   In every run ids and names stay unique, and an id once drawn keeps one creation time: that
   of every row ever stored under it.
   */
  lemma {:induction false} RunKeepsInv(s: State, steps: seq<Step>)
    requires Inv(s) && CanRun(s, steps)
    ensures Inv(Run(s, steps)) && OnRecord(s, Run(s, steps))
    decreases |steps|
  {
    if steps == [] {
    } else {
      StepKeepsInv(s, steps[0]);
      RunKeepsInv(Apply(s, steps[0]), steps[1..]);
    }
  }

  lemma {:induction false} RunSplit(s: State, a: seq<Step>, b: seq<Step>)
    requires CanRun(s, a + b)
    ensures CanRun(s, a) && CanRun(Run(s, a), b) && Run(s, a + b) == Run(Run(s, a), b)
    decreases |a|
  {
    if a == [] {
      assert a + b == b;
    } else {
      assert (a + b)[0] == a[0] && (a + b)[1..] == a[1..] + b;
      RunSplit(Apply(s, a[0]), a[1..], b);
    }
  }

  /** The state after the first n steps. */
  function After(s: State, steps: seq<Step>, n: nat): State
    requires CanRun(s, steps) && n <= |steps|
  {
    assert steps[..n] + steps[n..] == steps;
    RunSplit(s, steps[..n], steps[n..]);
    Run(s, steps[..n])
  }

  lemma AfterOnRecord(s: State, steps: seq<Step>, n: nat)
    requires Inv(s) && CanRun(s, steps) && n <= |steps|
    ensures Inv(After(s, steps, n)) && OnRecord(After(s, steps, n), Run(s, steps))
  {
    assert steps[..n] + steps[n..] == steps;
    RunSplit(s, steps[..n], steps[n..]);
    RunKeepsInv(s, steps[..n]);
    RunKeepsInv(Run(s, steps[..n]), steps[n..]);
  }

  /** Two moments of one run never show an id with two creation times, deleted in between or not. */
  lemma CreationTimeNeverChanges(s: State, steps: seq<Step>, m: nat, n: nat, id: Uuid)
    requires Inv(s) && CanRun(s, steps) && m <= |steps| && n <= |steps|
    requires id in After(s, steps, m).table && id in After(s, steps, n).table
    ensures After(s, steps, m).table[id].createdAt == After(s, steps, n).table[id].createdAt
  {
    AfterOnRecord(s, steps, m);
    AfterOnRecord(s, steps, n);
  }

  // ---- deleted and imported rows ----

  /** The step is an import statement with a row of that id. */
  predicate Brings(s: State, step: Step, id: Uuid)
    requires Enabled(s, step)
  {
    step.Import? && exists w | w in s.batches[step.batch][step.lo..step.hi] :: w.id == id
  }

  ghost predicate NoneBrings(s: State, steps: seq<Step>, id: Uuid)
    requires CanRun(s, steps)
    decreases |steps|
  {
    steps == [] || (!Brings(s, steps[0], id) && NoneBrings(Apply(s, steps[0]), steps[1..], id))
  }

  lemma StepLeavesGone(s: State, step: Step, id: Uuid)
    requires Inv(s) && Enabled(s, step) && !Brings(s, step, id)
    requires id in s.drawn && id !in s.table
    ensures id !in Apply(s, step).table
  {
    if step.Import? {
      var rows := s.batches[step.batch][step.lo..step.hi];
      if BulkInserted(s.table, rows).Some? {
        BulkKeepsRows(s.table, rows);
      }
    }
  }

  /** A row that is gone stays gone, whatever updates were still under way, until an import of it is replayed. */
  lemma {:induction false} GoneStaysGone(s: State, steps: seq<Step>, id: Uuid)
    requires Inv(s) && CanRun(s, steps) && NoneBrings(s, steps, id)
    requires id in s.drawn && id !in s.table
    ensures id !in Run(s, steps).table
    decreases |steps|
  {
    if steps == [] {
    } else {
      StepKeepsInv(s, steps[0]);
      StepLeavesGone(s, steps[0], id);
      GoneStaysGone(Apply(s, steps[0]), steps[1..], id);
    }
  }

  /** The row written is the one there was, unless an update or a delete of the id. */
  lemma StepKeepsRow(s: State, step: Step, id: Uuid)
    requires Inv(s) && Enabled(s, step) && id in s.table && step != Delete(id)
    ensures id in Apply(s, step).table
    ensures !(step.Update? && step.w.id == id) ==> Apply(s, step).table[id] == s.table[id]
  {
    if step.Import? {
      var rows := s.batches[step.batch][step.lo..step.hi];
      if BulkInserted(s.table, rows).Some? {
        BulkKeepsRows(s.table, rows);
      }
    }
  }

  lemma {:induction false} RunKeepsRow(s: State, steps: seq<Step>, id: Uuid)
    requires Inv(s) && CanRun(s, steps) && id in s.table && Delete(id) !in steps
    ensures id in Run(s, steps).table
    ensures (forall u | u in steps && u.Update? :: u.w.id != id) ==> Run(s, steps).table[id] == s.table[id]
    decreases |steps|
  {
    if steps == [] {
    } else {
      StepKeepsInv(s, steps[0]);
      StepKeepsRow(s, steps[0], id);
      RunKeepsRow(Apply(s, steps[0]), steps[1..], id);
    }
  }

  /** Step number n is a statement that went through. */
  ghost predicate WentThrough(s: State, steps: seq<Step>, n: nat)
    requires CanRun(s, steps) && n < |steps|
  {
    var at := After(s, steps, n);
    Enabled(at, steps[n]) && Written(at, steps[n]).Some?
  }

  /**
   One statement of one attempt that went through and carried a row leaves that row's id in
   the table for as long as it is not deleted, and its content as drawn for as long as it is
   not updated: replays, other batches and creates change neither.
   */
  lemma ImportedStays(s: State, steps: seq<Step>, n: nat, row: Widget)
    requires Inv(s) && CanRun(s, steps) && n < |steps| && steps[n].Import? && WentThrough(s, steps, n)
    requires row in After(s, steps, n).batches[steps[n].batch][steps[n].lo..steps[n].hi]
    requires Delete(row.id) !in steps[n + 1..]
    ensures row.id in Run(s, steps).table
    ensures (forall u | u in steps[n + 1..] && u.Update? :: u.w.id != row.id) && row.id !in After(s, steps, n).table ==>
              Run(s, steps).table[row.id] == row
  {
    var at, step := After(s, steps, n), steps[n];
    assert steps == steps[..n] + steps[n..] && steps[n..][0] == step && steps[n..][1..] == steps[n + 1..];
    RunSplit(s, steps[..n], steps[n..]);
    AfterOnRecord(s, steps, n);
    StepKeepsInv(at, step);
    var rows := at.batches[step.batch][step.lo..step.hi];
    BulkKeepsRows(at.table, rows);
    var next := Apply(at, step);
    if row.id !in at.table {
      var got := next.table[row.id];
      assert got in rows && got.id == row.id;
      assert at.drawn[row.id] == row && at.drawn[row.id] == got;
    }
    RunKeepsRow(next, steps[n + 1..], row.id);
  }

  lemma {:induction false} BatchesStay(s: State, steps: seq<Step>)
    requires CanRun(s, steps)
    ensures s.batches <= Run(s, steps).batches
    decreases |steps|
  {
    if steps == [] {
    } else {
      BatchesStay(Apply(s, steps[0]), steps[1..]);
    }
  }

  lemma BatchAt(s: State, steps: seq<Step>, n: nat, b: nat)
    requires CanRun(s, steps) && n <= |steps| && b < |After(s, steps, n).batches|
    ensures b < |Run(s, steps).batches| && After(s, steps, n).batches[b] == Run(s, steps).batches[b]
  {
    assert steps[..n] + steps[n..] == steps;
    RunSplit(s, steps[..n], steps[n..]);
    BatchesStay(Run(s, steps[..n]), steps[n..]);
  }

  /** The statements of batch b, cut at `cuts`, all went through, at the given steps of the run and in any order. */
  ghost predicate AllWentThrough(s: State, steps: seq<Step>, b: nat, at: seq<nat>, cuts: seq<nat>)
    requires CanRun(s, steps) && b < |Run(s, steps).batches|
  {
    && |cuts| == |at| + 1 && cuts[0] == 0 && cuts[|at|] == |Run(s, steps).batches[b]|
    && forall i | 0 <= i < |at| ::
         at[i] < |steps| && steps[at[i]] == Import(b, cuts[i], cuts[i + 1]) && WentThrough(s, steps, at[i])
  }

  /** The piece a row of a cut batch lies in. */
  function Piece(cuts: seq<nat>, j: nat): (i: nat)
    requires |cuts| >= 1 && cuts[0] <= j < cuts[|cuts| - 1]
    ensures i + 1 < |cuts| && cuts[i] <= j < cuts[i + 1]
    decreases |cuts|
  {
    if cuts[|cuts| - 2] <= j then |cuts| - 2 else Piece(cuts[..|cuts| - 1], j)
  }

  /** The statement whose piece holds row j went through, and row j was among its rows. */
  lemma PieceWentThrough(s: State, steps: seq<Step>, b: nat, at: seq<nat>, cuts: seq<nat>, j: nat)
    requires CanRun(s, steps) && b < |Run(s, steps).batches| && j < |Run(s, steps).batches[b]|
    requires AllWentThrough(s, steps, b, at, cuts)
    ensures var i := Piece(cuts, j);
            && i < |at| && at[i] < |steps| && steps[at[i]] == Import(b, cuts[i], cuts[i + 1]) && WentThrough(s, steps, at[i])
            && Run(s, steps).batches[b][j] in After(s, steps, at[i]).batches[b][cuts[i]..cuts[i + 1]]
  {
    var i := Piece(cuts, j);
    assert steps[at[i]] == Import(b, cuts[i], cuts[i + 1]) && WentThrough(s, steps, at[i]);
    BatchAt(s, steps, at[i], b);
    RowInPiece(Run(s, steps).batches[b], cuts[i], cuts[i + 1], j);
  }

  lemma RowInPiece<T>(batch: seq<T>, lo: nat, hi: nat, j: nat)
    requires lo <= j < hi <= |batch|
    ensures batch[j] in batch[lo..hi]
  {
    assert batch[lo..hi][j - lo] == batch[j];
  }

  /**
   Once every statement of a batch went through, in one attempt or in several, whatever ran
   in between, every id of the batch is in the table at the end, unless deleted since.
   */
  lemma WholeBatchStays(s: State, steps: seq<Step>, b: nat, at: seq<nat>, cuts: seq<nat>, j: nat)
    requires Inv(s) && CanRun(s, steps) && b < |Run(s, steps).batches| && j < |Run(s, steps).batches[b]|
    requires AllWentThrough(s, steps, b, at, cuts)
    requires forall i | 0 <= i < |at| :: Delete(Run(s, steps).batches[b][j].id) !in steps[at[i] + 1..]
    ensures Run(s, steps).batches[b][j].id in Run(s, steps).table
  {
    var i := Piece(cuts, j);
    PieceWentThrough(s, steps, b, at, cuts, j);
    ImportedStays(s, steps, at[i], Run(s, steps).batches[b][j]);
  }

  lemma RunCons(s: State, step: Step, steps: seq<Step>)
    requires Enabled(s, step) && CanRun(Apply(s, step), steps)
    ensures CanRun(s, [step] + steps) && Run(s, [step] + steps) == Run(Apply(s, step), steps)
  {
    assert ([step] + steps)[1..] == steps;
  }

  /**
   A step brings a row back exactly when it is an import statement with a row of that id and
   goes through; what comes back is the row the id was drawn for, its updates forgotten.
   */
  lemma BroughtBackIff(s: State, step: Step, id: Uuid)
    requires Inv(s) && Enabled(s, step) && id in s.drawn && id !in s.table
    ensures id in Apply(s, step).table <==> Brings(s, step, id) && Written(s, step).Some?
    ensures id in Apply(s, step).table ==> Apply(s, step).table[id] == s.drawn[id]
  {
    if step.Import? {
      var rows := s.batches[step.batch][step.lo..step.hi];
      if BulkInserted(s.table, rows).Some? {
        BulkKeepsRows(s.table, rows);
      }
    }
  }

  /** Step number n is an import statement with a row of that id, and goes through. */
  ghost predicate BringsAt(s: State, steps: seq<Step>, id: Uuid, n: nat)
    requires CanRun(s, steps) && n < |steps|
  {
    WentThrough(s, steps, n) && Brings(After(s, steps, n), steps[n], id)
  }

  lemma AfterFirst(s: State, steps: seq<Step>, n: nat)
    requires CanRun(s, steps) && 0 < n <= |steps|
    ensures After(s, steps, n) == After(Apply(s, steps[0]), steps[1..], n - 1)
  {
    assert steps[..n][1..] == steps[1..][..n - 1];
  }

  lemma BringsLater(s: State, steps: seq<Step>, id: Uuid, n: nat)
    requires CanRun(s, steps) && 0 < n < |steps|
    ensures BringsAt(s, steps, id, n) <==> BringsAt(Apply(s, steps[0]), steps[1..], id, n - 1)
  {
    AfterFirst(s, steps, n);
    assert steps[1..][n - 1] == steps[n];
  }

  lemma BringsFirst(s: State, steps: seq<Step>, id: Uuid)
    requires CanRun(s, steps) && |steps| > 0
    ensures BringsAt(s, steps, id, 0) <==> Brings(s, steps[0], id) && Written(s, steps[0]).Some?
  {
    assert steps[..0] == [] && After(s, steps, 0) == s;
  }

  /**
   Over a run in which it is not deleted again, a row that is gone is back at the end exactly
   when some import statement with a row of that id went through: replaying an import is
   harmless for every row but those deleted since.
   */
  lemma {:induction false} BackAtTheEndIff(s: State, steps: seq<Step>, id: Uuid)
    requires Inv(s) && CanRun(s, steps) && id in s.drawn && id !in s.table && Delete(id) !in steps
    ensures id in Run(s, steps).table <==> exists n: nat :: n < |steps| && BringsAt(s, steps, id, n)
    decreases |steps|
  {
    if steps == [] {
      assert Run(s, steps) == s;
    } else {
      var next, rest := Apply(s, steps[0]), steps[1..];
      StepKeepsInv(s, steps[0]);
      BroughtBackIff(s, steps[0], id);
      BringsFirst(s, steps, id);
      if id in next.table {
        assert BringsAt(s, steps, id, 0);
        RunKeepsRow(next, rest, id);
      } else {
        BackAtTheEndIff(next, rest, id);
        BringsShift(s, steps, id);
      }
    }
  }

  lemma BringsShift(s: State, steps: seq<Step>, id: Uuid)
    requires CanRun(s, steps) && |steps| > 0 && !BringsAt(s, steps, id, 0)
    ensures (exists n: nat :: n < |steps| && BringsAt(s, steps, id, n))
       <==> exists n: nat :: n < |steps[1..]| && BringsAt(Apply(s, steps[0]), steps[1..], id, n)
  {
    if n: nat :| n < |steps| && BringsAt(s, steps, id, n) {
      BringsLater(s, steps, id, n);
      assert BringsAt(Apply(s, steps[0]), steps[1..], id, n - 1);
    }
    if n: nat :| n < |steps[1..]| && BringsAt(Apply(s, steps[0]), steps[1..], id, n) {
      BringsLater(s, steps, id, n + 1);
      assert BringsAt(s, steps, id, n + 1);
    }
  }

  /** A whole attempt with nothing in between brings a gone row back exactly when a statement before the first failure has it. */
  lemma AttemptBringsBackIff(s: State, b: nat, sizes: seq<nat>, id: Uuid)
    requires b < |s.batches| && Sum(sizes) == |s.batches[b]| && id !in s.table
    ensures var statements := Statements(s.batches[b], sizes); var steps := Attempt(s.table, s.batches[b], b, 0, sizes, |sizes|);
            && CanRun(s, steps)
            && (id in Run(s, steps).table
                <==> exists i :: 0 <= i < Through(s.table, statements) && HasRow(statements[i], id))
  {
    var statements := Statements(s.batches[b], sizes);
    AttemptIsBulkInsert(s, b, sizes, |sizes|);
    assert statements[..|sizes|] == statements;
    AttemptBringsIff(s.table, statements, id);
  }

  lemma OneRow(t: Table, w: Widget)
    requires w.id !in t && !NameTaken(t, w.body.name)
    ensures BulkInserted(t, [w]) == Some(t[w.id := w])
  {
    assert BulkInserted(t[w.id := w], [w][1..]) == Some(t[w.id := w]);
  }

  /** A row deleted and its import replayed: it is back as it was drawn, its updates forgotten. */
  lemma ReplayUndoesDelete(s: State, b: nat, i: nat)
    requires Inv(s) && b < |s.batches| && i < |s.batches[b]|
    requires var w := s.batches[b][i]; w.id in s.table && !NameTaken(s.table - {w.id}, w.body.name)
    ensures var w := s.batches[b][i]; var steps := [Delete(w.id)] + [Import(b, i, i + 1)];
            CanRun(s, steps) && Run(s, steps).table == s.table[w.id := w]
  {
    var w := s.batches[b][i];
    var gone := Apply(s, Delete(w.id));
    OneRow(gone.table, w);
    assert s.batches[b][i..i + 1] == [w];
    var back := Apply(gone, Import(b, i, i + 1));
    assert gone.table[w.id := w] == s.table[w.id := w];
    assert CanRun(back, []);
    RunCons(gone, Import(b, i, i + 1), []);
    assert [Import(b, i, i + 1)] + [] == [Import(b, i, i + 1)];
    RunCons(s, Delete(w.id), [Import(b, i, i + 1)]);
  }

  /** The first of two rows imported, and the name of the second taken by a create meanwhile. */
  function NameTakenMeanwhile(w1: Widget, w2: Widget, x: Widget): State
    requires x.id != w1.id && x.id != w2.id && w1.id != w2.id
  {
    State(map[w1.id := w1][x.id := x], [[w1, w2]], map[w1.id := w1][w2.id := w2][x.id := x])
  }

  lemma ReachesNameTaken(w1: Widget, w2: Widget, x: Widget)
    requires x.id != w1.id && x.id != w2.id && w1.id != w2.id
    requires w1.body.name != w2.body.name && x.body.name == w2.body.name
    ensures var steps := [Schedule([w1, w2])] + ([Import(0, 0, 1)] + ([Create(x)] + []));
            CanRun(START, steps) && Run(START, steps) == NameTakenMeanwhile(w1, w2, x)
  {
    var ws := [w1, w2];
    var s1 := Apply(START, Schedule(ws));
    assert ws[1..] == [w2] && [w2][1..] == [];
    assert Drawn(map[], ws) == Drawn(map[w1.id := w1], [w2]) == map[w1.id := w1][w2.id := w2];
    assert s1 == State(map[], [ws], map[w1.id := w1][w2.id := w2]);
    assert ws[0..1] == [w1] && [w1][1..] == [];
    assert BulkInserted(map[], [w1]) == BulkInserted(map[w1.id := w1], []);
    var s2 := Apply(s1, Import(0, 0, 1));
    assert s2 == State(map[w1.id := w1], [ws], s1.drawn);
    var s3 := Apply(s2, Create(x));
    assert s3 == NameTakenMeanwhile(w1, w2, x);
    assert CanRun(s3, []);
    RunCons(s2, Create(x), []);
    RunCons(s1, Import(0, 0, 1), [Create(x)] + []);
    RunCons(START, Schedule(ws), [Import(0, 0, 1)] + ([Create(x)] + []));
  }

  /**
   A batch stopped after its first row, then a create that takes the second row's name: every
   replay of the batch fails and leaves everything as it was.
   */
  lemma ReplayFailsOnTakenName(w1: Widget, w2: Widget, x: Widget)
    requires x.id != w1.id && x.id != w2.id && w1.id != w2.id
    requires w1.body.name != w2.body.name && x.body.name == w2.body.name
    ensures var steps := [Schedule([w1, w2])] + ([Import(0, 0, 1)] + ([Create(x)] + []));
            && CanRun(START, steps)
            && Enabled(Run(START, steps), Import(0, 0, 2)) && Written(Run(START, steps), Import(0, 0, 2)).None?
            && Apply(Run(START, steps), Import(0, 0, 2)) == Run(START, steps)
  {
    ReachesNameTaken(w1, w2, x);
    var t := NameTakenMeanwhile(w1, w2, x).table;
    assert [w1, w2][0..2] == [w1, w2] && [w1, w2][1..] == [w2];
    assert w1.id in t && w2.id !in t;
    assert x.id in t && t[x.id].body.name == w2.body.name;
    assert BulkInserted(t, [w1, w2]) == BulkInserted(t, [w2]);
  }

  // ---- an attempt is a run of its statements ----

  /** The statements of one attempt, until one fails or the connection is lost. */
  function Attempt(t: Table, ws: seq<Widget>, b: nat, row: nat, sizes: seq<nat>, stop: nat): seq<Step>
    requires row + Sum(sizes) == |ws|
    decreases |sizes|
  {
    if sizes == [] || stop == 0 then []
    else match BulkInserted(t, ws[row..row + sizes[0]])
      case None => [Import(b, row, row + sizes[0])]
      case Some(next) =>
        [Import(b, row, row + sizes[0])] + Attempt(next, ws, b, row + sizes[0], sizes[1..], stop - 1)
  }

  lemma FirstStatement(ws: seq<Widget>, row: nat, sizes: seq<nat>)
    requires row + Sum(sizes) == |ws| && sizes != []
    ensures var n := row + sizes[0];
            Statements(ws[row..], sizes) == [ws[row..n]] + Statements(ws[n..], sizes[1..])
  {
    var n, tail := row + sizes[0], ws[row..];
    assert tail[..sizes[0]] == ws[row..n];
    assert tail[sizes[0]..] == ws[n..];
  }

  lemma TakeFirst<T>(all: seq<T>, x: T, rest: seq<T>, stop: nat)
    requires all == [x] + rest && stop > 0
    ensures all[..Clip(stop, |all|)] == [x] + rest[..Clip(stop - 1, |rest|)]
  {}

  lemma AllCons(t: Table, ws: seq<Widget>, rest: seq<seq<Widget>>)
    ensures AllStatements(t, [ws] + rest)
         == match BulkInserted(t, ws) case None => (t, false) case Some(next) => AllStatements(next, rest)
  {
    assert ([ws] + rest)[1..] == rest;
  }

  /** What the statements of one attempt leave of a table. */
  function Attempted(t: Table, ws: seq<Widget>, row: nat, sizes: seq<nat>, stop: nat): Table
    requires row + Sum(sizes) == |ws|
    decreases |sizes|
  {
    if sizes == [] || stop == 0 then t
    else match BulkInserted(t, ws[row..row + sizes[0]])
      case None => t
      case Some(next) => Attempted(next, ws, row + sizes[0], sizes[1..], stop - 1)
  }

  lemma {:induction false} AttemptedIsStatements(t: Table, ws: seq<Widget>, row: nat, sizes: seq<nat>, stop: nat)
    requires row + Sum(sizes) == |ws|
    ensures Attempted(t, ws, row, sizes, stop) == AllStatements(t, Statements(ws[row..], sizes)[..Clip(stop, |sizes|)]).0
    decreases |sizes|
  {
    if sizes == [] || stop == 0 {
    } else {
      var n := row + sizes[0];
      var rest := Statements(ws[n..], sizes[1..]);
      FirstStatement(ws, row, sizes);
      TakeFirst(Statements(ws[row..], sizes), ws[row..n], rest, stop);
      AllCons(t, ws[row..n], rest[..Clip(stop - 1, |rest|)]);
      if BulkInserted(t, ws[row..n]).Some? {
        AttemptedIsStatements(BulkInserted(t, ws[row..n]).value, ws, n, sizes[1..], stop - 1);
      }
    }
  }

  lemma {:induction false} AttemptRuns(s: State, b: nat, row: nat, sizes: seq<nat>, stop: nat)
    requires b < |s.batches| && row + Sum(sizes) == |s.batches[b]|
    ensures var ws := s.batches[b]; var steps := Attempt(s.table, ws, b, row, sizes, stop);
            CanRun(s, steps) && Run(s, steps) == s.(table := Attempted(s.table, ws, row, sizes, stop))
    decreases |sizes|
  {
    var ws := s.batches[b];
    if sizes == [] || stop == 0 {
    } else {
      var n := row + sizes[0];
      var step := Import(b, row, n);
      var next := Apply(s, step);
      if BulkInserted(s.table, ws[row..n]).Some? {
        AttemptRuns(next, b, n, sizes[1..], stop - 1);
        RunCons(s, step, Attempt(next.table, ws, b, n, sizes[1..], stop - 1));
      } else {
        RunCons(s, step, []);
        assert [step] + [] == [step];
      }
    }
  }

  /** Run with nothing in between, the statements of an attempt do what the store's bulk insert does. */
  lemma AttemptIsBulkInsert(s: State, b: nat, sizes: seq<nat>, stop: nat)
    requires b < |s.batches| && Sum(sizes) == |s.batches[b]|
    ensures var ws := s.batches[b]; var steps := Attempt(s.table, ws, b, 0, sizes, stop);
            && CanRun(s, steps)
            && Run(s, steps) == s.(table := AllStatements(s.table, Statements(ws, sizes)[..Clip(stop, |sizes|)]).0)
  {
    AttemptRuns(s, b, 0, sizes, stop);
    AttemptedIsStatements(s.table, s.batches[b], 0, sizes, stop);
    assert s.batches[b][0..] == s.batches[b];
  }

  // ---- cursor walks over a run ----

  /** The tables at the given moments of a run. */
  function At(s: State, steps: seq<Step>, moments: seq<nat>): (maps: seq<Table>)
    requires CanRun(s, steps) && forall m | m in moments :: m <= |steps|
    ensures |maps| == |moments|
    ensures forall i | 0 <= i < |maps| :: moments[i] in moments && maps[i] == After(s, steps, moments[i]).table
  {
    seq(|moments|, i requires 0 <= i < |moments| => assert moments[i] in moments; After(s, steps, moments[i]).table)
  }

  /**
   A client that follows the tokens of the widget listing, its requests met at any moments of
   any run of creates, updates, deletes and import replays: newest first, no widget twice, and
   every widget that matched at every request once.
   */
  lemma WidgetWalkIsStable(
      s: State, steps: seq<Step>, moments: seq<nat>, tables: seq<seq<Widget>>, replies: seq<Reply<WidgetBody>>,
      matches: Widget -> bool, limit: nat)
    requires Inv(s) && CanRun(s, steps) && forall m | m in moments :: m <= |steps|
    requires |tables| == |moments| && forall i | 0 <= i < |tables| :: Layout(tables[i], At(s, steps, moments)[i])
    requires IsTokenWalk(CURSOR_TOKENS, tables, replies, matches, limit)
    ensures StableOutput(replies, At(s, steps, moments), matches)
  {
    var maps, drawn := At(s, steps, moments), Run(s, steps).drawn;
    forall i | 0 <= i < |maps|
      ensures BornAs(maps[i], drawn)
    {
      AfterOnRecord(s, steps, moments[i]);
    }
    WalkIsStable(tables, maps, drawn, replies, matches, limit);
  }
}
