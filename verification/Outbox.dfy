/**
 Creating a widget: its row and its event are written in one transaction, whose callback
 the database may run again after a deadlock. And updating one, which reads and writes
 outside any transaction.
 */
module Outbox {
  import opened Outcomes
  import opened Calendar
  import opened CursorCodec
  import opened Keyset
  import opened WidgetTable

  datatype Created = Created(id: Uuid, name: string, description: string, createdAt: Instant)

  /** What the envelope of an event fixes when it is scheduled, anew in every run of the callback. */
  datatype Envelope = Envelope(event: Uuid, time: Instant)

  datatype Task = Task(envelope: Envelope, body: Created)

  /** What a transaction commits: the widgets, and every task ever put into the queue of events. */
  datatype Db = Db(widgets: Table, tasks: seq<Task>)

  /** A store without tasks, one whose route drops the event (broker off), one that queues it. */
  datatype Wiring = NoTasks | Dropped | Queued

  datatype TranError = Exists | NotWired | Failed

  function EventOf(w: Widget): Created {
    Created(w.id, w.body.name, w.body.description, w.createdAt)
  }

  function TasksOf(w: Widget, wiring: Wiring, env: Envelope): seq<Task> {
    if wiring.Queued? then [Task(env, EventOf(w))] else []
  }

  /** The callback: create the row, then schedule the event, on the transaction's own view. */
  function Callback(db: Db, w: Widget, wiring: Wiring, env: Envelope): Result<Db, TranError> {
    match Inserted(db.widgets, w)
    case Err(_) => Err(Exists)
    case Ok(widgets) =>
      match wiring
      case NoTasks => Err(NotWired)
      case Dropped => Ok(Db(widgets, db.tasks))
      case Queued => Ok(Db(widgets, db.tasks + [Task(env, EventOf(w))]))
  }

  /** How a run of the callback ends: cut short by a deadlock or another failure, or left to itself and its commit. */
  datatype Fate = Deadlock | Breaks | Commits | CommitLost(applied: bool)

  /** One run: the committed database it starts from, others having written meanwhile. */
  datatype Attempt = Attempt(before: Db, env: Envelope, fate: Fate)

  datatype Outcome = Outcome(base: Db, db: Db, result: Result<(), TranError>)

  function Transact(db: Db, attempts: seq<Attempt>, w: Widget, wiring: Wiring): Outcome
    decreases |attempts|
  {
    if attempts == [] then Outcome(db, db, Err(Failed))
    else
      var before := attempts[0].before;
      match attempts[0].fate
      case Deadlock => Transact(before, attempts[1..], w, wiring)
      case Breaks => Outcome(before, before, Err(Failed))
      case Commits =>
        (match Callback(before, w, wiring, attempts[0].env)
         case Err(e) => Outcome(before, before, Err(e))
         case Ok(after) => Outcome(before, after, Ok(())))
      case CommitLost(applied) =>
        (match Callback(before, w, wiring, attempts[0].env)
         case Err(e) => Outcome(before, before, Err(e))
         case Ok(after) => Outcome(before, if applied then after else before, Err(Failed)))
  }

  function TasksFor(tasks: seq<Task>, id: Uuid): nat {
    if tasks == [] then 0
    else TasksFor(tasks[..|tasks| - 1], id) + (if tasks[|tasks| - 1].body.id == id then 1 else 0)
  }

  /** The task carries the row's id, name, description and creation time, under the envelope. */
  predicate Tells(t: Task, w: Widget, env: Envelope) {
    && t.envelope == env
    && t.body.id == w.id && t.body.name == w.body.name && t.body.description == w.body.description
    && t.body.createdAt == w.createdAt
  }

  /** The row that was not there, and with the broker on one event more, the last task, which tells of it. */
  ghost predicate Whole(base: Db, db: Db, w: Widget, wiring: Wiring, env: Envelope) {
    && w.id !in base.widgets && !NameTaken(base.widgets, w.body.name)
    && db.widgets == base.widgets[w.id := w]
    && (if wiring.Queued? then
          && |db.tasks| == |base.tasks| + 1 && base.tasks <= db.tasks && Tells(db.tasks[|base.tasks|], w, env)
          && TasksFor(db.tasks, w.id) == TasksFor(base.tasks, w.id) + 1
        else db.tasks == base.tasks)
  }

  lemma CallbackIsWhole(base: Db, w: Widget, wiring: Wiring, env: Envelope)
    ensures Callback(base, w, wiring, env).Ok? ==>
              Whole(base, Callback(base, w, wiring, env).value, w, wiring, env) && !wiring.NoTasks?
  {
    assert (base.tasks + [Task(env, EventOf(w))])[..|base.tasks|] == base.tasks;
    assert base.tasks + [] == base.tasks;
  }

  /** The first run that no deadlock cuts short. */
  function FirstEnded(attempts: seq<Attempt>): (k: nat)
    ensures k <= |attempts| && forall i | 0 <= i < k :: attempts[i].fate.Deadlock?
    ensures k < |attempts| ==> !attempts[k].fate.Deadlock?
  {
    if attempts == [] || !attempts[0].fate.Deadlock? then 0 else 1 + FirstEnded(attempts[1..])
  }

  /** The transaction left its base as it was, or went through whole in the run that ended it. */
  ghost predicate AllOrNothing(o: Outcome, attempts: seq<Attempt>, w: Widget, wiring: Wiring) {
    var k := FirstEnded(attempts);
    || o.db == o.base
    || (k < |attempts| && o.base == attempts[k].before && Whole(o.base, o.db, w, wiring, attempts[k].env))
  }

  /**
   However many runs of the callback were rolled back, and wherever the last one ended, what
   is committed is the database it started from with the row and its event, or just that
   database. Success means both are in; a taken id or name, or a store without tasks, neither.
   */
  lemma {:induction false} BothOrNeither(db: Db, attempts: seq<Attempt>, w: Widget, wiring: Wiring)
    ensures var o := Transact(db, attempts, w, wiring);
            && AllOrNothing(o, attempts, w, wiring)
            && (o.result.Ok? ==> o.db != o.base)
            && (o.result.Err? && !o.result.error.Failed? ==> o.db == o.base)
            && (wiring.NoTasks? ==> o.result.Err? && o.db == o.base)
    decreases |attempts|
  {
    if attempts == [] {
      assert Transact(db, attempts, w, wiring).base == db;
    } else {
      var before := attempts[0].before;
      if attempts[0].fate.Deadlock? {
        BothOrNeither(before, attempts[1..], w, wiring);
      } else {
        CallbackIsWhole(before, w, wiring, attempts[0].env);
      }
    }
  }

  /**
   Create succeeds exactly when the first run that no deadlock cuts short finds id and name
   free, has somewhere to put the event, and learns that its commit went through. It reports a
   duplicate exactly when that run, not failing otherwise, finds id or name taken.
   */
  lemma {:induction false} SucceedsIff(db: Db, attempts: seq<Attempt>, w: Widget, wiring: Wiring)
    ensures var o, k := Transact(db, attempts, w, wiring), FirstEnded(attempts);
            var taken := w.id in o.base.widgets || NameTaken(o.base.widgets, w.body.name);
            && (k < |attempts| ==> o.base == attempts[k].before)
            && (o.result.Ok? <==> k < |attempts| && attempts[k].fate.Commits? && !wiring.NoTasks? && !taken)
            && (o.result == Err(Exists) <==> k < |attempts| && !attempts[k].fate.Breaks? && taken)
            && (o.db != o.base <==>
                  && k < |attempts| && (attempts[k].fate.Commits? || attempts[k].fate == CommitLost(true))
                  && !wiring.NoTasks? && !taken)
    decreases |attempts|
  {
    if attempts == [] {
      assert FirstEnded(attempts) == 0;
    } else if attempts[0].fate.Deadlock? {
      SucceedsIff(attempts[0].before, attempts[1..], w, wiring);
    }
  }

  // ---- the widget service ----

  datatype Patch = Patch(name: Option<string>, description: Option<string>)

  function Patched(w: Widget, p: Patch, now: Instant): Widget {
    var name := if p.name.Some? then p.name.value else w.body.name;
    var description := if p.description.Some? then p.description.value else w.body.description;
    w.(body := WidgetBody(name, description), updatedAt := now)
  }

  /** Reads the row, applies the patch to it, and writes name and description back: two statements. */
  function ReadThenWrite(read: Table, write: Table, id: Uuid, p: Patch, now: Instant): Result<Table, StoreError> {
    if id !in read then Err(NotFound) else Updated(write, Patched(read[id], p, now))
  }

  datatype CoreError = AlreadyExistsError(name: string) | Internal | ReadOnly | NotFoundError(id: Uuid)

  class Core {
    var db: Db
    var created: nat
    const wiring: Wiring

    constructor (db: Db, wiring: Wiring)
      ensures this.db == db && created == 0 && this.wiring == wiring
    {
      this.db, created, this.wiring := db, 0, wiring;
    }

    /** Creates a widget under a fresh id; the counter moves exactly when the caller is told it is in. */
    method Create(body: WidgetBody, id: Uuid, now: Instant, readOnly: bool, attempts: seq<Attempt>)
      returns (r: Result<Widget, CoreError>)
      modifies this
      ensures var w := Row(id, now, now, body); var o := Transact(old(db), attempts, w, wiring);
              if readOnly then db == old(db) && r == Err(ReadOnly)
              else
                && db == o.db
                && (r.Ok? <==> o.result.Ok?) && (r.Ok? ==> r.value == w)
                && (r.Err? ==> r.error == if o.result == Err(Exists) then AlreadyExistsError(body.name) else Internal)
      ensures created == old(created) + if r.Ok? then 1 else 0
      ensures r.Ok? ==> id in db.widgets && db.widgets[id] == Row(id, now, now, body)
      ensures r.Ok? && wiring.Queued? ==>
                && |db.tasks| > 0
                && var event := db.tasks[|db.tasks| - 1].body;
                   event.id == id && event.name == body.name && event.description == body.description && event.createdAt == now
    {
      if readOnly {
        return Err(ReadOnly);
      }
      var w := Row(id, now, now, body);
      BothOrNeither(db, attempts, w, wiring);
      var result := Insert(w, attempts);
      if result.Err? {
        if result.error.Exists? {
          return Err(AlreadyExistsError(body.name));
        }
        return Err(Internal);
      }
      created := created + 1;
      return Ok(w);
    }

    /**
     Updates a widget. The table may be another one by the time its row is written back, and
     the row may be gone from it.
     */
    method Update(id: Uuid, p: Patch, now: Instant, readOnly: bool, meanwhile: Db) returns (r: Result<Widget, CoreError>)
      modifies this`db
      ensures readOnly ==> r == Err(ReadOnly) && db == old(db)
      ensures !readOnly && id !in old(db).widgets ==> r == Err(NotFoundError(id)) && db == old(db)
      ensures !readOnly && id in old(db).widgets ==>
                var written := ReadThenWrite(old(db).widgets, meanwhile.widgets, id, p, now);
                && r == (match written
                         case Ok(_) => Ok(Patched(old(db).widgets[id], p, now))
                         case Err(NotFound) => Err(NotFoundError(id))
                         case Err(_) => Err(Internal))
                && db == if written.Ok? then meanwhile.(widgets := written.value) else meanwhile
      ensures r.Ok? ==>
                var read, w := old(db).widgets, r.value;
                && id in read && w.id == read[id].id && w.createdAt == read[id].createdAt && w.updatedAt == now
                && w.body.name == (if p.name.Some? then p.name.value else read[id].body.name)
                && w.body.description == (if p.description.Some? then p.description.value else read[id].body.description)
      ensures r.Ok? && (forall i | i in old(db).widgets :: old(db).widgets[i].id == i) ==>
                && id in meanwhile.widgets && db.widgets.Keys == meanwhile.widgets.Keys && db.tasks == meanwhile.tasks
                && db.widgets[id].body == r.value.body && db.widgets[id].updatedAt == now
                && db.widgets[id].id == meanwhile.widgets[id].id
                && db.widgets[id].createdAt == meanwhile.widgets[id].createdAt
                && forall i | i in meanwhile.widgets && i != id :: db.widgets[i] == meanwhile.widgets[i]
      ensures r.Err? && !readOnly && id in old(db).widgets ==> db == meanwhile
    {
      if readOnly {
        return Err(ReadOnly);
      }
      if id !in db.widgets {
        return Err(NotFoundError(id));
      }
      var w := db.widgets[id];
      if p.name.Some? {
        w := w.(body := w.body.(name := p.name.value));
      }
      if p.description.Some? {
        w := w.(body := w.body.(description := p.description.value));
      }
      w := w.(updatedAt := now);
      db := meanwhile;
      var written := Updated(db.widgets, w);
      if written.Err? {
        if written.error.NotFound? {
          return Err(NotFoundError(id));
        }
        return Err(Internal);
      }
      db := db.(widgets := written.value);
      return Ok(w);
    }

    /** Runs the callback until a run is not cut short by a deadlock, rolling each one back. */
    method Insert(w: Widget, attempts: seq<Attempt>) returns (result: Result<(), TranError>)
      modifies this`db
      ensures var o := Transact(old(db), attempts, w, wiring); db == o.db && result == o.result
    {
      for i := 0 to |attempts|
        invariant Transact(old(db), attempts, w, wiring) == Transact(db, attempts[i..], w, wiring)
      {
        db := attempts[i].before;
        var view := db;
        var inserted := Inserted(view.widgets, w);
        var failure: Option<TranError> := None;
        if inserted.Err? {
          failure := Some(Exists);
        } else {
          view := view.(widgets := inserted.value);
          if wiring.NoTasks? {
            failure := Some(NotWired);
          } else if wiring.Queued? {
            view := view.(tasks := view.tasks + [Task(attempts[i].env, EventOf(w))]);
          }
        }
        if !attempts[i].fate.Deadlock? {
          if attempts[i].fate.Breaks? {
            return Err(Failed);
          }
          if failure.Some? {
            return Err(failure.value);
          }
          if attempts[i].fate.CommitLost? {
            if attempts[i].fate.applied {
              db := view;
            }
            return Err(Failed);
          }
          db := view;
          return Ok(());
        }
      }
      return Err(Failed);
    }
  }

  // ---- a store bound to an outer transaction ----

  /** A create inside an outer transaction, with the envelope its event would get. */
  datatype Joining = Joining(w: Widget, env: Envelope)

  /** The callbacks of one outer transaction, each on what the ones before it left, until one fails. */
  function Joined(view: Db, js: seq<Joining>, wiring: Wiring): Result<Db, TranError>
    decreases |js|
  {
    if js == [] then Ok(view)
    else match Callback(view, js[0].w, wiring, js[0].env)
      case Err(e) => Err(e)
      case Ok(next) => Joined(next, js[1..], wiring)
  }

  function AllTasks(js: seq<Joining>, wiring: Wiring): seq<Task> {
    if js == [] then [] else TasksOf(js[0].w, wiring, js[0].env) + AllTasks(js[1..], wiring)
  }

  /** With the broker on there is a task for every create, in order, each telling of its row. */
  lemma {:induction false} AllTasksTell(js: seq<Joining>, wiring: Wiring)
    ensures wiring.Queued? ==> |AllTasks(js, wiring)| == |js|
                               && forall i | 0 <= i < |js| :: Tells(AllTasks(js, wiring)[i], js[i].w, js[i].env)
    ensures !wiring.Queued? ==> AllTasks(js, wiring) == []
    decreases |js|
  {
    if js == [] {
    } else {
      var rest := AllTasks(js[1..], wiring);
      AllTasksTell(js[1..], wiring);
      assert wiring.Queued? ==> AllTasks(js, wiring) == [Task(js[0].env, EventOf(js[0].w))] + rest;
    }
  }

  lemma TasksRegroup(a: seq<Task>, b: seq<Task>, c: seq<Task>)
    ensures a + b + c == a + (b + c)
  {}

  lemma {:induction false} JoinedTasks(view: Db, js: seq<Joining>, wiring: Wiring)
    requires Joined(view, js, wiring).Ok?
    ensures Joined(view, js, wiring).value.tasks == view.tasks + AllTasks(js, wiring)
    decreases |js|
  {
    if js == [] {
      assert AllTasks(js, wiring) == [];
    } else {
      var next := Callback(view, js[0].w, wiring, js[0].env).value;
      assert next.tasks == view.tasks + TasksOf(js[0].w, wiring, js[0].env) by {
        assert view.tasks + [] == view.tasks;
      }
      JoinedTasks(next, js[1..], wiring);
      TasksRegroup(view.tasks, TasksOf(js[0].w, wiring, js[0].env), AllTasks(js[1..], wiring));
    }
  }

  lemma {:induction false} JoinedRows(view: Db, js: seq<Joining>, wiring: Wiring)
    requires Joined(view, js, wiring).Ok?
    ensures var widgets := Joined(view, js, wiring).value.widgets;
            && (forall id | id in view.widgets :: id in widgets && widgets[id] == view.widgets[id])
            && (forall j | j in js :: j.w.id in widgets && widgets[j.w.id] == j.w && j.w.id !in view.widgets)
            && (forall id | id in widgets && id !in view.widgets :: exists j :: j in js && j.w == widgets[id])
    decreases |js|
  {
    if js == [] {
      assert Joined(view, js, wiring).value == view;
    } else {
      var next := Callback(view, js[0].w, wiring, js[0].env).value;
      assert next.widgets == view.widgets[js[0].w.id := js[0].w] && js[0].w.id !in view.widgets;
      JoinedRows(next, js[1..], wiring);
      assert js == [js[0]] + js[1..];
      assert js[0] in js;
    }
  }

  lemma JoinedTells(view: Db, js: seq<Joining>, wiring: Wiring)
    requires Joined(view, js, wiring).Ok?
    ensures var tasks := Joined(view, js, wiring).value.tasks;
            && (wiring.Queued? ==> |tasks| == |view.tasks| + |js|
                                   && forall i | 0 <= i < |js| :: Tells(tasks[|view.tasks| + i], js[i].w, js[i].env))
            && (!wiring.Queued? ==> tasks == view.tasks)
  {
    JoinedTasks(view, js, wiring);
    AllTasksTell(js, wiring);
    assert view.tasks + [] == view.tasks;
  }

  /** An outer transaction that gets through holds every row, and no other new one, and every event in order. */
  lemma JoinedIsAll(view: Db, js: seq<Joining>, wiring: Wiring)
    requires Joined(view, js, wiring).Ok?
    ensures var d := Joined(view, js, wiring).value;
            && d.tasks == view.tasks + AllTasks(js, wiring)
            && (wiring.Queued? ==> |d.tasks| == |view.tasks| + |js|
                                   && forall i | 0 <= i < |js| :: Tells(d.tasks[|view.tasks| + i], js[i].w, js[i].env))
            && (!wiring.Queued? ==> d.tasks == view.tasks)
            && (forall id | id in view.widgets :: id in d.widgets && d.widgets[id] == view.widgets[id])
            && (forall j | j in js :: j.w.id in d.widgets && d.widgets[j.w.id] == j.w && j.w.id !in view.widgets)
            && (forall id | id in d.widgets && id !in view.widgets :: exists j :: j in js && j.w == d.widgets[id])
  {
    JoinedTasks(view, js, wiring);
    JoinedTells(view, js, wiring);
    JoinedRows(view, js, wiring);
  }

  /**
   The same callbacks under a caller that drops their errors: a failed INSERT aborts the
   transaction, but where only Schedule failed the row stays in it, without its event.
   */
  function Swallowed(view: Db, js: seq<Joining>, wiring: Wiring): Option<Db>
    decreases |js|
  {
    if js == [] then Some(view)
    else match Inserted(view.widgets, js[0].w)
      case Err(_) => None
      case Ok(widgets) => Swallowed(Db(widgets, view.tasks + TasksOf(js[0].w, wiring, js[0].env)), js[1..], wiring)
  }

  /**
   A caller may drop the errors of its creates exactly when the store has tasks, or there is no
   create, or one of the INSERTs aborts it all; otherwise it commits rows without events.
   */
  lemma {:induction false} SwallowingIsSafeIff(view: Db, js: seq<Joining>, wiring: Wiring)
    ensures Swallowed(view, js, wiring) == Joined(view, js, wiring).ToOption()
       <==> !wiring.NoTasks? || js == [] || Swallowed(view, js, wiring).None?
    decreases |js|
  {
    if js == [] {
      assert Swallowed(view, js, wiring) == Some(view);
    } else if !wiring.NoTasks? && Inserted(view.widgets, js[0].w).Ok? {
      var next := Callback(view, js[0].w, wiring, js[0].env).value;
      assert view.tasks + [] == view.tasks;
      SwallowingIsSafeIff(next, js[1..], wiring);
      assert js[1..] == [] ==> Swallowed(next, js[1..], wiring) == Joined(next, js[1..], wiring).ToOption();
    }
  }

  class OuterTransaction {
    var committed: Db
    var view: Db
    var aborted: bool
    const wiring: Wiring

    constructor (db: Db, wiring: Wiring)
      ensures committed == view == db && !aborted && this.wiring == wiring
    {
      committed, view, aborted, this.wiring := db, db, false, wiring;
    }

    /** A store over this transaction joins it: nothing is committed, whatever happens. */
    method WithinTranTasks(j: Joining) returns (r: Result<(), TranError>)
      requires !aborted
      modifies this
      ensures committed == old(committed)
      ensures aborted <==> Inserted(old(view).widgets, j.w).Err?
      ensures !aborted ==> view == Db(Inserted(old(view).widgets, j.w).value, old(view).tasks + TasksOf(j.w, wiring, j.env))
      ensures !aborted ==> view.widgets == old(view).widgets[j.w.id := j.w]
      ensures !aborted && wiring.Queued? ==> |view.tasks| > 0 && Tells(view.tasks[|view.tasks| - 1], j.w, j.env)
      ensures r.Ok? <==> Callback(old(view), j.w, wiring, j.env).Ok?
      ensures r.Ok? ==> view == Callback(old(view), j.w, wiring, j.env).value
      ensures r.Err? ==> r.error == Callback(old(view), j.w, wiring, j.env).error
    {
      var inserted := Inserted(view.widgets, j.w);
      if inserted.Err? {
        aborted := true;
        return Err(Exists);
      }
      view := view.(widgets := inserted.value);
      if wiring.NoTasks? {
        assert view.tasks + [] == view.tasks;
        return Err(NotWired);
      }
      view := view.(tasks := view.tasks + TasksOf(j.w, wiring, j.env));
      assert wiring.Dropped? ==> view.tasks == old(view).tasks;
      return Ok(());
    }

    /** Commits, unless the caller gives up or the database has aborted it. */
    method End(giveUp: bool)
      modifies this
      ensures committed == if giveUp || old(aborted) then old(committed) else old(view)
    {
      if !giveUp && !aborted {
        committed := view;
      }
    }

    /**
     All the creates of an outer transaction whose caller passes their errors on become visible
     together, at its end, or none does; a caller that drops them commits what is left.
     */
    method Run(js: seq<Joining>, dropsErrors: bool)
      requires !aborted && view == committed
      modifies this
      ensures var joined, swallowed := Joined(old(view), js, wiring), Swallowed(old(view), js, wiring);
              committed == (if dropsErrors then (if swallowed.Some? then swallowed.value else old(committed))
                            else if joined.Ok? then joined.value else old(committed))
    {
      for i := 0 to |js|
        invariant !aborted && committed == old(committed)
        invariant !dropsErrors ==> Joined(old(view), js, wiring) == Joined(view, js[i..], wiring)
        invariant dropsErrors ==> Swallowed(old(view), js, wiring) == Swallowed(view, js[i..], wiring)
      {
        var r := WithinTranTasks(js[i]);
        assert js[i..][1..] == js[i + 1..];
        if aborted || (r.Err? && !dropsErrors) {
          End(true);
          return;
        }
      }
      End(false);
    }
  }

  // ---- partial updates race ----

  /** Every field the earlier patch sets and the later does not was to keep its value anyway. */
  predicate LosesNothing(p: Patch, q: Patch, w: Widget) {
    && (p.name.Some? && q.name.None? ==> p.name.value == w.body.name)
    && (p.description.Some? && q.description.None? ==> p.description.value == w.body.description)
  }

  /** Two updates that both read `t` and then write, p first and q last; and one after the other. */
  function Raced(t: Table, id: Uuid, p: Patch, nowP: Instant, q: Patch, nowQ: Instant): Result<Table, StoreError> {
    var mid := ReadThenWrite(t, t, id, p, nowP);
    if mid.Err? then mid else ReadThenWrite(t, mid.value, id, q, nowQ)
  }

  function InTurn(t: Table, id: Uuid, p: Patch, nowP: Instant, q: Patch, nowQ: Instant): Result<Table, StoreError> {
    var mid := ReadThenWrite(t, t, id, p, nowP);
    if mid.Err? then mid else ReadThenWrite(mid.value, mid.value, id, q, nowQ)
  }

  /**
   Two updates that both read before either writes leave what they would have left one after
   the other exactly when every field that only the first writer sets was to keep its value:
   the last writer puts the old value back.
   */
  lemma RacingUpdatesIff(t: Table, id: Uuid, p: Patch, nowP: Instant, q: Patch, nowQ: Instant)
    requires Indexed(t) && id in t
    requires Raced(t, id, p, nowP, q, nowQ).Ok? && InTurn(t, id, p, nowP, q, nowQ).Ok?
    ensures Raced(t, id, p, nowP, q, nowQ) == InTurn(t, id, p, nowP, q, nowQ) <==> LosesNothing(p, q, t[id])
  {
    var raced, serial := Raced(t, id, p, nowP, q, nowQ).value, InTurn(t, id, p, nowP, q, nowQ).value;
    assert raced == serial <==> raced[id] == serial[id];
  }

  /**
   They are as good as in the other turn, the last writer first, exactly when the first writer
   sets no field otherwise than the last one leaves it, and both read the clock alike.
   */
  lemma OtherTurnIff(t: Table, id: Uuid, p: Patch, nowP: Instant, q: Patch, nowQ: Instant)
    requires Indexed(t) && id in t
    requires Raced(t, id, p, nowP, q, nowQ).Ok? && InTurn(t, id, q, nowQ, p, nowP).Ok?
    ensures Raced(t, id, p, nowP, q, nowQ) == InTurn(t, id, q, nowQ, p, nowP)
       <==> var left := Patched(t[id], q, nowQ); Patched(left, p, nowP) == left
  {
    var raced, other := Raced(t, id, p, nowP, q, nowQ).value, InTurn(t, id, q, nowQ, p, nowP).value;
    assert raced == other <==> raced[id] == other[id];
  }

  /** A rename and a new description, both read first: the rename is lost. */
  lemma RenameLost()
    ensures var t: Table := map[1 := Row(1, 0, 0, WidgetBody("a", "x"))];
            var raced := Raced(t, 1, Patch(Some("b"), None), 1, Patch(None, Some("y")), 2);
            raced.Ok? && raced.value[1].body == WidgetBody("a", "y")
  {}
}
