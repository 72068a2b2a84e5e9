/**
 The transactional outbox and the event pipeline put together: the step in which the pipeline
 takes in a new event is the commit of a create's transaction, and nothing else is.
 */
module CreatedEvents {
  import opened Outcomes
  import opened CursorCodec
  import opened WidgetTable
  import O = Outbox
  import P = EventPipeline

  /** The database, the pipeline behind its queue, and the rows committed by creates. */
  datatype World = World(db: O.Db, pipe: P.State, created: map<Uuid, Widget>)

  const START := World(O.Db(map[], []), P.START, map[])

  /** A create's transaction, any other write of widgets, or a step of the pipeline. */
  datatype Step =
    | Transaction(attempts: seq<O.Attempt>, w: Widget)
    | Write(widgets: Table)
    | Elsewhere(step: P.Step)

  function EventIn(t: O.Task, encode: O.Created -> string): P.Event {
    P.Event(t.envelope.time, encode(t.body))
  }

  /**
   The run that ends a transaction starts from the database as it is, its envelope has an id
   no event has had, and the widget an id no task has had. Only a transaction creates events.
   */
  predicate Enabled(c: P.Codec, s: World, step: Step) {
    match step
    case Transaction(attempts, w) =>
      var k := O.FirstEnded(attempts);
      && O.TasksFor(s.db.tasks, w.id) == 0
      && (k < |attempts| ==>
            && attempts[k].before == s.db
            && attempts[k].env.event !in s.pipe.created && attempts[k].env.event !in s.pipe.foreign)
    case Write(_) => true
    case Elsewhere(p) => !p.Create? && P.Enabled(c, s.pipe, p)
  }

  /** What the pipeline sees of a transaction: the event's create, in the very commit, or nothing. */
  function Seen(c: P.Codec, s: World, attempts: seq<O.Attempt>, w: Widget, encode: O.Created -> string): Option<P.Step> {
    var o, k := O.Transact(s.db, attempts, w, O.Queued), O.FirstEnded(attempts);
    if k == |attempts| || o.db == o.base then None
    else Some(P.Create(attempts[k].env.event, EventIn(O.Task(attempts[k].env, O.EventOf(w)), encode)))
  }

  function Apply(c: P.Codec, s: World, step: Step, encode: O.Created -> string): World
    requires Enabled(c, s, step)
  {
    match step
    case Transaction(attempts, w) =>
      (match Seen(c, s, attempts, w, encode)
       case None => s
       case Some(p) =>
         World(O.Transact(s.db, attempts, w, O.Queued).db, P.Apply(c, s.pipe, p), s.created[w.id := w]))
    case Write(widgets) => s.(db := s.db.(widgets := widgets))
    case Elsewhere(p) => s.(pipe := P.Apply(c, s.pipe, p))
  }

  ghost predicate Run(c: P.Codec, s: World, steps: seq<Step>, encode: O.Created -> string, end: World)
    decreases |steps|
  {
    if steps == [] then end == s
    else Enabled(c, s, steps[0]) && Run(c, Apply(c, s, steps[0], encode), steps[1..], encode, end)
  }

  ghost predicate EventsDistinct(tasks: seq<O.Task>) {
    forall i, j | 0 <= i < j < |tasks| :: tasks[i].envelope.event != tasks[j].envelope.event
  }

  /** Some task carries the id, name, description and creation time of the row. */
  ghost predicate TellsOf(tasks: seq<O.Task>, w: Widget) {
    exists t :: t in tasks && O.Tells(t, w, t.envelope)
  }

  /** The events of the pipeline are the tasks ever committed, one each, and each created widget has one. */
  ghost predicate Mirrors(s: World, encode: O.Created -> string) {
    && (forall t | t in s.db.tasks ::
          t.envelope.event in s.pipe.created && s.pipe.created[t.envelope.event] == EventIn(t, encode))
    && (forall e | e in s.pipe.created :: exists t :: t in s.db.tasks && t.envelope.event == e)
    && EventsDistinct(s.db.tasks)
    && (forall id | id in s.created :: s.created[id].id == id)
    && (forall id | id in s.created :: O.TasksFor(s.db.tasks, id) == 1 && TellsOf(s.db.tasks, s.created[id]))
  }

  lemma OneMoreTask(tasks: seq<O.Task>, t: O.Task, id: Uuid)
    ensures O.TasksFor(tasks + [t], id) == O.TasksFor(tasks, id) + if t.body.id == id then 1 else 0
  {
    assert (tasks + [t])[..|tasks|] == tasks;
  }

  /** A transaction that commits adds just the task of its row, under the envelope of the run that committed. */
  lemma CommitAddsTask(s: World, attempts: seq<O.Attempt>, w: Widget)
    requires var k := O.FirstEnded(attempts); k < |attempts| && attempts[k].before == s.db
    requires var o := O.Transact(s.db, attempts, w, O.Queued); o.db != o.base
    ensures var k := O.FirstEnded(attempts);
            O.Transact(s.db, attempts, w, O.Queued).db
            == O.Db(s.db.widgets[w.id := w], s.db.tasks + [O.Task(attempts[k].env, O.EventOf(w))])
  {
    O.BothOrNeither(s.db, attempts, w, O.Queued);
  }

  /** The rows committed and the tasks, with one row and its task more. */
  lemma CreatedTold(before: map<Uuid, Widget>, tasks: seq<O.Task>, w: Widget, task: O.Task)
    requires O.Tells(task, w, task.envelope) && w.id !in before && O.TasksFor(tasks, w.id) == 0
    requires forall id | id in before :: before[id].id == id && O.TasksFor(tasks, id) == 1 && TellsOf(tasks, before[id])
    ensures var after := before[w.id := w];
            forall id | id in after ::
              after[id].id == id && O.TasksFor(tasks + [task], id) == 1 && TellsOf(tasks + [task], after[id])
  {
    var after := before[w.id := w];
    assert task in tasks + [task];
    forall id | id in after
      ensures after[id].id == id && O.TasksFor(tasks + [task], id) == 1 && TellsOf(tasks + [task], after[id])
    {
      OneMoreTask(tasks, task, id);
      if id != w.id {
        var x :| x in tasks && O.Tells(x, before[id], x.envelope);
        assert x in tasks + [task] && O.Tells(x, after[id], x.envelope);
      }
    }
  }

  /** A transaction that changes the database is seen as the create of its event. */
  lemma CommitMirrors(c: P.Codec, s: World, attempts: seq<O.Attempt>, w: Widget, encode: O.Created -> string)
    requires Mirrors(s, encode) && Enabled(c, s, Transaction(attempts, w)) && Seen(c, s, attempts, w, encode).Some?
    ensures var t := Apply(c, s, Transaction(attempts, w), encode);
            Mirrors(t, encode) && t.created == s.created[w.id := w] && w.id !in s.created
  {
    var k := O.FirstEnded(attempts);
    var t := Apply(c, s, Transaction(attempts, w), encode);
    var task := O.Task(attempts[k].env, O.EventOf(w));
    assert w.id !in s.created;
    CommitAddsTask(s, attempts, w);
    CreatedTold(s.created, s.db.tasks, w, task);
    TaskMirrored(s, t, task, encode);
  }

  /** A transaction is, for the pipeline, one step creating its event, which it can take, or none. */
  lemma TransactionIsCreate(c: P.Codec, s: World, attempts: seq<O.Attempt>, w: Widget, encode: O.Created -> string)
    requires Mirrors(s, encode) && Enabled(c, s, Transaction(attempts, w))
    ensures var t := Apply(c, s, Transaction(attempts, w), encode); var p := Seen(c, s, attempts, w, encode);
            && Mirrors(t, encode)
            && (p.None? ==> t == s)
            && (p.Some? ==> P.Enabled(c, s.pipe, p.value) && t.pipe == P.Apply(c, s.pipe, p.value))
            && (w.id in t.created && w.id !in s.created <==> p.Some?)
  {
    if Seen(c, s, attempts, w, encode).Some? {
      CommitMirrors(c, s, attempts, w, encode);
    }
  }

  lemma TaskMirrored(s: World, t: World, task: O.Task, encode: O.Created -> string)
    requires Mirrors(s, encode) && task.envelope.event !in s.pipe.created
    requires t.db.tasks == s.db.tasks + [task]
    requires t.pipe.created == s.pipe.created[task.envelope.event := EventIn(task, encode)]
    requires forall id | id in t.created :: O.TasksFor(t.db.tasks, id) == 1 && TellsOf(t.db.tasks, t.created[id])
    requires forall id | id in t.created :: t.created[id].id == id
    ensures Mirrors(t, encode)
  {
    forall e | e in t.pipe.created
      ensures exists x :: x in t.db.tasks && x.envelope.event == e
    {
      if e in s.pipe.created {
        var x :| x in s.db.tasks && x.envelope.event == e;
        assert x in t.db.tasks;
      } else {
        assert task in t.db.tasks;
      }
    }
    DistinctGrows(s.db.tasks, task);
  }

  lemma DistinctGrows(tasks: seq<O.Task>, task: O.Task)
    requires EventsDistinct(tasks) && forall t | t in tasks :: t.envelope.event != task.envelope.event
    ensures EventsDistinct(tasks + [task])
  {
    forall i, j | 0 <= i < j < |tasks + [task]|
      ensures (tasks + [task])[i].envelope.event != (tasks + [task])[j].envelope.event
    {
      assert tasks[i] in tasks;
    }
  }

  lemma QueueCreatesNothing(c: P.Codec, s: P.State, step: P.Step)
    requires P.Enabled(c, s, step) && (step.Publish? || step.RemoveTask? || step.BuryTask? || step.Foreign?)
    ensures P.Apply(c, s, step).created == s.created
  {}

  lemma KeeperCreatesNothing(c: P.Codec, s: P.State, step: P.Step)
    requires P.Enabled(c, s, step) && (step.Forget? || step.Retain? || step.Deliver? || step.Crash?)
    ensures P.Apply(c, s, step).created == s.created
  {}

  lemma ConsumerCreatesNothing(c: P.Codec, s: P.State, step: P.Step)
    requires P.Enabled(c, s, step) && (step.Enter? || step.Leave? || step.Handle?)
    ensures P.Apply(c, s, step).created == s.created
  {}

  lemma AcknowledgeCreatesNothing(c: P.Codec, s: P.State, w: nat)
    requires P.Enabled(c, s, P.Acknowledge(w))
    ensures P.Apply(c, s, P.Acknowledge(w)).created == s.created
  {}

  lemma OnlyCreatesCreate(c: P.Codec, s: P.State, step: P.Step)
    requires P.Enabled(c, s, step) && !step.Create?
    ensures P.Apply(c, s, step).created == s.created
  {
    if step.Acknowledge? {
      AcknowledgeCreatesNothing(c, s, step.consumer);
    } else if step.Enter? || step.Leave? || step.Handle? {
      ConsumerCreatesNothing(c, s, step);
    } else if step.Forget? || step.Retain? || step.Deliver? || step.Crash? {
      KeeperCreatesNothing(c, s, step);
    } else {
      QueueCreatesNothing(c, s, step);
    }
  }

  lemma StepMirrors(c: P.Codec, s: World, step: Step, encode: O.Created -> string)
    requires Mirrors(s, encode) && Enabled(c, s, step)
    ensures Mirrors(Apply(c, s, step, encode), encode)
  {
    match step
    case Transaction(attempts, w) => TransactionIsCreate(c, s, attempts, w, encode);
    case Write(widgets) => assert Apply(c, s, step, encode).db.tasks == s.db.tasks;
    case Elsewhere(p) => OnlyCreatesCreate(c, s.pipe, p);
  }

  /** What the pipeline goes through in a step of the whole: a step of its own, or none. */
  lemma PipelineSteps(c: P.Codec, s: World, step: Step, encode: O.Created -> string) returns (p: Option<P.Step>)
    requires Mirrors(s, encode) && Enabled(c, s, step)
    ensures var t := Apply(c, s, step, encode).pipe;
            if p.None? then t == s.pipe else P.Enabled(c, s.pipe, p.value) && t == P.Apply(c, s.pipe, p.value)
  {
    match step
    case Transaction(attempts, w) =>
      TransactionIsCreate(c, s, attempts, w, encode);
      p := Seen(c, s, attempts, w, encode);
    case Write(_) => p := None;
    case Elsewhere(q) => p := Some(q);
  }

  lemma StepKeepsInv(c: P.Codec, s: World, step: Step, encode: O.Created -> string)
    requires P.Faithful(c) && Mirrors(s, encode) && P.Inv(c, s.pipe) && Enabled(c, s, step)
    ensures P.Inv(c, Apply(c, s, step, encode).pipe)
  {
    var p := PipelineSteps(c, s, step, encode);
    if p.Some? {
      P.StepKeepsInv(c, s.pipe, p.value);
    }
  }

  lemma {:induction false} RunMirrors(c: P.Codec, s: World, steps: seq<Step>, encode: O.Created -> string, end: World)
    requires P.Faithful(c) && Mirrors(s, encode) && P.Inv(c, s.pipe) && Run(c, s, steps, encode, end)
    ensures Mirrors(end, encode) && P.Inv(c, end.pipe)
    decreases |steps|
  {
    if steps == [] {
      assert end == s;
    } else {
      StepMirrors(c, s, steps[0], encode);
      StepKeepsInv(c, s, steps[0], encode);
      RunMirrors(c, Apply(c, s, steps[0], encode), steps[1..], encode, end);
    }
  }

  /** The event of the task is not lost, and the log has at most one row of it, its own. */
  ghost predicate Recorded(c: P.Codec, s: World, t: O.Task, encode: O.Created -> string) {
    && t.envelope.event in s.pipe.created
    && P.Kept(c, s.pipe, t.envelope.event) && P.AtMostOneRow(s.pipe.log, t.envelope.event)
    && forall k | k in s.pipe.log && k.0 == t.envelope.event ::
         k.1 == t.envelope.time && s.pipe.log[k] == P.LogRow("widget.created", encode(t.body))
  }

  lemma TaskRecorded(c: P.Codec, s: World, t: O.Task, encode: O.Created -> string)
    requires Mirrors(s, encode) && P.LogSound(s.pipe) && P.NothingLost(c, s.pipe) && t in s.db.tasks
    ensures Recorded(c, s, t, encode)
  {
    assert s.pipe.created[t.envelope.event] == EventIn(t, encode);
  }

  /**
   From create to log, after every run of the whole service: each widget a create has committed
   has exactly one event, with the fields of the row committed; the event is a task, in the broker, a dead task or has been logged;
   the log holds at most one row of it, with the time of its envelope and its payload.
   */
  lemma CreatedWidgetsRecordedOnce(c: P.Codec, steps: seq<Step>, encode: O.Created -> string, end: World)
    requires P.Faithful(c) && Run(c, START, steps, encode, end)
    ensures forall id | id in end.created ::
              && O.TasksFor(end.db.tasks, id) == 1
              && exists t :: t in end.db.tasks && t.body.id == id && t.body.name == end.created[id].body.name
                             && t.body.description == end.created[id].body.description
                             && t.body.createdAt == end.created[id].createdAt
    ensures forall t | t in end.db.tasks :: Recorded(c, end, t, encode)
    ensures forall k | k in end.pipe.log && k.0 !in end.pipe.foreign ::
              exists t :: t in end.db.tasks && t.envelope.event == k.0
  {
    RunMirrors(c, START, steps, encode, end);
    forall id | id in end.created
      ensures exists t :: t in end.db.tasks && t.body.id == id && t.body.name == end.created[id].body.name
                          && t.body.description == end.created[id].body.description
                          && t.body.createdAt == end.created[id].createdAt
    {
      assert TellsOf(end.db.tasks, end.created[id]);
    }
    forall t | t in end.db.tasks
      ensures Recorded(c, end, t, encode)
    {
      TaskRecorded(c, end, t, encode);
    }
  }
}
