/**
 Batch imports: callers queue a batch whose ids and times are fixed there and then, and
 workers insert it, as often as the queue delivers it.
 */
module WidgetImport {
  import opened Outcomes
  import opened Calendar
  import opened CursorCodec
  import opened OffsetPages
  import opened Keyset
  import opened WidgetTable
  import opened WidgetStore

  datatype Settings = Settings(readOnly: bool, importLimit: int)

  /** The payload of a task is what its decoder makes of it: a batch, or nothing. */
  datatype Task = Task(key: string, payload: Option<seq<Widget>>)

  datatype ScheduleError = Unavailable | InvalidArgument(limit: int, got: nat)

  /** What becomes of a delivered task: done with, tried again, or dead-lettered. */
  datatype Verdict = Done | Retry | Permanent

  /** A task under that key is waiting; the empty key is never taken. */
  predicate Queued(queue: seq<Task>, key: string) {
    key != "" && exists t | t in queue :: t.key == key
  }

  class Importer {
    var queue: seq<Task>
    const store: Store

    constructor (store: Store)
      ensures queue == [] && this.store == store
    {
      queue, this.store := [], store;
    }

    /** Queues a batch under the ids drawn for it; the table is left alone. */
    method Schedule(name: string, news: seq<WidgetBody>, ids: seq<Uuid>, now: Instant, settings: Settings)
      returns (r: Result<bool, ScheduleError>)
      requires |ids| == |news|
      modifies this`queue
      ensures settings.readOnly ==> r == Err(Unavailable)
      ensures !settings.readOnly ==> (r.Err? <==> |news| > settings.importLimit)
      ensures !settings.readOnly && r.Err? ==> r.error == InvalidArgument(settings.importLimit, |news|)
      ensures r.Ok? ==> r.value == !Queued(old(queue), name)
      ensures r.Ok? && name == "" ==> r.value
      ensures r.Ok? && name != "" ==> (r.value <==> forall t | t in old(queue) :: t.key != name)
      ensures r != Ok(true) ==> queue == old(queue)
      ensures r == Ok(true) ==>
                && |queue| == |old(queue)| + 1 && queue[..|old(queue)|] == old(queue)
                && queue[|old(queue)|].key == name && queue[|old(queue)|].payload.Some?
                && var ws := queue[|old(queue)|].payload.value;
                   |ws| == |news| && forall i | 0 <= i < |news| :: ws[i] == Row(ids[i], now, now, news[i])
    {
      if settings.readOnly {
        return Err(Unavailable);
      }
      if |news| > settings.importLimit {
        return Err(InvalidArgument(settings.importLimit, |news|));
      }
      var ws: seq<Widget> := [];
      for i := 0 to |news|
        invariant |ws| == i && forall j | 0 <= j < i :: ws[j] == Row(ids[j], now, now, news[j])
        invariant queue == old(queue)
      {
        ws := ws + [Row(ids[i], now, now, news[i])];
      }
      if Queued(queue, name) {
        return Ok(false);
      }
      queue := queue + [Task(name, Some(ws))];
      return Ok(true);
    }

    /**
     One delivery: the batch goes in by statements of the given sizes, the connection
     holding for the first `stop` of them.
     */
    method Handle(t: Task, sizes: seq<nat>, stop: nat) returns (v: Verdict)
      requires Indexed(store.table)
      requires t.payload.Some? ==> Sum(sizes) == |t.payload.value|
      modifies store
      ensures Indexed(store.table)
      ensures v == Permanent <==> t.payload.None?
      ensures v == Permanent ==> store.table == old(store.table)
      ensures t.payload.Some? ==>
                var ws := t.payload.value; var statements := Statements(ws, sizes);
                && store.table == AllStatements(old(store.table), statements[..Clip(stop, |sizes|)]).0
                && (v == Done <==> ws == [] || (stop >= |sizes| && BulkInserted(old(store.table), ws).Some?))
                && (v == Done ==> BulkInserted(old(store.table), ws) == Some(store.table))
                && (forall id | id in old(store.table) ::
                      id in store.table && store.table[id] == old(store.table)[id])
    {
      match t.payload {
        case None => return Permanent;
        case Some(ws) =>
          ghost var before, statements := store.table, Statements(ws, sizes);
          AllKeepRows(before, statements[..Clip(stop, |sizes|)]);
          StatementsJoin(ws, sizes);
          CutIrrelevant(before, statements);
          assert statements[..|sizes|] == statements;
          if ws == [] {
            EmptyBatch(before, ws, sizes, Clip(stop, |sizes|));
          }
          var r := store.BulkInsert(ws, sizes, stop);
          if r.Err? {
            return Retry;
          }
          return Done;
      }
    }
  }
}
