/**
 The widget.created events from the committed transaction to the event log: the queue of
 events, its publishing workers, the broker, and the consumers that run the recorder behind
 the dedup wrapper. Every part may fail at every step.
 */
module EventPipeline {
  import opened Outcomes
  import opened Calendar
  import opened CursorCodec
  import opened Dedup
  import opened KeyEncoding

  datatype Message = Message(id: string, source: string, time: Option<Instant>, kind: string, data: string)

  datatype Verdict = Ack | Requeue | Discard

  type RowKey = (Uuid, Instant)

  datatype LogRow = LogRow(kind: string, payload: string)

  type EventLog = map<RowKey, LogRow>

  /** How the insert ends: an error, a month without a partition included, may hide a row that is in. */
  datatype Insert = Succeeds | FailsBefore | FailsAfter

  /** How ids are written and read and messages keyed; `Faithful` says what the proofs need of it. */
  datatype Codec = Codec(parse: string -> Option<Uuid>, text: Uuid -> string, key: Message -> string, source: string)

  ghost predicate Faithful(c: Codec) {
    && (forall id: Uuid :: c.parse(c.text(id)) == Some(id))
    && c.parse("").None?
    && (forall m1, m2 :: c.key(m1) == c.key(m2) ==> m1.source == m2.source && m1.id == m2.id)
  }

  // ---- the recorder ----

  function RowOf(c: Codec, m: Message): Option<RowKey> {
    var id :- c.parse(m.id);
    var time :- m.time;
    Some((id, time))
  }

  function VerdictOf(c: Codec, m: Message, ins: Insert): Verdict {
    if RowOf(c, m).None? then Discard else if ins.Succeeds? then Ack else Requeue
  }

  function Recorded(c: Codec, log: EventLog, m: Message, ins: Insert): EventLog {
    var row := RowOf(c, m);
    if row.None? || ins.FailsBefore? || row.value in log then log
    else log[row.value := LogRow(m.kind, m.data)]
  }

  class Recorder {
    var log: EventLog
    const codec: Codec

    constructor (codec: Codec)
      ensures log == map[] && this.codec == codec
    {
      log := map[];
      this.codec := codec;
    }

    /**
     Acked exactly when the insert went through: then the row is in the log. No row is ever
     overwritten and no other row appears; a message that can have no row is discarded.
     */
    method Handle(m: Message, ins: Insert) returns (verdict: Verdict)
      modifies this
      ensures verdict == VerdictOf(codec, m, ins) && log == Recorded(codec, old(log), m, ins)
      ensures verdict.Ack? <==> ins.Succeeds? && codec.parse(m.id).Some? && m.time.Some?
      ensures codec.parse(m.id).Some? && m.time.Some? && !ins.FailsBefore? ==> (codec.parse(m.id).value, m.time.value) in log
      ensures ins.FailsBefore? ==> log == old(log)
      ensures forall k | k in old(log) :: k in log && log[k] == old(log[k])
      ensures forall k | k in log && k !in old(log) ::
                codec.parse(m.id) == Some(k.0) && m.time == Some(k.1) && log[k] == LogRow(m.kind, m.data)
      ensures verdict.Discard? <==> codec.parse(m.id).None? || m.time.None?
    {
      var id := codec.parse(m.id);
      if id.None? {
        return Discard;
      }
      if m.time.None? {
        return Discard;
      }
      var row := (id.value, m.time.value);
      if !ins.FailsBefore? && row !in log {
        log := log[row := LogRow(m.kind, m.data)];
      }
      if !ins.Succeeds? {
        return Requeue;
      }
      return Ack;
    }
  }

  // ---- the dedup wrapper ----

  datatype Entry = RunHandler | Settle(action: Verdict)

  /** Before the recorder: a message without an id goes straight to it. */
  function EntryOf(c: Codec, records: Records<()>, m: Message, store: Health): Entry {
    if m.id == "" then RunHandler
    else match ClaimOf(records, c.key(m), store)
      case Granted => RunHandler
      case InProgress => Settle(Requeue)
      case Repeat(_) => Settle(Ack)
      case Unavailable => Settle(Requeue)
      case Failed => Settle(Requeue)
  }

  function EntryRecords(c: Codec, records: Records<()>, m: Message, holder: nat, store: Health): Records<()> {
    if m.id == "" then records else Begun(records, c.key(m), holder, store)
  }

  /** After the recorder: a verdict other than Ack is passed on, an unrecorded Ack is requeued. */
  function ExitAction(m: Message, verdict: Verdict, commit: Commit): Verdict {
    if m.id == "" || !verdict.Ack? then verdict else if commit.Written? then Ack else Requeue
  }

  function ExitRecords(c: Codec, records: Records<()>, m: Message, verdict: Verdict, commit: Commit): Records<()> {
    if m.id == "" then records
    else Finished(records, c.key(m), if verdict.Ack? then Some(()) else None, commit)
  }

  class Handler {
    var records: Records<()>
    const codec: Codec

    constructor (codec: Codec)
      ensures records == map[] && this.codec == codec
    {
      records := map[];
      this.codec := codec;
    }

    method Enter(m: Message, holder: nat, store: Health) returns (entry: Entry)
      modifies this
      ensures entry == EntryOf(codec, old(records), m, store)
      ensures records == EntryRecords(codec, old(records), m, holder, store)
      ensures m.id == "" ==> entry == RunHandler && records == old(records)
      ensures m.id != "" && !store.Up? ==> entry == Settle(Requeue) && records == old(records)
      ensures m.id != "" && store.Up? && codec.key(m) !in old(records) ==>
                entry == RunHandler && records == old(records)[codec.key(m) := Running(holder)]
      ensures m.id != "" && store.Up? && codec.key(m) in old(records) ==>
                && records == old(records)
                && entry == Settle(if old(records)[codec.key(m)].Stored? then Ack else Requeue)
    {
      if m.id == "" {
        return RunHandler;
      }
      var claim := ClaimOf(records, codec.key(m), store);
      records := Begun(records, codec.key(m), holder, store);
      if claim.Granted? {
        return RunHandler;
      }
      if claim.InProgress? || claim.Unavailable? || claim.Failed? {
        return Settle(Requeue);
      }
      return Settle(Ack);
    }

    method Leave(m: Message, verdict: Verdict, commit: Commit) returns (action: Verdict)
      modifies this
      ensures action == ExitAction(m, verdict, commit)
      ensures records == ExitRecords(codec, old(records), m, verdict, commit)
      ensures action.Ack? <==> verdict.Ack? && (m.id == "" || commit.Written?)
      ensures !verdict.Ack? ==> action == verdict
      ensures verdict.Ack? && !action.Ack? ==> action.Requeue?
      ensures m.id == "" || commit.LostBefore? ==> records == old(records)
      ensures m.id != "" && !commit.LostBefore? ==>
                records == if verdict.Ack? then old(records)[codec.key(m) := Stored(())] else old(records) - {codec.key(m)}
    {
      if m.id == "" {
        return verdict;
      }
      records := Finished(records, codec.key(m), if verdict.Ack? then Some(()) else None, commit);
      if !verdict.Ack? {
        return verdict;
      }
      if !commit.Written? {
        return Requeue;
      }
      return Ack;
    }
  }

  // ---- the whole pipeline ----

  /** What the envelope fixes when the event is scheduled: an id (its key), a time, the payload. */
  datatype Event = Event(time: Instant, data: string)

  datatype Task = Pending | Published

  datatype Phase =
    | Holding(m: Message)
    | InHandler(m: Message)
    | Returned(m: Message, verdict: Verdict)
    | Decided(m: Message, action: Verdict)

  datatype State = State(
    created: map<Uuid, Event>,       // committed creates
    tasks: map<Uuid, Task>,          // rows of the queue of events
    deadTasks: set<Uuid>,            // tasks given up by the queue
    foreign: set<Uuid>,              // ids other publishers have used
    ready: multiset<Message>,        // messages waiting in the broker's queue
    consumers: map<nat, Phase>,      // consumers at work, each on its unacked message
    discarded: multiset<Message>,    // messages nacked without requeue
    records: Records<()>,
    log: EventLog,
    expired: set<RowKey>)            // rows retention has dropped

  const START := State(map[], map[], {}, {}, multiset{}, map[], multiset{}, map[], map[], {})

  datatype Step =
    | Create(id: Uuid, event: Event)
    | Publish(id: Uuid)
    | RemoveTask(id: Uuid)
    | BuryTask(id: Uuid)
    | Foreign(m: Message)
    | Deliver(consumer: nat, m: Message)
    | Enter(consumer: nat, store: Health)
    | Handle(consumer: nat, ins: Insert)
    | Leave(consumer: nat, commit: Commit)
    | Acknowledge(consumer: nat)
    | Crash(consumer: nat)
    | Forget(key: string)
    | Retain(row: RowKey)

  function MessageFor(c: Codec, id: Uuid, e: Event): Message {
    Message(c.text(id), c.source, Some(e.time), "widget.created", e.data)
  }

  /**
   A create draws an id no one has used. A task is removed only after a publish of it went
   through, and may be published again until then. The keeper may forget any record.
   */
  predicate Enabled(c: Codec, s: State, step: Step) {
    match step
    case Create(id, _) => id !in s.created && id !in s.foreign
    case Publish(id) => id in s.tasks && id in s.created
    case RemoveTask(id) => id in s.tasks && s.tasks[id].Published?
    case BuryTask(id) => id in s.tasks
    case Foreign(m) => c.parse(m.id).Some? ==> c.parse(m.id).value !in s.created
    case Deliver(w, m) => w !in s.consumers && m in s.ready
    case Enter(w, _) => w in s.consumers && s.consumers[w].Holding?
    case Handle(w, _) => w in s.consumers && s.consumers[w].InHandler?
    case Leave(w, _) => w in s.consumers && s.consumers[w].Returned?
    case Acknowledge(w) => w in s.consumers && s.consumers[w].Decided?
    case Crash(w) => w in s.consumers
    case Forget(key) => key in s.records
    case Retain(row) => row in s.log
  }

  function Apply(c: Codec, s: State, step: Step): State
    requires Enabled(c, s, step)
  {
    match step
    case Create(id, event) => s.(created := s.created[id := event], tasks := s.tasks[id := Pending])
    case Publish(id) =>
      s.(tasks := s.tasks[id := Published], ready := s.ready + multiset{MessageFor(c, id, s.created[id])})
    case RemoveTask(id) => s.(tasks := s.tasks - {id})
    case BuryTask(id) => s.(tasks := s.tasks - {id}, deadTasks := s.deadTasks + {id})
    case Foreign(m) =>
      s.(ready := s.ready + multiset{m},
         foreign := if c.parse(m.id).Some? then s.foreign + {c.parse(m.id).value} else s.foreign)
    case Deliver(w, m) => s.(ready := s.ready - multiset{m}, consumers := s.consumers[w := Holding(m)])
    case Enter(w, store) =>
      var m := s.consumers[w].m;
      var entry := EntryOf(c, s.records, m, store);
      s.(records := EntryRecords(c, s.records, m, w, store),
         consumers := s.consumers[w := if entry.RunHandler? then InHandler(m) else Decided(m, entry.action)])
    case Handle(w, ins) =>
      var m := s.consumers[w].m;
      s.(log := Recorded(c, s.log, m, ins), consumers := s.consumers[w := Returned(m, VerdictOf(c, m, ins))])
    case Leave(w, commit) =>
      var m, verdict := s.consumers[w].m, s.consumers[w].verdict;
      s.(records := ExitRecords(c, s.records, m, verdict, commit),
         consumers := s.consumers[w := Decided(m, ExitAction(m, verdict, commit))])
    case Acknowledge(w) => Acknowledged(s, w)
    case Crash(w) => s.(ready := s.ready + multiset{s.consumers[w].m}, consumers := s.consumers - {w})
    case Forget(key) => s.(records := s.records - {key})
    case Retain(row) => s.(log := s.log - {row}, expired := s.expired + {row})
  }

  function Acknowledged(s: State, w: nat): State
    requires w in s.consumers && s.consumers[w].Decided?
  {
    var m := s.consumers[w].m;
    var t := s.(consumers := s.consumers - {w});
    match s.consumers[w].action
    case Ack => t
    case Requeue => t.(ready := t.ready + multiset{m})
    case Discard => t.(discarded := t.discarded + multiset{m})
  }

  ghost predicate Run(c: Codec, s: State, steps: seq<Step>, end: State)
    decreases |steps|
  {
    if steps == [] then end == s
    else Enabled(c, s, steps[0]) && Run(c, Apply(c, s, steps[0]), steps[1..], end)
  }

  // ---- what every step keeps ----

  function EverLogged(s: State): set<RowKey> {
    s.log.Keys + s.expired
  }

  /** The message is in the broker's hands, waiting or unacked. */
  ghost predicate InBroker(s: State, m: Message) {
    m in s.ready || exists w :: w in s.consumers && s.consumers[w].m == m
  }

  /** The message carries the id of a committed create. */
  predicate OfCreate(c: Codec, s: State, m: Message) {
    c.parse(m.id).Some? && c.parse(m.id).value in s.created
  }

  /** A message with the id of a create is the event of that create; other ids are foreign. */
  predicate Genuine(c: Codec, s: State, m: Message) {
    c.parse(m.id).Some? ==>
      var id := c.parse(m.id).value;
      if id in s.created then m == MessageFor(c, id, s.created[id]) else id in s.foreign
  }

  ghost predicate MessagesGenuine(c: Codec, s: State) {
    && (forall m | m in s.ready :: Genuine(c, s, m))
    && (forall w | w in s.consumers :: Genuine(c, s, s.consumers[w].m))
    && (forall m | m in s.discarded :: !OfCreate(c, s, m) && Genuine(c, s, m))
    && s.created.Keys !! s.foreign
  }

  /** A consumer about to ack an event has seen it logged; none is about to discard one. */
  ghost predicate ConsumersSound(c: Codec, s: State) {
    forall w | w in s.consumers && OfCreate(c, s, s.consumers[w].m) ::
      match s.consumers[w]
      case Returned(m, v) => !v.Discard? && (v.Ack? ==> RowOf(c, m).Some? && RowOf(c, m).value in EverLogged(s))
      case Decided(m, a) => !a.Discard? && (a.Ack? ==> RowOf(c, m).Some? && RowOf(c, m).value in EverLogged(s))
      case _ => true
  }

  /** A record is of a message that has been seen, and a stored one of an event that was logged. */
  ghost predicate RecordsSound(c: Codec, s: State) {
    forall m | c.key(m) in s.records && c.parse(m.id).Some? ::
      && (c.parse(m.id).value in s.created || c.parse(m.id).value in s.foreign)
      && (s.records[c.key(m)].Stored? && OfCreate(c, s, m) && Genuine(c, s, m) ==>
            RowOf(c, m).Some? && RowOf(c, m).value in EverLogged(s))
  }

  /** Every row ever logged is of a create, under its one time and payload, or of a foreign message. */
  ghost predicate LogSound(s: State) {
    && (forall k | k in EverLogged(s) && k.0 in s.created :: k.1 == s.created[k.0].time)
    && (forall k | k in EverLogged(s) && k.0 !in s.created :: k.0 in s.foreign)
    && (forall k | k in s.log && k.0 in s.created :: s.log[k] == LogRow("widget.created", s.created[k.0].data))
  }

  /** The event is still a task, in the broker, given up by the queue, or has been logged. */
  ghost predicate Kept(c: Codec, s: State, id: Uuid)
    requires id in s.created
  {
    || id in s.tasks || id in s.deadTasks
    || InBroker(s, MessageFor(c, id, s.created[id]))
    || (id, s.created[id].time) in EverLogged(s)
  }

  ghost predicate NothingLost(c: Codec, s: State) {
    && (forall id | id in s.created :: Kept(c, s, id))
    && (forall id | id in s.tasks && s.tasks[id].Published? ::
          && id in s.created
          && (InBroker(s, MessageFor(c, id, s.created[id])) || (id, s.created[id].time) in EverLogged(s)))
  }

  ghost predicate Inv(c: Codec, s: State) {
    MessagesGenuine(c, s) && ConsumersSound(c, s) && RecordsSound(c, s) && LogSound(s) && NothingLost(c, s)
  }

  // ---- step by step ----

  /** Messages may only leave the broker once they are logged, or were no create's. */
  lemma StillKept(c: Codec, s: State, t: State)
    requires Faithful(c) && NothingLost(c, s)
    requires t.created == s.created && t.tasks == s.tasks && t.deadTasks == s.deadTasks
    requires EverLogged(s) <= EverLogged(t)
    requires forall m | InBroker(s, m) && OfCreate(c, s, m) && Genuine(c, s, m) ::
               InBroker(t, m) || (RowOf(c, m).Some? && RowOf(c, m).value in EverLogged(t))
    ensures NothingLost(c, t)
  {
    forall id | id in s.created && InBroker(s, MessageFor(c, id, s.created[id]))
      ensures InBroker(t, MessageFor(c, id, s.created[id])) || (id, s.created[id].time) in EverLogged(t)
    {
      var m := MessageFor(c, id, s.created[id]);
      assert OfCreate(c, s, m) && Genuine(c, s, m);
    }
  }

  /** A consumer goes on with the message it has. */
  lemma SameMessage(c: Codec, s: State, t: State, w: nat)
    requires Faithful(c) && NothingLost(c, s) && w in s.consumers && w in t.consumers
    requires t.created == s.created && t.tasks == s.tasks && t.deadTasks == s.deadTasks && t.ready == s.ready
    requires EverLogged(s) <= EverLogged(t)
    requires t.consumers == s.consumers[w := t.consumers[w]] && t.consumers[w].m == s.consumers[w].m
    ensures NothingLost(c, t)
  {
    forall m | InBroker(s, m)
      ensures InBroker(t, m)
    {
      if m !in s.ready {
        var v :| v in s.consumers && s.consumers[v].m == m;
        assert v in t.consumers && t.consumers[v].m == m;
      }
    }
    StillKept(c, s, t);
  }

  /** A consumer lets go of its message, which goes back to the queue unless it may leave. */
  lemma LetGo(c: Codec, s: State, t: State, w: nat)
    requires Faithful(c) && NothingLost(c, s) && w in s.consumers
    requires t.created == s.created && t.tasks == s.tasks && t.deadTasks == s.deadTasks
    requires EverLogged(s) <= EverLogged(t) && t.consumers == s.consumers - {w} && s.ready <= t.ready
    requires var m := s.consumers[w].m;
             m in t.ready || !OfCreate(c, s, m) || (RowOf(c, m).Some? && RowOf(c, m).value in EverLogged(t))
    ensures NothingLost(c, t)
  {
    forall m | InBroker(s, m) && OfCreate(c, s, m) && Genuine(c, s, m)
      ensures InBroker(t, m) || (RowOf(c, m).Some? && RowOf(c, m).value in EverLogged(t))
    {
      if m !in s.ready {
        var v :| v in s.consumers && s.consumers[v].m == m;
        if v != w {
          assert v in t.consumers && t.consumers[v].m == m;
        }
      }
    }
    StillKept(c, s, t);
  }

  ghost predicate Sound(c: Codec, s: State) {
    MessagesGenuine(c, s) && ConsumersSound(c, s) && RecordsSound(c, s) && LogSound(s)
  }

  lemma SameBroker(s: State, t: State, m: Message)
    requires t.ready == s.ready && t.consumers == s.consumers
    ensures InBroker(t, m) <==> InBroker(s, m)
  {}

  /** Records that are kept or dropped stay sound while no create and no row is taken back. */
  lemma RecordsCarry(c: Codec, s: State, t: State)
    requires RecordsSound(c, s) && t.created == s.created && s.foreign <= t.foreign
    requires forall k | k in t.records :: k in s.records && t.records[k] == s.records[k]
    requires EverLogged(s) <= EverLogged(t)
    ensures RecordsSound(c, t)
  {}

  /** Consumers that go on or leave stay sound alike; a new one may only hold its message. */
  lemma ConsumersCarry(c: Codec, s: State, t: State)
    requires ConsumersSound(c, s) && t.created == s.created && EverLogged(s) <= EverLogged(t)
    requires forall w | w in t.consumers :: t.consumers[w].Holding? || (w in s.consumers && t.consumers[w] == s.consumers[w])
    ensures ConsumersSound(c, t)
  {}

  lemma CreateMessages(c: Codec, s: State, step: Step)
    requires Faithful(c) && Sound(c, s) && Enabled(c, s, step) && step.Create?
    ensures MessagesGenuine(c, Apply(c, s, step)) && ConsumersSound(c, Apply(c, s, step))
  {}

  lemma CreateLog(c: Codec, s: State, step: Step)
    requires Faithful(c) && RecordsSound(c, s) && LogSound(s) && Enabled(c, s, step) && step.Create?
    ensures RecordsSound(c, Apply(c, s, step)) && LogSound(Apply(c, s, step))
  {}

  lemma CreateSound(c: Codec, s: State, step: Step)
    requires Faithful(c) && Sound(c, s) && Enabled(c, s, step) && step.Create?
    ensures Sound(c, Apply(c, s, step))
  {
    CreateMessages(c, s, step);
    CreateLog(c, s, step);
  }

  lemma CreateKeeps(c: Codec, s: State, step: Step)
    requires Faithful(c) && NothingLost(c, s) && Enabled(c, s, step) && step.Create?
    ensures NothingLost(c, Apply(c, s, step))
  {}

  lemma PublishSound(c: Codec, s: State, step: Step)
    requires Faithful(c) && Sound(c, s) && Enabled(c, s, step) && step.Publish?
    ensures Sound(c, Apply(c, s, step))
  {
    var t := Apply(c, s, step);
    assert EverLogged(s) <= EverLogged(t);
    RecordsCarry(c, s, t);
    ConsumersCarry(c, s, t);
  }

  lemma PublishKeeps(c: Codec, s: State, step: Step)
    requires Faithful(c) && NothingLost(c, s) && Enabled(c, s, step) && step.Publish?
    ensures NothingLost(c, Apply(c, s, step))
  {}

  lemma RemoveTaskSound(c: Codec, s: State, step: Step)
    requires Faithful(c) && Sound(c, s) && Enabled(c, s, step) && step.RemoveTask?
    ensures Sound(c, Apply(c, s, step))
  {
    var t := Apply(c, s, step);
    assert EverLogged(s) <= EverLogged(t);
    RecordsCarry(c, s, t);
    ConsumersCarry(c, s, t);
  }

  lemma RemoveTaskKeeps(c: Codec, s: State, step: Step)
    requires Faithful(c) && NothingLost(c, s) && Enabled(c, s, step) && step.RemoveTask?
    ensures NothingLost(c, Apply(c, s, step))
  {
    var t := Apply(c, s, step);
    forall m
      ensures InBroker(t, m) <==> InBroker(s, m)
    {
      SameBroker(s, t, m);
    }
  }

  lemma BuryTaskSound(c: Codec, s: State, step: Step)
    requires Faithful(c) && Sound(c, s) && Enabled(c, s, step) && step.BuryTask?
    ensures Sound(c, Apply(c, s, step))
  {
    var t := Apply(c, s, step);
    assert EverLogged(s) <= EverLogged(t);
    RecordsCarry(c, s, t);
    ConsumersCarry(c, s, t);
  }

  lemma BuryTaskKeeps(c: Codec, s: State, step: Step)
    requires Faithful(c) && NothingLost(c, s) && Enabled(c, s, step) && step.BuryTask?
    ensures NothingLost(c, Apply(c, s, step))
  {}

  lemma ForeignSound(c: Codec, s: State, step: Step)
    requires Faithful(c) && Sound(c, s) && Enabled(c, s, step) && step.Foreign?
    ensures Sound(c, Apply(c, s, step))
  {
    var t := Apply(c, s, step);
    assert EverLogged(s) <= EverLogged(t);
    RecordsCarry(c, s, t);
    ConsumersCarry(c, s, t);
  }

  lemma ForeignKeeps(c: Codec, s: State, step: Step)
    requires Faithful(c) && NothingLost(c, s) && Enabled(c, s, step) && step.Foreign?
    ensures NothingLost(c, Apply(c, s, step))
  {}

  lemma ForgetSound(c: Codec, s: State, step: Step)
    requires Faithful(c) && Sound(c, s) && Enabled(c, s, step) && step.Forget?
    ensures Sound(c, Apply(c, s, step))
  {
    var t := Apply(c, s, step);
    assert EverLogged(s) <= EverLogged(t);
    RecordsCarry(c, s, t);
    ConsumersCarry(c, s, t);
  }

  lemma ForgetKeeps(c: Codec, s: State, step: Step)
    requires Faithful(c) && NothingLost(c, s) && Enabled(c, s, step) && step.Forget?
    ensures NothingLost(c, Apply(c, s, step))
  {}

  lemma RetainSound(c: Codec, s: State, step: Step)
    requires Faithful(c) && Sound(c, s) && Enabled(c, s, step) && step.Retain?
    ensures Sound(c, Apply(c, s, step))
  {
    var t := Apply(c, s, step);
    assert EverLogged(s) <= EverLogged(t);
    RecordsCarry(c, s, t);
    ConsumersCarry(c, s, t);
  }

  lemma RetainKeeps(c: Codec, s: State, step: Step)
    requires Faithful(c) && NothingLost(c, s) && Enabled(c, s, step) && step.Retain?
    ensures NothingLost(c, Apply(c, s, step))
  {}

  lemma DeliverSound(c: Codec, s: State, w: nat, m: Message)
    requires Sound(c, s) && w !in s.consumers && m in s.ready
    ensures Sound(c, Apply(c, s, Deliver(w, m)))
  {
    var t := Apply(c, s, Deliver(w, m));
    RecordsCarry(c, s, t);
    ConsumersCarry(c, s, t);
  }

  lemma DeliverKeeps(c: Codec, s: State, w: nat, m: Message)
    requires Faithful(c) && NothingLost(c, s) && w !in s.consumers && m in s.ready
    ensures NothingLost(c, Apply(c, s, Deliver(w, m)))
  {
    var t := Apply(c, s, Deliver(w, m));
    forall x | InBroker(s, x)
      ensures InBroker(t, x)
    {
      if x == m {
        assert t.consumers[w].m == m;
      } else if x !in s.ready {
        var v :| v in s.consumers && s.consumers[v].m == x;
        assert v in t.consumers && t.consumers[v].m == x;
      }
    }
    StillKept(c, s, t);
  }

  lemma EnterConsumers(c: Codec, s: State, w: nat, store: Health)
    requires Sound(c, s) && w in s.consumers && s.consumers[w].Holding?
    ensures ConsumersSound(c, Apply(c, s, Enter(w, store)))
  {}

  lemma EnterRecordsSound(c: Codec, s: State, step: Step)
    requires Faithful(c) && Sound(c, s) && Enabled(c, s, step) && step.Enter?
    ensures RecordsSound(c, Apply(c, s, step))
  {}

  lemma EnterKeeps(c: Codec, s: State, w: nat, store: Health)
    requires Faithful(c) && NothingLost(c, s) && w in s.consumers && s.consumers[w].Holding?
    ensures NothingLost(c, Apply(c, s, Enter(w, store)))
  {
    SameMessage(c, s, Apply(c, s, Enter(w, store)), w);
  }

  lemma EnterSound(c: Codec, s: State, w: nat, store: Health)
    requires Faithful(c) && Sound(c, s) && w in s.consumers && s.consumers[w].Holding?
    ensures Sound(c, Apply(c, s, Enter(w, store)))
  {
    EnterConsumers(c, s, w, store);
    EnterRecordsSound(c, s, Enter(w, store));
  }

  lemma HandleConsumers(c: Codec, s: State, w: nat, ins: Insert)
    requires Faithful(c) && MessagesGenuine(c, s) && ConsumersSound(c, s) && w in s.consumers && s.consumers[w].InHandler?
    ensures ConsumersSound(c, Apply(c, s, Handle(w, ins)))
  {
    var t := Apply(c, s, Handle(w, ins));
    assert EverLogged(s) <= EverLogged(t);
  }

  lemma HandleLog(c: Codec, s: State, step: Step)
    requires Faithful(c) && MessagesGenuine(c, s) && LogSound(s) && RecordsSound(c, s) && Enabled(c, s, step) && step.Handle?
    ensures LogSound(Apply(c, s, step)) && RecordsSound(c, Apply(c, s, step))
  {}

  lemma HandleKeeps(c: Codec, s: State, step: Step)
    requires Faithful(c) && NothingLost(c, s) && Enabled(c, s, step) && step.Handle?
    ensures NothingLost(c, Apply(c, s, step))
  {
    SameMessage(c, s, Apply(c, s, step), step.consumer);
  }

  lemma LeaveConsumers(c: Codec, s: State, step: Step)
    requires Faithful(c) && Sound(c, s) && Enabled(c, s, step) && step.Leave?
    ensures ConsumersSound(c, Apply(c, s, step))
  {}

  lemma LeaveRecordsSound(c: Codec, s: State, step: Step)
    requires Faithful(c) && Sound(c, s) && Enabled(c, s, step) && step.Leave?
    ensures RecordsSound(c, Apply(c, s, step))
  {}

  lemma LeaveKeeps(c: Codec, s: State, w: nat, commit: Commit)
    requires Faithful(c) && NothingLost(c, s) && w in s.consumers && s.consumers[w].Returned?
    ensures NothingLost(c, Apply(c, s, Leave(w, commit)))
  {
    SameMessage(c, s, Apply(c, s, Leave(w, commit)), w);
  }

  lemma LeaveSound(c: Codec, s: State, w: nat, commit: Commit)
    requires Faithful(c) && Sound(c, s) && w in s.consumers && s.consumers[w].Returned?
    ensures Sound(c, Apply(c, s, Leave(w, commit)))
  {
    LeaveConsumers(c, s, Leave(w, commit));
    LeaveRecordsSound(c, s, Leave(w, commit));
  }

  lemma DroppedSound(c: Codec, s: State, w: nat)
    requires Sound(c, s) && w in s.consumers
    ensures Sound(c, s.(consumers := s.consumers - {w}))
  {}

  lemma RequeuedSound(c: Codec, s: State, m: Message)
    requires Sound(c, s) && Genuine(c, s, m)
    ensures Sound(c, s.(ready := s.ready + multiset{m}))
  {}

  lemma DiscardedSound(c: Codec, s: State, m: Message)
    requires Sound(c, s) && Genuine(c, s, m) && !OfCreate(c, s, m)
    ensures Sound(c, s.(discarded := s.discarded + multiset{m}))
  {}

  lemma AcknowledgeSound(c: Codec, s: State, w: nat)
    requires Faithful(c) && Inv(c, s) && w in s.consumers && s.consumers[w].Decided?
    ensures Sound(c, Apply(c, s, Acknowledge(w)))
  {
    var m := s.consumers[w].m;
    var t := s.(consumers := s.consumers - {w});
    DroppedSound(c, s, w);
    match s.consumers[w].action {
      case Ack => assert Apply(c, s, Acknowledge(w)) == t;
      case Requeue => RequeuedSound(c, t, m);
      case Discard => DiscardedSound(c, t, m);
    }
  }

  /** What a consumer acks or discards may leave the broker. */
  lemma DecisionSound(c: Codec, s: State, w: nat)
    requires ConsumersSound(c, s) && w in s.consumers && s.consumers[w].Decided?
    ensures var m := s.consumers[w].m;
            s.consumers[w].action.Requeue? || !OfCreate(c, s, m)
            || (RowOf(c, m).Some? && RowOf(c, m).value in EverLogged(s))
  {}

  lemma MayLeave(c: Codec, s: State, w: nat)
    requires Faithful(c) && NothingLost(c, s) && w in s.consumers
    requires var m := s.consumers[w].m; !OfCreate(c, s, m) || (RowOf(c, m).Some? && RowOf(c, m).value in EverLogged(s))
    ensures NothingLost(c, s.(consumers := s.consumers - {w}))
  {
    LetGo(c, s, s.(consumers := s.consumers - {w}), w);
  }

  lemma DiscardedElsewhere(c: Codec, s: State, discarded: multiset<Message>)
    requires NothingLost(c, s)
    ensures NothingLost(c, s.(discarded := discarded))
  {
    forall m
      ensures InBroker(s.(discarded := discarded), m) <==> InBroker(s, m)
    {
      SameBroker(s, s.(discarded := discarded), m);
    }
  }

  lemma AcknowledgeKeeps(c: Codec, s: State, w: nat)
    requires Faithful(c) && NothingLost(c, s) && ConsumersSound(c, s) && w in s.consumers && s.consumers[w].Decided?
    ensures NothingLost(c, Acknowledged(s, w))
  {
    DecisionSound(c, s, w);
    var m := s.consumers[w].m;
    match s.consumers[w].action {
      case Requeue => CrashKeeps(c, s, w);
      case Ack => MayLeave(c, s, w);
      case Discard =>
        MayLeave(c, s, w);
        DiscardedElsewhere(c, s.(consumers := s.consumers - {w}), s.discarded + multiset{m});
    }
  }

  lemma CrashSound(c: Codec, s: State, w: nat)
    requires Sound(c, s) && w in s.consumers
    ensures Sound(c, Apply(c, s, Crash(w)))
  {
    DroppedSound(c, s, w);
    RequeuedSound(c, s.(consumers := s.consumers - {w}), s.consumers[w].m);
  }

  lemma CrashKeeps(c: Codec, s: State, w: nat)
    requires Faithful(c) && NothingLost(c, s) && w in s.consumers
    ensures NothingLost(c, Apply(c, s, Crash(w)))
  {
    LetGo(c, s, Apply(c, s, Crash(w)), w);
  }

  predicate OfConsumer(step: Step) {
    step.Deliver? || step.Enter? || step.Handle? || step.Leave? || step.Acknowledge? || step.Crash?
  }

  lemma ConsumerStepKeepsInv(c: Codec, s: State, step: Step)
    requires Faithful(c) && Inv(c, s) && Enabled(c, s, step) && OfConsumer(step)
    ensures Inv(c, Apply(c, s, step))
  {
    match step {
      case Deliver(w, m) => DeliverSound(c, s, w, m); DeliverKeeps(c, s, w, m);
      case Enter(w, store) => EnterSound(c, s, w, store); EnterKeeps(c, s, w, store);
      case Handle(w, ins) => HandleConsumers(c, s, w, ins); HandleLog(c, s, step); HandleKeeps(c, s, step);
      case Leave(w, commit) => LeaveSound(c, s, w, commit); LeaveKeeps(c, s, w, commit);
      case Acknowledge(w) => AcknowledgeSound(c, s, w); AcknowledgeKeeps(c, s, w);
      case Crash(w) => CrashSound(c, s, w); CrashKeeps(c, s, w);
    }
  }

  lemma StepKeepsInv(c: Codec, s: State, step: Step)
    requires Faithful(c) && Inv(c, s) && Enabled(c, s, step)
    ensures Inv(c, Apply(c, s, step))
  {
    match step {
      case Create(_, _) => CreateSound(c, s, step); CreateKeeps(c, s, step);
      case Publish(_) => PublishSound(c, s, step); PublishKeeps(c, s, step);
      case RemoveTask(_) => RemoveTaskSound(c, s, step); RemoveTaskKeeps(c, s, step);
      case BuryTask(_) => BuryTaskSound(c, s, step); BuryTaskKeeps(c, s, step);
      case Foreign(_) => ForeignSound(c, s, step); ForeignKeeps(c, s, step);
      case Forget(_) => ForgetSound(c, s, step); ForgetKeeps(c, s, step);
      case Retain(_) => RetainSound(c, s, step); RetainKeeps(c, s, step);
      case _ => ConsumerStepKeepsInv(c, s, step);
    }
  }

  lemma {:induction false} RunKeepsInv(c: Codec, s: State, steps: seq<Step>, end: State)
    requires Faithful(c) && Inv(c, s) && Run(c, s, steps, end)
    ensures Inv(c, end)
    decreases |steps|
  {
    if steps == [] {
    } else {
      StepKeepsInv(c, s, steps[0]);
      RunKeepsInv(c, Apply(c, s, steps[0]), steps[1..], end);
    }
  }

  /** No two rows of the log carry the id. */
  ghost predicate AtMostOneRow(log: EventLog, id: Uuid) {
    forall k1, k2 | k1 in log && k2 in log && k1.0 == id && k2.0 == id :: k1 == k2
  }

  /**
   After every run, failures of every part included: each committed create has at most one
   log row, with its own time and payload; its event is still a task, in the broker, a dead
   task or has been logged, and was never discarded; every other row is of a foreign message.
   */
  lemma EventsRecordedOnceAndKept(c: Codec, steps: seq<Step>, end: State)
    requires Faithful(c) && Run(c, START, steps, end)
    ensures forall id | id in end.created :: Kept(c, end, id) && AtMostOneRow(end.log, id)
    ensures forall k | k in end.log && k.0 in end.created ::
              k.1 == end.created[k.0].time && end.log[k] == LogRow("widget.created", end.created[k.0].data)
    ensures forall k | k in end.log && k.0 !in end.created :: k.0 in end.foreign
    ensures forall m | m in end.discarded :: !OfCreate(c, end, m)
  {
    RunKeepsInv(c, START, steps, end);
  }

  /** A stored record of an event means its row was logged: acking a repeat drops nothing. */
  lemma StoredMeansLogged(c: Codec, steps: seq<Step>, end: State, id: Uuid)
    requires Faithful(c) && Run(c, START, steps, end) && id in end.created
    requires var m := MessageFor(c, id, end.created[id]);
             c.key(m) in end.records && end.records[c.key(m)].Stored?
    ensures (id, end.created[id].time) in EverLogged(end)
  {
    RunKeepsInv(c, START, steps, end);
    var m := MessageFor(c, id, end.created[id]);
    assert c.parse(m.id) == Some(id);
  }

  // ---- no dead end ----

  /** The consumer is at work in the handler under the key, or back from it with the key still its own. */
  predicate AtWork(c: Codec, s: State, w: nat, key: string) {
    w in s.consumers && (s.consumers[w].InHandler? || s.consumers[w].Returned?) && c.key(s.consumers[w].m) == key
  }

  /**
   A step of the service at its work with nothing failing. The keeper forgets nothing but the
   record of a call whose consumer is gone.
   */
  predicate Clean(c: Codec, s: State, step: Step) {
    match step
    case Publish(_) => true
    case Deliver(_, _) => true
    case Enter(_, store) => store.Up?
    case Handle(_, ins) => ins.Succeeds?
    case Leave(_, commit) => commit.Written?
    case Acknowledge(_) => true
    case Forget(key) => key in s.records && s.records[key].Running? && !AtWork(c, s, s.records[key].holder, key)
    case _ => false
  }

  ghost predicate CleanRun(c: Codec, s: State, steps: seq<Step>, end: State)
    decreases |steps|
  {
    if steps == [] then end == s
    else
      && Enabled(c, s, steps[0]) && Clean(c, s, steps[0])
      && CleanRun(c, Apply(c, s, steps[0]), steps[1..], end)
  }

  lemma {:induction false} CleanIsRun(c: Codec, s: State, steps: seq<Step>, end: State)
    requires CleanRun(c, s, steps, end)
    ensures Run(c, s, steps, end)
    decreases |steps|
  {
    if steps == [] {
      assert end == s;
    } else {
      CleanIsRun(c, Apply(c, s, steps[0]), steps[1..], end);
    }
  }

  lemma CleanFirst(c: Codec, s: State, step: Step, steps: seq<Step>, end: State)
    requires Enabled(c, s, step) && Clean(c, s, step) && CleanRun(c, Apply(c, s, step), steps, end)
    ensures CleanRun(c, s, [step] + steps, end)
  {
    assert ([step] + steps)[1..] == steps;
  }

  lemma {:induction false} FreshNumber(used: set<nat>) returns (n: nat)
    ensures forall u | u in used :: u < n
  {
    if used == {} {
      n := 0;
    } else {
      var u :| u in used;
      var rest := FreshNumber(used - {u});
      assert used == used - {u} + {u};
      n := if u < rest then rest else u + 1;
    }
  }

  /** An event of a create that is not in the log yet, and its row. */
  ghost predicate Unlogged(c: Codec, s: State, m: Message, row: RowKey) {
    OfCreate(c, s, m) && Genuine(c, s, m) && RowOf(c, m) == Some(row) && row !in EverLogged(s)
  }

  lemma InHandlerLogs(c: Codec, s: State, w: nat, m: Message, row: RowKey) returns (steps: seq<Step>, end: State)
    requires w in s.consumers && s.consumers[w] == InHandler(m) && RowOf(c, m) == Some(row)
    ensures CleanRun(c, s, steps, end) && row in EverLogged(end) && |steps| == 1
  {
    steps, end := [Handle(w, Succeeds)], Apply(c, s, Handle(w, Succeeds));
    assert CleanRun(c, end, [], end);
    CleanFirst(c, s, Handle(w, Succeeds), [], end);
    assert [Handle(w, Succeeds)] + [] == steps;
  }

  /** Entering with the key free and running the handler. */
  lemma HoldingLogs(c: Codec, s: State, w: nat, m: Message, row: RowKey) returns (steps: seq<Step>, end: State)
    requires w in s.consumers && s.consumers[w] == Holding(m) && RowOf(c, m) == Some(row) && c.key(m) !in s.records
    ensures CleanRun(c, s, steps, end) && row in EverLogged(end) && |steps| == 2
  {
    var s1 := Apply(c, s, Enter(w, Up));
    assert s1.consumers[w] == InHandler(m);
    var rest, last := InHandlerLogs(c, s1, w, m, row);
    CleanFirst(c, s, Enter(w, Up), rest, last);
    steps, end := [Enter(w, Up)] + rest, last;
  }

  lemma ReadyLogs(c: Codec, s: State, m: Message, row: RowKey) returns (steps: seq<Step>, end: State)
    requires m in s.ready && RowOf(c, m) == Some(row) && c.key(m) !in s.records
    ensures CleanRun(c, s, steps, end) && row in EverLogged(end) && |steps| == 3
  {
    var w := FreshNumber(s.consumers.Keys);
    assert w !in s.consumers;
    var s1 := Apply(c, s, Deliver(w, m));
    var rest, last := HoldingLogs(c, s1, w, m, row);
    CleanFirst(c, s, Deliver(w, m), rest, last);
    steps, end := [Deliver(w, m)] + rest, last;
  }

  /** Whoever has an unlogged event's key has that event. */
  lemma SameKeySameMessage(c: Codec, s: State, m: Message, x: Message)
    requires Faithful(c) && OfCreate(c, s, m) && Genuine(c, s, m) && Genuine(c, s, x) && c.key(x) == c.key(m)
    ensures x == m
  {
    assert x.id == m.id;
  }

  /** The broker's queue and the consumers about to enter are as they were. */
  ghost predicate Waiting(s: State, t: State) {
    && t.ready == s.ready && t.created == s.created
    && forall w | w in s.consumers && s.consumers[w].Holding? :: w in t.consumers && t.consumers[w] == s.consumers[w]
  }

  /** A clean step, or none. */
  ghost predicate CleanMove(c: Codec, s: State, step: Option<Step>, t: State) {
    if step.None? then t == s else Enabled(c, s, step.value) && Clean(c, s, step.value) && t == Apply(c, s, step.value)
  }

  function Maybe(step: Option<Step>): seq<Step> {
    if step.None? then [] else [step.value]
  }

  lemma CleanThen(c: Codec, s: State, step: Option<Step>, mid: State, steps: seq<Step>, end: State)
    requires CleanMove(c, s, step, mid) && CleanRun(c, mid, steps, end)
    ensures CleanRun(c, s, Maybe(step) + steps, end)
  {
    if step.None? {
      assert Maybe(step) + steps == steps;
    } else {
      CleanFirst(c, s, step.value, steps, end);
    }
  }

  /** A consumer back from the handler with an unlogged event asks for it again and frees the key. */
  lemma ReturnedFrees(c: Codec, s: State, w: nat, m: Message, row: RowKey)
    requires Faithful(c) && ConsumersSound(c, s) && Unlogged(c, s, m, row)
    requires w in s.consumers && s.consumers[w].Returned? && s.consumers[w].m == m
    ensures var t := Apply(c, s, Leave(w, Written));
            && c.key(m) !in t.records && Waiting(s, t)
            && w in t.consumers && t.consumers[w] == Decided(m, Requeue)
  {
    assert s.consumers[w].verdict.Requeue?;
    assert m.id != "";
  }

  /**
   A record in the way of an unlogged event is of a running call. Its consumer comes to an end
   with it, logging the event or freeing the key, or is gone, and the keeper forgets it.
   */
  lemma KeyComesFree(c: Codec, s: State, m: Message, row: RowKey) returns (step: Option<Step>, t: State)
    requires Faithful(c) && Inv(c, s) && Unlogged(c, s, m, row)
    ensures CleanMove(c, s, step, t)
    ensures row in EverLogged(t) || (c.key(m) !in t.records && Waiting(s, t))
  {
    var key := c.key(m);
    if key !in s.records {
      step, t := None, s;
    } else {
      assert s.records[key].Running?;
      var w := s.records[key].holder;
      if !AtWork(c, s, w, key) {
        step := Some(Forget(key));
      } else {
        SameKeySameMessage(c, s, m, s.consumers[w].m);
        if s.consumers[w].InHandler? {
          step := Some(Handle(w, Succeeds));
        } else {
          ReturnedFrees(c, s, w, m, row);
          step := Some(Leave(w, Written));
        }
      }
      t := Apply(c, s, step.value);
    }
  }

  lemma FromReady(c: Codec, s: State, m: Message, row: RowKey) returns (steps: seq<Step>, end: State)
    requires Faithful(c) && Inv(c, s) && Unlogged(c, s, m, row) && m in s.ready
    ensures CleanRun(c, s, steps, end) && row in EverLogged(end) && |steps| <= 4
  {
    var first, mid := KeyComesFree(c, s, m, row);
    if row in EverLogged(mid) {
      assert CleanRun(c, mid, [], mid);
      CleanThen(c, s, first, mid, [], mid);
      steps, end := Maybe(first) + [], mid;
    } else {
      var rest, last := ReadyLogs(c, mid, m, row);
      CleanThen(c, s, first, mid, rest, last);
      steps, end := Maybe(first) + rest, last;
    }
  }

  lemma FromHolding(c: Codec, s: State, w: nat, m: Message, row: RowKey) returns (steps: seq<Step>, end: State)
    requires Faithful(c) && Inv(c, s) && Unlogged(c, s, m, row)
    requires w in s.consumers && s.consumers[w] == Holding(m)
    ensures CleanRun(c, s, steps, end) && row in EverLogged(end) && |steps| <= 3
  {
    var first, mid := KeyComesFree(c, s, m, row);
    if row in EverLogged(mid) {
      assert CleanRun(c, mid, [], mid);
      CleanThen(c, s, first, mid, [], mid);
      steps, end := Maybe(first) + [], mid;
    } else {
      var rest, last := HoldingLogs(c, mid, w, m, row);
      CleanThen(c, s, first, mid, rest, last);
      steps, end := Maybe(first) + rest, last;
    }
  }

  lemma RequeuedIsReady(c: Codec, s: State, w: nat, m: Message)
    requires w in s.consumers && s.consumers[w] == Decided(m, Requeue)
    ensures m in Apply(c, s, Acknowledge(w)).ready
    ensures Apply(c, s, Acknowledge(w)).records == s.records && Apply(c, s, Acknowledge(w)).log == s.log
    ensures Apply(c, s, Acknowledge(w)).expired == s.expired && Apply(c, s, Acknowledge(w)).created == s.created
  {}

  lemma FromDecided(c: Codec, s: State, w: nat, m: Message, row: RowKey) returns (steps: seq<Step>, end: State)
    requires Faithful(c) && Inv(c, s) && Unlogged(c, s, m, row)
    requires w in s.consumers && s.consumers[w].Decided? && s.consumers[w].m == m
    ensures CleanRun(c, s, steps, end) && row in EverLogged(end) && |steps| <= 5
  {
    assert s.consumers[w] == Decided(m, Requeue);
    var next := Apply(c, s, Acknowledge(w));
    RequeuedIsReady(c, s, w, m);
    StepKeepsInv(c, s, Acknowledge(w));
    var rest, last := FromReady(c, next, m, row);
    CleanFirst(c, s, Acknowledge(w), rest, last);
    steps, end := [Acknowledge(w)] + rest, last;
  }

  lemma FromReturned(c: Codec, s: State, w: nat, m: Message, row: RowKey) returns (steps: seq<Step>, end: State)
    requires Faithful(c) && ConsumersSound(c, s) && Unlogged(c, s, m, row)
    requires w in s.consumers && s.consumers[w].Returned? && s.consumers[w].m == m
    ensures CleanRun(c, s, steps, end) && row in EverLogged(end) && |steps| <= 5
  {
    var mid := Apply(c, s, Leave(w, Written));
    ReturnedFrees(c, s, w, m, row);
    RequeuedIsReady(c, mid, w, m);
    var rest, last := ReadyLogs(c, Apply(c, mid, Acknowledge(w)), m, row);
    CleanFirst(c, mid, Acknowledge(w), rest, last);
    CleanFirst(c, s, Leave(w, Written), [Acknowledge(w)] + rest, last);
    steps, end := [Leave(w, Written)] + ([Acknowledge(w)] + rest), last;
  }

  lemma FromConsumer(c: Codec, s: State, w: nat, m: Message, row: RowKey) returns (steps: seq<Step>, end: State)
    requires Faithful(c) && Inv(c, s) && Unlogged(c, s, m, row) && w in s.consumers && s.consumers[w].m == m
    ensures CleanRun(c, s, steps, end) && row in EverLogged(end) && |steps| <= 5
  {
    match s.consumers[w] {
      case Holding(_) => steps, end := FromHolding(c, s, w, m, row);
      case InHandler(_) => steps, end := InHandlerLogs(c, s, w, m, row);
      case Returned(_, _) => steps, end := FromReturned(c, s, w, m, row);
      case Decided(_, _) => steps, end := FromDecided(c, s, w, m, row);
    }
  }

  lemma FromTask(c: Codec, s: State, id: Uuid, row: RowKey) returns (steps: seq<Step>, end: State)
    requires Faithful(c) && Inv(c, s) && id in s.created && id in s.tasks
    requires Unlogged(c, s, MessageFor(c, id, s.created[id]), row)
    ensures CleanRun(c, s, steps, end) && row in EverLogged(end) && |steps| <= 5
  {
    var next := Apply(c, s, Publish(id));
    StepKeepsInv(c, s, Publish(id));
    var rest, last := FromReady(c, next, MessageFor(c, id, s.created[id]), row);
    CleanFirst(c, s, Publish(id), rest, last);
    steps, end := [Publish(id)] + rest, last;
  }

  /**
   No run reaches a dead end: wherever the failures of a run have left an event the queue has
   not given up, at most five clean steps log it, in which nothing fails, no consumer crashes
   and no record of a call under way is dropped.
   */
  lemma AlwaysRecoverable(c: Codec, before: seq<Step>, s: State, id: Uuid) returns (steps: seq<Step>, end: State)
    requires Faithful(c) && Run(c, START, before, s)
    requires id in s.created && id !in s.deadTasks
    ensures CleanRun(c, s, steps, end) && |steps| <= 5 && (id, s.created[id].time) in EverLogged(end)
    ensures Run(c, s, steps, end)
  {
    RunKeepsInv(c, START, before, s);
    var m := MessageFor(c, id, s.created[id]);
    var row := (id, s.created[id].time);
    assert c.parse(m.id) == Some(id);
    assert Kept(c, s, id);
    if row in EverLogged(s) {
      steps, end := [], s;
    } else if m in s.ready {
      steps, end := FromReady(c, s, m, row);
    } else if w :| w in s.consumers && s.consumers[w].m == m {
      steps, end := FromConsumer(c, s, w, m, row);
    } else {
      steps, end := FromTask(c, s, id, row);
    }
    CleanIsRun(c, s, steps, end);
  }

  // ---- no delivery without an end ----

  function HeldBy(s: State, m: Message): set<nat> {
    set w | w in s.consumers && s.consumers[w].m == m
  }

  /** How many copies of the message the broker has, waiting or unacked. */
  function Copies(s: State, m: Message): nat {
    s.ready[m] + |HeldBy(s, m)|
  }

  lemma SameCopies(s: State, t: State, m: Message)
    requires t.ready[m] == s.ready[m] && t.consumers.Keys == s.consumers.Keys
    requires forall w | w in s.consumers :: t.consumers[w].m == s.consumers[w].m
    ensures Copies(t, m) == Copies(s, m)
  {
    assert HeldBy(t, m) == HeldBy(s, m);
  }

  lemma DeliveredCopies(c: Codec, s: State, w: nat, m: Message)
    requires w !in s.consumers && m in s.ready
    ensures Copies(Apply(c, s, Deliver(w, m)), m) == Copies(s, m)
  {
    var t := Apply(c, s, Deliver(w, m));
    OneMoreHolds(s, t, w, m);
  }

  lemma OneMoreHolds(s: State, t: State, w: nat, m: Message)
    requires w !in s.consumers && m in s.ready
    requires t.ready == s.ready - multiset{m} && t.consumers == s.consumers[w := Holding(m)]
    ensures Copies(t, m) == Copies(s, m)
  {
    assert HeldBy(t, m) == HeldBy(s, m) + {w};
    assert w !in HeldBy(s, m);
  }

  lemma RequeuedCopies(c: Codec, s: State, w: nat, m: Message)
    requires w in s.consumers && s.consumers[w] == Decided(m, Requeue)
    ensures Copies(Apply(c, s, Acknowledge(w)), m) == Copies(s, m)
  {
    assert HeldBy(s, m) == HeldBy(Apply(c, s, Acknowledge(w)), m) + {w};
  }

  lemma AckedCopies(c: Codec, s: State, w: nat, m: Message)
    requires w in s.consumers && s.consumers[w] == Decided(m, Ack)
    ensures Copies(Apply(c, s, Acknowledge(w)), m) == Copies(s, m) - 1
  {
    assert HeldBy(s, m) == HeldBy(Apply(c, s, Acknowledge(w)), m) + {w};
  }

  /** The event has been logged, one copy of its message has been acked, and nothing was discarded. */
  ghost predicate AckedOnce(s: State, t: State, m: Message, row: RowKey) {
    row in EverLogged(t) && Copies(t, m) == Copies(s, m) - 1 && t.discarded == s.discarded && t.created == s.created
  }

  /** The message of a committed create. */
  ghost predicate EventMessage(c: Codec, s: State, m: Message, row: RowKey) {
    OfCreate(c, s, m) && Genuine(c, s, m) && RowOf(c, m) == Some(row) && m.id != ""
  }

  /** One clean step that changes neither the copies nor what is discarded, and what is left to do after it. */
  lemma Onward(c: Codec, s: State, step: Step, steps: seq<Step>, end: State, m: Message, row: RowKey)
    requires Enabled(c, s, step) && Clean(c, s, step) && CleanRun(c, Apply(c, s, step), steps, end)
    requires AckedOnce(Apply(c, s, step), end, m, row)
    requires var t := Apply(c, s, step);
             Copies(t, m) == Copies(s, m) && t.discarded == s.discarded && t.created == s.created
    ensures CleanRun(c, s, [step] + steps, end) && AckedOnce(s, end, m, row)
  {
    CleanFirst(c, s, step, steps, end);
  }

  lemma DecidedEnds(c: Codec, s: State, w: nat, m: Message, row: RowKey) returns (steps: seq<Step>, end: State)
    requires w in s.consumers && s.consumers[w] == Decided(m, Ack) && row in EverLogged(s)
    ensures CleanRun(c, s, steps, end) && AckedOnce(s, end, m, row) && |steps| == 1
  {
    end := Apply(c, s, Acknowledge(w));
    AckedCopies(c, s, w, m);
    assert CleanRun(c, end, [], end);
    CleanFirst(c, s, Acknowledge(w), [], end);
    steps := [Acknowledge(w)] + [];
  }

  lemma ReturnedEnds(c: Codec, s: State, w: nat, m: Message, row: RowKey) returns (steps: seq<Step>, end: State)
    requires w in s.consumers && s.consumers[w] == Returned(m, Ack) && row in EverLogged(s)
    ensures CleanRun(c, s, steps, end) && AckedOnce(s, end, m, row) && |steps| == 2
  {
    var t := Apply(c, s, Leave(w, Written));
    SameCopies(s, t, m);
    var rest, last := DecidedEnds(c, t, w, m, row);
    Onward(c, s, Leave(w, Written), rest, last, m, row);
    steps, end := [Leave(w, Written)] + rest, last;
  }

  lemma InHandlerEnds(c: Codec, s: State, w: nat, m: Message, row: RowKey) returns (steps: seq<Step>, end: State)
    requires w in s.consumers && s.consumers[w] == InHandler(m) && RowOf(c, m) == Some(row)
    ensures CleanRun(c, s, steps, end) && AckedOnce(s, end, m, row) && |steps| == 3
  {
    var t := Apply(c, s, Handle(w, Succeeds));
    SameCopies(s, t, m);
    var rest, last := ReturnedEnds(c, t, w, m, row);
    Onward(c, s, Handle(w, Succeeds), rest, last, m, row);
    steps, end := [Handle(w, Succeeds)] + rest, last;
  }

  /** A consumer that enters with the key free runs the recorder; it acks at once when the event is on record. */
  lemma HoldingEnds(c: Codec, s: State, w: nat, m: Message, row: RowKey) returns (steps: seq<Step>, end: State)
    requires w in s.consumers && s.consumers[w] == Holding(m) && RowOf(c, m) == Some(row) && m.id != ""
    requires c.key(m) in s.records ==> s.records[c.key(m)].Stored? && row in EverLogged(s)
    ensures CleanRun(c, s, steps, end) && AckedOnce(s, end, m, row)
    ensures |steps| == if c.key(m) in s.records then 2 else 4
  {
    var t := Apply(c, s, Enter(w, Up));
    SameCopies(s, t, m);
    var rest, last;
    if c.key(m) in s.records {
      rest, last := DecidedEnds(c, t, w, m, row);
    } else {
      rest, last := InHandlerEnds(c, t, w, m, row);
    }
    Onward(c, s, Enter(w, Up), rest, last, m, row);
    steps, end := [Enter(w, Up)] + rest, last;
  }

  /**
   A waiting message whose key is free is acked after five clean steps, the recorder having run;
   a repeat is acked after three, without it.
   */
  lemma WaitingEnds(c: Codec, s: State, m: Message, row: RowKey) returns (steps: seq<Step>, end: State)
    requires m in s.ready && RowOf(c, m) == Some(row) && m.id != ""
    requires c.key(m) in s.records ==> s.records[c.key(m)].Stored? && row in EverLogged(s)
    ensures CleanRun(c, s, steps, end) && AckedOnce(s, end, m, row)
    ensures |steps| == if c.key(m) in s.records then 3 else 5
  {
    var w := FreshNumber(s.consumers.Keys);
    assert w !in s.consumers;
    var t := Apply(c, s, Deliver(w, m));
    DeliveredCopies(c, s, w, m);
    var rest, last := HoldingEnds(c, t, w, m, row);
    Onward(c, s, Deliver(w, m), rest, last, m, row);
    steps, end := [Deliver(w, m)] + rest, last;
  }

  /** A consumer that has asked for the message again gives it back, and it is delivered anew. */
  lemma RequeuedEnds(c: Codec, s: State, w: nat, m: Message, row: RowKey) returns (steps: seq<Step>, end: State)
    requires w in s.consumers && s.consumers[w] == Decided(m, Requeue) && RowOf(c, m) == Some(row) && m.id != ""
    requires c.key(m) in s.records ==> s.records[c.key(m)].Stored? && row in EverLogged(s)
    ensures CleanRun(c, s, steps, end) && AckedOnce(s, end, m, row) && |steps| <= 6
  {
    var t := Apply(c, s, Acknowledge(w));
    RequeuedIsReady(c, s, w, m);
    RequeuedCopies(c, s, w, m);
    var rest, last := WaitingEnds(c, t, m, row);
    Onward(c, s, Acknowledge(w), rest, last, m, row);
    steps, end := [Acknowledge(w)] + rest, last;
  }

  lemma FailedEnds(c: Codec, s: State, w: nat, m: Message, row: RowKey) returns (steps: seq<Step>, end: State)
    requires w in s.consumers && s.consumers[w] == Returned(m, Requeue) && RowOf(c, m) == Some(row) && m.id != ""
    ensures CleanRun(c, s, steps, end) && AckedOnce(s, end, m, row) && |steps| <= 7
  {
    var t := Apply(c, s, Leave(w, Written));
    SameCopies(s, t, m);
    var rest, last := RequeuedEnds(c, t, w, m, row);
    Onward(c, s, Leave(w, Written), rest, last, m, row);
    steps, end := [Leave(w, Written)] + rest, last;
  }

  /** A consumer that is in the handler or back from it ends its delivery. */
  lemma AtWorkEnds(c: Codec, s: State, w: nat, m: Message, row: RowKey) returns (steps: seq<Step>, end: State)
    requires Faithful(c) && ConsumersSound(c, s) && EventMessage(c, s, m, row)
    requires w in s.consumers && s.consumers[w].m == m && (s.consumers[w].InHandler? || s.consumers[w].Returned?)
    ensures CleanRun(c, s, steps, end) && AckedOnce(s, end, m, row) && |steps| <= 7
  {
    if s.consumers[w].InHandler? {
      steps, end := InHandlerEnds(c, s, w, m, row);
    } else if s.consumers[w].verdict.Ack? {
      steps, end := ReturnedEnds(c, s, w, m, row);
    } else {
      assert s.consumers[w].verdict.Requeue?;
      steps, end := FailedEnds(c, s, w, m, row);
    }
  }

  /** With no running record in the way, every copy of the message comes to an end. */
  lemma CopyEnds(c: Codec, s: State, m: Message, row: RowKey) returns (steps: seq<Step>, end: State)
    requires Faithful(c) && ConsumersSound(c, s) && EventMessage(c, s, m, row) && InBroker(s, m)
    requires c.key(m) in s.records ==> s.records[c.key(m)].Stored? && row in EverLogged(s)
    ensures CleanRun(c, s, steps, end) && AckedOnce(s, end, m, row) && |steps| <= 7
  {
    if m in s.ready {
      steps, end := WaitingEnds(c, s, m, row);
    } else {
      var w :| w in s.consumers && s.consumers[w].m == m;
      match s.consumers[w] {
        case Holding(_) => steps, end := HoldingEnds(c, s, w, m, row);
        case InHandler(_) => steps, end := AtWorkEnds(c, s, w, m, row);
        case Returned(_, _) => steps, end := AtWorkEnds(c, s, w, m, row);
        case Decided(_, action) =>
          if action.Ack? {
            steps, end := DecidedEnds(c, s, w, m, row);
          } else {
            assert action.Requeue?;
            steps, end := RequeuedEnds(c, s, w, m, row);
          }
      }
    }
  }

  lemma ForgottenCopies(c: Codec, s: State, key: string, m: Message)
    requires key in s.records
    ensures Copies(Apply(c, s, Forget(key)), m) == Copies(s, m)
  {
    SameCopies(s, Apply(c, s, Forget(key)), m);
  }

  lemma StoredIsLogged(c: Codec, s: State, m: Message, row: RowKey)
    requires RecordsSound(c, s) && EventMessage(c, s, m, row) && c.key(m) in s.records && s.records[c.key(m)].Stored?
    ensures row in EverLogged(s)
  {}

  /**
   Every delivery of an event ends: from wherever a run has left a message of a committed create
   in the broker, a few clean steps leave the event logged and one copy of the message acked.
   */
  lemma EveryDeliveryEnds(c: Codec, s: State, m: Message, row: RowKey) returns (steps: seq<Step>, end: State)
    requires Faithful(c) && Inv(c, s) && EventMessage(c, s, m, row) && InBroker(s, m)
    ensures CleanRun(c, s, steps, end) && AckedOnce(s, end, m, row) && |steps| <= 8
  {
    var key := c.key(m);
    if key !in s.records {
      steps, end := CopyEnds(c, s, m, row);
    } else if s.records[key].Stored? {
      StoredIsLogged(c, s, m, row);
      steps, end := CopyEnds(c, s, m, row);
    } else if AtWork(c, s, s.records[key].holder, key) {
      var w := s.records[key].holder;
      assert Genuine(c, s, s.consumers[w].m);
      SameKeySameMessage(c, s, m, s.consumers[w].m);
      steps, end := AtWorkEnds(c, s, w, m, row);
    } else {
      var t := Apply(c, s, Forget(key));
      ForgetSound(c, s, Forget(key));
      ForgottenCopies(c, s, key, m);
      SameBroker(s, t, m);
      var rest, last := CopyEnds(c, t, m, row);
      Onward(c, s, Forget(key), rest, last, m, row);
      steps, end := [Forget(key)] + rest, last;
    }
  }

  /** The broker has no copy of the message exactly when it has none waiting and none unacked. */
  lemma CopiesIff(s: State, m: Message)
    ensures Copies(s, m) > 0 <==> InBroker(s, m)
  {
    if w :| w in s.consumers && s.consumers[w].m == m {
      assert w in HeldBy(s, m);
    }
    if |HeldBy(s, m)| > 0 {
      var w :| w in HeldBy(s, m);
    }
  }

  lemma {:induction false} CleanKeepsInv(c: Codec, s: State, steps: seq<Step>, end: State)
    requires Faithful(c) && Inv(c, s) && CleanRun(c, s, steps, end)
    ensures Inv(c, end)
    decreases |steps|
  {
    if steps == [] {
    } else {
      StepKeepsInv(c, s, steps[0]);
      CleanKeepsInv(c, Apply(c, s, steps[0]), steps[1..], end);
    }
  }

  lemma FirstOfBoth(a: seq<Step>, b: seq<Step>)
    requires a != []
    ensures a + b == [a[0]] + (a[1..] + b)
  {}

  lemma {:induction false} CleanJoin(c: Codec, s: State, a: seq<Step>, mid: State, b: seq<Step>, end: State)
    requires CleanRun(c, s, a, mid) && CleanRun(c, mid, b, end)
    ensures CleanRun(c, s, a + b, end)
    decreases |a|
  {
    if a == [] {
      assert a + b == b;
    } else {
      CleanJoin(c, Apply(c, s, a[0]), a[1..], mid, b, end);
      FirstOfBoth(a, b);
      CleanFirst(c, s, a[0], a[1..] + b, end);
    }
  }

  lemma {:induction false} AllDeliveriesEnd(c: Codec, s: State, m: Message, row: RowKey)
    returns (steps: seq<Step>, end: State)
    requires Faithful(c) && Inv(c, s) && EventMessage(c, s, m, row) && InBroker(s, m)
    ensures CleanRun(c, s, steps, end) && |steps| <= 8 * Copies(s, m)
    ensures row in EverLogged(end) && !InBroker(end, m) && end.discarded == s.discarded && Inv(c, end)
    decreases Copies(s, m)
  {
    CopiesIff(s, m);
    var first, mid := EveryDeliveryEnds(c, s, m, row);
    CleanKeepsInv(c, s, first, mid);
    CopiesIff(mid, m);
    if Copies(mid, m) == 0 {
      steps, end := first, mid;
    } else {
      var rest, last := AllDeliveriesEnd(c, mid, m, row);
      CleanJoin(c, s, first, mid, rest, last);
      steps, end := first + rest, last;
    }
  }

  /**
   Wherever the failures of a run have left an event the queue has not given up, clean steps
   bring it to its end: it is logged, and every copy of its message is acked, none discarded.
   */
  lemma EventsComeToRest(c: Codec, before: seq<Step>, s: State, id: Uuid) returns (steps: seq<Step>, end: State)
    requires Faithful(c) && Run(c, START, before, s)
    requires id in s.created && id !in s.deadTasks
    ensures CleanRun(c, s, steps, end) && end.discarded == s.discarded
    ensures (id, s.created[id].time) in EverLogged(end) && !InBroker(end, MessageFor(c, id, s.created[id]))
    ensures |steps| <= 8 * Copies(s, MessageFor(c, id, s.created[id])) + 9
  {
    RunKeepsInv(c, START, before, s);
    var m, row := MessageFor(c, id, s.created[id]), (id, s.created[id].time);
    assert c.parse(m.id) == Some(id) && m.id != "";
    assert Kept(c, s, id);
    CopiesIff(s, m);
    if InBroker(s, m) {
      steps, end := AllDeliveriesEnd(c, s, m, row);
    } else if row in EverLogged(s) {
      steps, end := [], s;
    } else {
      steps, end := PublishedEnds(c, s, id, m, row);
    }
  }

  lemma PublishedEnds(c: Codec, s: State, id: Uuid, m: Message, row: RowKey) returns (steps: seq<Step>, end: State)
    requires Faithful(c) && Inv(c, s) && EventMessage(c, s, m, row)
    requires id in s.created && id in s.tasks && m == MessageFor(c, id, s.created[id]) && Copies(s, m) == 0
    ensures CleanRun(c, s, steps, end) && |steps| <= 9
    ensures row in EverLogged(end) && !InBroker(end, m) && end.discarded == s.discarded
  {
    var t := Apply(c, s, Publish(id));
    StepKeepsInv(c, s, Publish(id));
    PublishedCopies(c, s, id, m);
    var rest, last := AllDeliveriesEnd(c, t, m, row);
    CleanFirst(c, s, Publish(id), rest, last);
    steps, end := [Publish(id)] + rest, last;
  }

  lemma PublishedCopies(c: Codec, s: State, id: Uuid, m: Message)
    requires id in s.created && id in s.tasks && m == MessageFor(c, id, s.created[id])
    ensures var t := Apply(c, s, Publish(id));
            Copies(t, m) == Copies(s, m) + 1 && InBroker(t, m) && t.discarded == s.discarded && t.created == s.created
  {
    assert HeldBy(Apply(c, s, Publish(id)), m) == HeldBy(s, m);
  }

  // ---- the codec in use ----

  function KeyIn(group: string): Message -> string {
    (m: Message) => BrokerKey(group, m.source, m.id)
  }

  /** Ids as UUID text, records under the broker key of the consumer group. */
  function InUse(group: string, source: string): Codec {
    Codec(ParseUuid, UuidText, KeyIn(group), source)
  }

  /** The codec in use is faithful, so all of the above holds of it. */
  lemma InUseIsFaithful(group: string, source: string)
    ensures Faithful(InUse(group, source))
  {
    forall id: Uuid
      ensures ParseUuid(UuidText(id)) == Some(id)
    {
      UuidRoundTrip(id);
    }
    forall m1: Message, m2: Message | KeyIn(group)(m1) == KeyIn(group)(m2)
      ensures m1.source == m2.source && m1.id == m2.id
    {
      BrokerKeysShared(group, m1.source, m1.id, group, m2.source, m2.id);
    }
  }
}
