/**
 The HTTP middleware that runs a POST once per idempotency key: what it stores and answers,
 and what holds over every interleaving of the requests it serves.
 */
module IdempotentHttp {
  import opened Outcomes
  import opened Dedup

  /** What a handler returns; NoContent is a nil response. */
  datatype Live =
    | NoContent
    | Failure(status: nat)
    | SelfWritten
    | Unencodable
    | Encoded(code: Option<nat>, contentType: string, body: seq<bv8>)

  datatype Response = Response(status: nat, contentType: string, body: seq<bv8>)

  /** What Do says when it fails after the handler ran. */
  datatype LateError = LeaseLost | StoreDown | OtherError

  datatype Reply =
    | FromHandler(live: Live)
    | FromStore(response: Response)
    | Conflict
    | ServiceUnavailable
    | InternalError

  /** The response stored for a handler's return; an error, a 5xx and a self-written one are not. */
  function Recorded(live: Live): Option<Response> {
    match live
    case NoContent => Some(Response(204, "", []))
    case Failure(_) => None
    case SelfWritten => None
    case Unencodable => None
    case Encoded(status, contentType, body) =>
      var code := if status.Some? then status.value else 200;
      if code >= 500 then None else Some(Response(code, contentType, body))
  }

  /** What a client receives when a return is encoded straight away. */
  datatype Wire = Bytes(response: Response) | Error(status: nat) | Own | EncodeError

  function LiveWire(live: Live): Wire {
    match live
    case NoContent => Bytes(Response(204, "", []))
    case Failure(status) => Error(status)
    case SelfWritten => Own
    case Unencodable => EncodeError
    case Encoded(status, contentType, body) =>
      Bytes(Response(if status.Some? then status.value else 200, contentType, body))
  }

  /** Stored is exactly what the client received, when that is a response below 500. */
  lemma RecordedIsWire(live: Live)
    ensures Recorded(live) == match LiveWire(live)
                              case Bytes(response) => if response.status < 500 then Some(response) else None
                              case _ => None
  {}

  function ReplyWire(reply: Reply): Wire {
    match reply
    case FromHandler(live) => LiveWire(live)
    case FromStore(response) => Bytes(response)
    case Conflict => Error(409)
    case ServiceUnavailable => Error(503)
    case InternalError => Error(500)
  }

  /** Before the handler: pass the request through, run it under the key, or answer at once. */
  datatype Entry = PassThrough | RunHandler | Answer(reply: Reply)

  function EntryOf(claim: Claim<Response>): Entry {
    match claim
    case Granted => RunHandler
    case InProgress => Answer(Conflict)
    case Repeat(response) => Answer(FromStore(response))
    case Unavailable => Answer(ServiceUnavailable)
    case Failed => Answer(InternalError)
  }

  function Refusal(late: LateError): Reply {
    match late
    case LeaseLost => Conflict
    case StoreDown => ServiceUnavailable
    case OtherError => InternalError
  }

  /** After the handler: its own response when Do failed, and the stored one when it did not. */
  function ExitReply(live: Live, commit: Commit, late: LateError): Reply {
    var recorded := Recorded(live);
    if recorded.Some? && commit.Written? then FromStore(recorded.value)
    else if !live.NoContent? then FromHandler(live)
    else Refusal(late)
  }

  /** The client is answered at once, and this is what it receives. */
  predicate Answers(entry: Entry, wire: Wire) {
    entry.Answer? && ReplyWire(entry.reply) == wire
  }

  class Middleware {
    var records: Records<Response>

    constructor ()
      ensures records == map[]
    {
      records := map[];
    }

    /** The middleware up to the handler. */
    method Enter(method_: string, header: string, key: string, request: nat, store: Health) returns (entry: Entry)
      modifies this
      ensures method_ != "POST" || header == "" ==> entry == PassThrough && records == old(records)
      ensures method_ == "POST" && header != "" ==>
                entry == EntryOf(ClaimOf(old(records), key, store)) && records == Begun(old(records), key, request, store)
      ensures method_ == "POST" && header != "" ==>
                match store
                case Down => Answers(entry, Error(503)) && records == old(records)
                case Faulty => Answers(entry, Error(500)) && records == old(records)
                case Up =>
                  if key !in old(records) then entry == RunHandler && records == old(records)[key := Running(request)]
                  else
                    && records == old(records)
                    && match old(records)[key]
                       case Running(_) => Answers(entry, Error(409))
                       case Stored(response) => Answers(entry, Bytes(response))
    {
      if method_ != "POST" || header == "" {
        return PassThrough;
      }
      if store.Down? {
        return Answer(ServiceUnavailable);
      }
      if store.Faulty? {
        return Answer(InternalError);
      }
      if key in records {
        if records[key].Running? {
          return Answer(Conflict);
        }
        return Answer(FromStore(records[key].value));
      }
      records := records[key := Running(request)];
      return RunHandler;
    }

    /** The middleware from the handler's return on. */
    method Leave(key: string, live: Live, commit: Commit, late: LateError) returns (reply: Reply)
      modifies this
      ensures reply == ExitReply(live, commit, late)
      ensures records == Finished(old(records), key, Recorded(live), commit)
      ensures commit.LostBefore? ==> records == old(records)
      ensures !commit.LostBefore? ==>
                match live
                case NoContent => records == old(records)[key := Stored(Response(204, "", []))]
                case Encoded(code, contentType, body) =>
                  var status := if code.Some? then code.value else 200;
                  if status < 500 then records == old(records)[key := Stored(Response(status, contentType, body))]
                  else records == old(records) - {key}
                case _ => records == old(records) - {key}
      ensures match live
              case NoContent =>
                ReplyWire(reply) == (if commit.Written? then Bytes(Response(204, "", []))
                                     else match late
                                       case LeaseLost => Error(409)
                                       case StoreDown => Error(503)
                                       case OtherError => Error(500))
              case Failure(status) => ReplyWire(reply) == Error(status)
              case SelfWritten => ReplyWire(reply) == Own
              case Unencodable => ReplyWire(reply) == EncodeError
              case Encoded(code, contentType, body) =>
                ReplyWire(reply) == Bytes(Response(if code.Some? then code.value else 200, contentType, body))
    {
      var stored := Recorded(live);
      var failed := stored.None? || !commit.Written?;
      if !commit.LostBefore? {
        records := if stored.Some? then records[key := Stored(stored.value)] else records - {key};
      }
      if !live.NoContent? && failed {
        return FromHandler(live);
      }
      if failed && late.LeaseLost? {
        return Conflict;
      }
      if failed && late.StoreDown? {
        return ServiceUnavailable;
      }
      if failed {
        return InternalError;
      }
      return FromStore(stored.value);
    }
  }

  // ---- every interleaving ----

  datatype Phase = InHandler(key: string) | Answered(key: string, reply: Reply) | Lost(key: string)

  /**
   The records, every request so far, the store each of them met on arrival, and the keys of
   the handler runs in order.
   */
  datatype State = State(records: Records<Response>, requests: map<nat, Phase>, met: map<nat, Health>, runs: seq<string>)

  const START := State(map[], map[], map[], [])

  datatype Step =
    | Arrive(request: nat, key: string, store: Health)
    | Return(request: nat, live: Live, commit: Commit, late: LateError)
    | Crash(request: nat)
    | Expire(key: string)

  predicate RunningIn(s: State, request: nat) {
    request in s.requests && s.requests[request].InHandler?
  }

  /** A running record is freed only once the request that holds it has ended. */
  predicate Enabled(s: State, step: Step) {
    match step
    case Arrive(request, _, _) => request !in s.requests
    case Return(request, _, _, _) => RunningIn(s, request)
    case Crash(request) => RunningIn(s, request)
    case Expire(key) => key in s.records && s.records[key].Running? && !RunningIn(s, s.records[key].holder)
  }

  function Apply(s: State, step: Step): State
    requires Enabled(s, step)
  {
    match step
    case Arrive(request, key, store) =>
      var met := s.met[request := store];
      (match EntryOf(ClaimOf(s.records, key, store))
       case RunHandler =>
         State(Begun(s.records, key, request, store), s.requests[request := InHandler(key)], met, s.runs + [key])
       case Answer(reply) => s.(requests := s.requests[request := Answered(key, reply)], met := met)
       case PassThrough => s)
    case Return(request, live, commit, late) =>
      var key := s.requests[request].key;
      s.(records := Finished(s.records, key, Recorded(live), commit),
         requests := s.requests[request := Answered(key, ExitReply(live, commit, late))])
    case Crash(request) => s.(requests := s.requests[request := Lost(s.requests[request].key)])
    case Expire(key) => s.(records := s.records - {key})
  }

  ghost predicate Run(s: State, steps: seq<Step>, end: State)
    decreases |steps|
  {
    if steps == [] then end == s
    else Enabled(s, steps[0]) && Run(Apply(s, steps[0]), steps[1..], end)
  }

  /** A request in its handler holds its key; a stored reply is the record of its key still. */
  ghost predicate Inv(s: State) {
    && (forall q | RunningIn(s, q) :: s.requests[q].key in s.records && s.records[s.requests[q].key] == Running(q))
    && (forall q | q in s.requests && s.requests[q].Answered? && s.requests[q].reply.FromStore? ::
          s.requests[q].key in s.records && s.records[s.requests[q].key] == Stored(s.requests[q].reply.response))
  }

  lemma StepKeepsInv(s: State, step: Step)
    requires Inv(s) && Enabled(s, step)
    ensures Inv(Apply(s, step))
  {}

  lemma {:induction false} RunKeepsInv(s: State, steps: seq<Step>, end: State)
    requires Inv(s) && Run(s, steps, end)
    ensures Inv(end)
    decreases |steps|
  {
    if steps == [] {
    } else {
      StepKeepsInv(s, steps[0]);
      RunKeepsInv(Apply(s, steps[0]), steps[1..], end);
    }
  }

  /**
   In every run from the start: no key has two requests in their handlers at once, and all
   the requests of a key that got a stored response got the identical one.
   */
  lemma OneAtATimeAndOneAnswer(steps: seq<Step>, end: State, q1: nat, q2: nat)
    requires Run(START, steps, end) && q1 in end.requests && q2 in end.requests
    requires end.requests[q1].key == end.requests[q2].key
    ensures RunningIn(end, q1) && RunningIn(end, q2) ==> q1 == q2
    ensures end.requests[q1].Answered? && end.requests[q1].reply.FromStore?
            && end.requests[q2].Answered? && end.requests[q2].reply.FromStore?
            ==> end.requests[q1].reply == end.requests[q2].reply
  {
    RunKeepsInv(START, steps, end);
  }

  function RunsOf(runs: seq<string>, key: string): nat {
    if runs == [] then 0 else RunsOf(runs[..|runs| - 1], key) + (if runs[|runs| - 1] == key then 1 else 0)
  }

  /**
   Every request with the key that arrived in between is answered: with the response if it met
   a working store, with 503 if it met one that was down, and with 500 if it met a faulty one.
   */
  ghost predicate AnswersOnly(before: State, after: State, key: string, response: Response) {
    forall q | q in after.requests && q !in before.requests && after.requests[q].key == key ::
      && q in after.met && after.requests[q].Answered?
      && ReplyWire(after.requests[q].reply) == match after.met[q]
                                               case Up => Bytes(response)
                                               case Down => Error(503)
                                               case Faulty => Error(500)
  }

  lemma StoredStays(s: State, step: Step, key: string, response: Response)
    requires Inv(s) && Enabled(s, step)
    requires key in s.records && s.records[key] == Stored(response)
    ensures var t := Apply(s, step);
            && key in t.records && t.records[key] == Stored(response)
            && RunsOf(t.runs, key) == RunsOf(s.runs, key)
            && s.requests.Keys <= t.requests.Keys && (forall q | q in s.requests :: t.requests[q].key == s.requests[q].key)
            && (forall q | q in s.requests && q in s.met :: q in t.met && t.met[q] == s.met[q])
            && AnswersOnly(s, t, key, response)
  {
    var t := Apply(s, step);
    assert t.runs == s.runs || t.runs[..|t.runs| - 1] == s.runs;
  }

  /**
   Once a response is stored no run of the handler for its key follows, however the steps go
   on, and every later request with the key that meets a working store gets that response.
   */
  lemma {:induction false} StoredIsFinal(s: State, steps: seq<Step>, end: State, key: string, response: Response)
    requires Inv(s) && Run(s, steps, end)
    requires key in s.records && s.records[key] == Stored(response)
    ensures key in end.records && end.records[key] == Stored(response)
    ensures RunsOf(end.runs, key) == RunsOf(s.runs, key)
    ensures s.requests.Keys <= end.requests.Keys && forall q | q in s.requests :: end.requests[q].key == s.requests[q].key
    ensures forall q | q in s.requests && q in s.met :: q in end.met && end.met[q] == s.met[q]
    ensures AnswersOnly(s, end, key, response)
    decreases |steps|
  {
    if steps == [] {
    } else {
      var t := Apply(s, steps[0]);
      StoredStays(s, steps[0], key, response);
      StepKeepsInv(s, steps[0]);
      StoredIsFinal(t, steps[1..], end, key, response);
      AnsweredStays(t, steps[1..], end);
    }
  }

  // ---- one run for each time the key was free ----

  /** The step takes the record of the key away. */
  predicate Frees(s: State, step: Step, key: string)
    requires Enabled(s, step)
  {
    key in s.records && key !in Apply(s, step).records
  }

  /** A key is freed exactly by the return of a response that is not stored, or once its holder is gone. */
  lemma FreedIff(s: State, step: Step, key: string)
    requires Inv(s) && Enabled(s, step)
    ensures Frees(s, step, key) <==>
              match step
              case Return(q, live, commit, _) =>
                s.requests[q].key == key && Recorded(live).None? && !commit.LostBefore?
              case Expire(k) => k == key
              case _ => false
  {}

  ghost function FreesIn(s: State, steps: seq<Step>, end: State, key: string): nat
    requires Run(s, steps, end)
    decreases |steps|
  {
    if steps == [] then 0
    else (if Frees(s, steps[0], key) then 1 else 0) + FreesIn(Apply(s, steps[0]), steps[1..], end, key)
  }

  function Held(s: State, key: string): nat {
    if key in s.records then 1 else 0
  }

  lemma StepBalance(s: State, step: Step, key: string)
    requires Inv(s) && Enabled(s, step)
    ensures var t := Apply(s, step);
            RunsOf(t.runs, key) + Held(s, key)
            == RunsOf(s.runs, key) + Held(t, key) + (if Frees(s, step, key) then 1 else 0)
  {
    var t := Apply(s, step);
    assert t.runs == s.runs || t.runs[..|t.runs| - 1] == s.runs;
  }

  lemma {:induction false} RunsBalance(s: State, steps: seq<Step>, end: State, key: string)
    requires Inv(s) && Run(s, steps, end)
    ensures RunsOf(end.runs, key) + Held(s, key) == RunsOf(s.runs, key) + Held(end, key) + FreesIn(s, steps, end, key)
    decreases |steps|
  {
    if steps == [] {
    } else {
      StepBalance(s, steps[0], key);
      StepKeepsInv(s, steps[0]);
      RunsBalance(Apply(s, steps[0]), steps[1..], end, key);
    }
  }

  /**
   From the start, the handler has run for a key exactly once for each time the key was
   freed, and once more if the key has a record now: a second run needs a first that left
   nothing stored.
   */
  lemma RunsAreFreesAndRecord(steps: seq<Step>, end: State, key: string)
    requires Run(START, steps, end)
    ensures RunsOf(end.runs, key) == FreesIn(START, steps, end, key) + Held(end, key)
  {
    RunsBalance(START, steps, end, key);
  }

  /** An answer given is never taken back. */
  lemma {:induction false} AnsweredStays(s: State, steps: seq<Step>, end: State)
    requires Run(s, steps, end)
    ensures forall q | q in s.requests && s.requests[q].Answered? :: q in end.requests && end.requests[q] == s.requests[q]
    decreases |steps|
  {
    if steps == [] {
    } else {
      AnsweredStays(Apply(s, steps[0]), steps[1..], end);
    }
  }

  /** A request that finds its key running is refused, and no handler runs. */
  lemma RunningRefuses(s: State, request: nat, key: string)
    requires request !in s.requests && key in s.records && s.records[key].Running?
    ensures var t := Apply(s, Arrive(request, key, Up));
            && t.requests[request] == Answered(key, Conflict) && ReplyWire(t.requests[request].reply) == Error(409)
            && t.runs == s.runs && t.records == s.records
  {}

  /** A response that is not stored frees its key: the next request with it runs the handler. */
  lemma NotStoredRunsAgain(s: State, q: nat, live: Live, commit: Commit, late: LateError, retry: nat)
    requires RunningIn(s, q) && Recorded(live).None? && !commit.LostBefore? && retry !in s.requests
    ensures var key := s.requests[q].key; var t := Apply(s, Return(q, live, commit, late));
            && ReplyWire(t.requests[q].reply) == LiveWire(live)
            && Enabled(t, Arrive(retry, key, Up))
            && var u := Apply(t, Arrive(retry, key, Up));
               u.requests[retry] == InHandler(key) && RunsOf(u.runs, key) == RunsOf(s.runs, key) + 1
  {
    var key := s.requests[q].key;
    var u := Apply(Apply(s, Return(q, live, commit, late)), Arrive(retry, key, Up));
    assert u.runs[..|u.runs| - 1] == s.runs;
  }

  /**
   The request that ran the handler receives what the handler returned, byte for byte, whether
   it is stored or not: unless the return is nil and the store failed late, and only then.
   */
  lemma OwnResponseIff(live: Live, commit: Commit, late: LateError)
    ensures ReplyWire(ExitReply(live, commit, late)) == LiveWire(live) <==> !(live.NoContent? && !commit.Written?)
  {}
}
