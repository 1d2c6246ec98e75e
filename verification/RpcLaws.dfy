/** What every run of the RPC server keeps. */
module RpcLaws {
  import opened Wrappers
  import opened Text
  import opened Json
  import opened Sse
  import opened Rpc

  /** A line, with what the Control API would answer and the next fresh id; or the end of a subscription. */
  datatype Step = Line(line: string, api: ApiOutcome, newId: string) | End(id: string)

  function Take(parse: JsonParser, s: Server, step: Step): (Server, seq<Response>) {
    match step
    case Line(line, api, newId) => Handle(parse, s, line, api, newId)
    case End(id) => (Ended(s, id), [])
  }

  function Run(parse: JsonParser, s: Server, steps: seq<Step>): (Server, seq<Response>)
    decreases |steps|
  {
    if steps == [] then (s, [])
    else
      var (next, replies) := Take(parse, s, steps[0]);
      var (end, more) := Run(parse, next, steps[1..]);
      (end, replies + more)
  }

  // Replies

  /** The request a line holds. */
  function RequestOf(parse: JsonParser, line: string): Option<Value> {
    if ByteLength(line) > MAX_LINE then None
    else
      var v :- parse(line);
      if IsRequest(v) then Some(v) else None
  }

  predicate IsNotification(request: Value) {
    Get(request, "id").Undefined?
  }

  /** The id a line is answered under, if it is answered. */
  function OwedId(parse: JsonParser, line: string): Option<Value> {
    if ByteLength(line) > MAX_LINE || parse(line).None? then Some(Null)
    else
      var v := parse(line).value;
      if !IsRequest(v) then Some(RequestId(v))
      else if IsNotification(v) then None
      else Some(Get(v, "id"))
  }

  /** Sections 4.1 and 5 of JSON-RPC 2.0: what may come back for a line. */
  predicate Answers(parse: JsonParser, line: string, replies: seq<Response>) {
    match OwedId(parse, line)
    case None => replies == []
    case Some(id) =>
      && |replies| == 1 && replies[0].id == id
      && (RequestOf(parse, line).None? ==>
            replies[0] == Failure(id, if ByteLength(line) > MAX_LINE || parse(line).None? then PARSE_ERROR
                                  else INVALID_REQUEST))
  }

  function OwedIds(parse: JsonParser, steps: seq<Step>): seq<Value> {
    if steps == [] then []
    else
      (if steps[0].End? || OwedId(parse, steps[0].line).None? then [] else [OwedId(parse, steps[0].line).value])
      + OwedIds(parse, steps[1..])
  }

  function Ids(replies: seq<Response>): (r: seq<Value>)
    ensures |r| == |replies| && forall i :: 0 <= i < |r| ==> r[i] == replies[i].id
  {
    seq(|replies|, i requires 0 <= i < |replies| => replies[i].id)
  }

  lemma EachLineIsAnswered(parse: JsonParser, s: Server, line: string, api: ApiOutcome, newId: string)
    ensures Answers(parse, line, Handle(parse, s, line, api, newId).1)
  {
  }

  /** Over a run, one reply for every line that is not a notification, under its id, in order. */
  lemma {:induction false} RunsAnswerEachLine(parse: JsonParser, s: Server, steps: seq<Step>)
    ensures Ids(Run(parse, s, steps).1) == OwedIds(parse, steps)
    decreases |steps|
  {
    if steps != [] {
      var (next, replies) := Take(parse, s, steps[0]);
      if steps[0].Line? {
        EachLineIsAnswered(parse, s, steps[0].line, steps[0].api, steps[0].newId);
      }
      RunsAnswerEachLine(parse, next, steps[1..]);
      var more := Run(parse, next, steps[1..]).1;
      assert Ids(replies + more) == Ids(replies) + Ids(more);
    }
  }

  // Subscriptions

  function Gone(s: Server): set<string> {
    s.aborted + s.ended
  }

  function Known(s: Server): set<string> {
    s.live + s.aborted + s.ended
  }

  /** `randomUUID` never repeats an id within the run. */
  ghost predicate FreshIds(parse: JsonParser, s: Server, steps: seq<Step>)
    decreases |steps|
  {
    steps != [] ==>
      && (steps[0].Line? ==> steps[0].newId !in Known(s))
      && FreshIds(parse, Take(parse, s, steps[0]).0, steps[1..])
  }

  /** What one step may do to the subscriptions. */
  ghost predicate MayBecome(s: Server, t: Server) {
    && Consistent(Known(t), t)
    && Known(s) <= Known(t)
    && s.aborted <= t.aborted && s.ended <= t.ended
    && (s.closed ==> t.closed && Known(t) == Known(s))
  }

  lemma MayStay(s: Server)
    requires Consistent(Known(s), s)
    ensures MayBecome(s, s)
  {
  }

  lemma MayOpen(s: Server, newId: string)
    requires Consistent(Known(s), s) && newId !in Known(s) && |s.live| < MAX_SUBSCRIPTIONS && !s.closed
    ensures MayBecome(s, Opened(s, newId))
  {
    OpeningKeeps(Known(s), s, newId);
    assert Known(Opened(s, newId)) == Known(s) + {newId};
  }

  lemma MayDrop(s: Server, id: string)
    requires Consistent(Known(s), s)
    ensures MayBecome(s, Dropped(s, id))
  {
    EndingKeeps(Known(s), s, id);
    assert Known(Dropped(s, id)) == Known(s);
  }

  lemma MayEnd(s: Server, id: string)
    requires Consistent(Known(s), s)
    ensures MayBecome(s, Ended(s, id))
  {
    EndingKeeps(Known(s), s, id);
    assert Known(Ended(s, id)) == Known(s);
  }

  lemma MayClose(s: Server)
    requires Consistent(Known(s), s)
    ensures MayBecome(s, Closed(s))
  {
    ClosingKeeps(Known(s), s);
    assert Known(Closed(s)) == Known(s);
  }

  /** All that a request can do to the state. */
  lemma ActingMay(s: Server, kind: Method, params: Value, api: ApiOutcome, newId: string)
    requires Consistent(Known(s), s) && newId !in Known(s) && !s.closed
    requires kind.Unsubscribe? ==> Required(Get(params, "subscriptionId"), 500)
    ensures MayBecome(s, Act(s, kind, params, api, newId).0)
  {
    MayStay(s);
    match kind
    case Subscribe => if |s.live| < MAX_SUBSCRIPTIONS { MayOpen(s, newId); }
    case Unsubscribe => MayDrop(s, RequiredText(Get(params, "subscriptionId"), 500).value);
    case Shutdown => MayClose(s);
    case _ =>
  }

  lemma ServingMay(s: Server, name: string, params: Value, api: ApiOutcome, newId: string)
    requires Consistent(Known(s), s) && newId !in Known(s)
    ensures MayBecome(s, Serve(s, name, params, api, newId).0)
  {
    MayStay(s);
    if s.closed {
      ClosedStays(s, name, params, api, newId);
    } else if Objection(name, params).None? {
      ActingMay(s, MethodOf(name), params, api, newId);
    }
  }

  lemma ClosedStays(s: Server, name: string, params: Value, api: ApiOutcome, newId: string)
    requires s.closed
    ensures Serve(s, name, params, api, newId).0 == s
  {
    if name == "shutdown" {
      ShutdownIsAMethod();
    }
  }

  lemma ShutdownIsAMethod()
    ensures MethodOf("shutdown") == Shutdown
  {
    assert "shutdown"[0] == 's' && "shutdown"[1] == 'h' && "initialize"[0] == 'i';
    assert "sessions.subscribe"[1] == 'e' && "sessions.unsubscribe"[1] == 'e';
  }

  lemma StepsMay(parse: JsonParser, s: Server, step: Step)
    requires Consistent(Known(s), s) && (step.Line? ==> step.newId !in Known(s))
    ensures MayBecome(s, Take(parse, s, step).0)
  {
    MayStay(s);
    match step
    case End(id) => MayEnd(s, id);
    case Line(line, api, newId) =>
      var request := RequestOf(parse, line);
      if request.Some? {
        ServingMay(s, Get(request.value, "method").s, Get(request.value, "params"), api, newId);
      }
  }

  lemma MayBecomeChains(s: Server, t: Server, u: Server)
    requires MayBecome(s, t) && MayBecome(t, u)
    ensures MayBecome(s, u)
  {
  }

  /**
   Over every run at most 100 subscriptions are live, each id goes from live to gone and never back,
   and none that is gone changes how it went.
   */
  lemma {:induction false} RunsKeepSubscriptions(parse: JsonParser, s: Server, steps: seq<Step>)
    requires Consistent(Known(s), s) && FreshIds(parse, s, steps)
    ensures var t := Run(parse, s, steps).0;
            && MayBecome(s, t) && |t.live| <= MAX_SUBSCRIPTIONS
            && (forall id :: id in Gone(s) ==> id in Gone(t) && id !in t.live)
            && (forall id :: id in s.live ==> id in t.live || id in Gone(t))
    decreases |steps|
  {
    if steps == [] {
      MayStay(s);
    } else {
      var next := Take(parse, s, steps[0]).0;
      StepsMay(parse, s, steps[0]);
      RunsKeepSubscriptions(parse, next, steps[1..]);
      MayBecomeChains(s, next, Run(parse, next, steps[1..]).0);
    }
  }

  lemma {:induction false} RunsChain(parse: JsonParser, s: Server, a: seq<Step>, b: seq<Step>)
    ensures Run(parse, s, a + b).0 == Run(parse, Run(parse, s, a).0, b).0
    ensures FreshIds(parse, s, a + b) ==> FreshIds(parse, s, a) && FreshIds(parse, Run(parse, s, a).0, b)
    decreases |a|
  {
    if a == [] {
      assert a + b == b;
    } else {
      HeadAndRest(a, b);
      assert ([a[0]] + (a[1..] + b))[1..] == a[1..] + b;
      RunsChain(parse, Take(parse, s, a[0]).0, a[1..], b);
    }
  }

  /** A line that shuts the server down: a request of that name whose parameters are an object, if any. */
  predicate ShutsDown(parse: JsonParser, line: string) {
    var request := RequestOf(parse, line);
    && request.Some? && Get(request.value, "method") == Str("shutdown")
    && (Get(request.value, "params").Undefined? || Get(request.value, "params").Obj?)
  }

  lemma ShutdownCloses(parse: JsonParser, s: Server, line: string, api: ApiOutcome, newId: string)
    requires ShutsDown(parse, line)
    ensures Handle(parse, s, line, api, newId).0 == Closed(s)
  {
    ShutdownIsAMethod();
    assert ParamsOk("shutdown", Get(RequestOf(parse, line).value, "params")) by {
      ShutdownTakesNothing(Get(RequestOf(parse, line).value, "params"));
    }
  }

  lemma ShutdownTakesNothing(params: Value)
    ensures ParamsOk("shutdown", params)
  {
    assert "shutdown"[0] == 's' && "shutdown"[1] == 'h';
    assert "sessions.create"[1] == 'e' && "sessions.get"[1] == 'e' && "sessions.cancel"[1] == 'e'
        && "sessions.pause"[1] == 'e';
    assert "sessions.resume"[1] == 'e' && "sessions.close"[1] == 'e' && "sessions.compact"[1] == 'e';
    assert "sessions.prompt"[1] == 'e' && "sessions.command"[1] == 'e' && "sessions.events"[1] == 'e';
    assert "sessions.subscribe"[1] == 'e' && "sessions.unsubscribe"[1] == 'e';
    assert "approvals.list"[0] == 'a' && "approvals.resolve"[0] == 'a';
  }

  /**
   After a shutdown, whatever follows, no subscription is live, every one opened before has ended
   or was aborted, and no further one is opened.
   */
  lemma NothingLivesAfterShutdown(parse: JsonParser, before: seq<Step>, shutdown: Step, after: seq<Step>)
    requires shutdown.Line? && ShutsDown(parse, shutdown.line)
    requires FreshIds(parse, NEW_SERVER, before + ([shutdown] + after))
    ensures var earlier, end := Run(parse, NEW_SERVER, before).0,
        Run(parse, NEW_SERVER, before + ([shutdown] + after)).0;
            end.closed && end.live == {} && Gone(end) == Known(earlier)
  {
    var earlier := Run(parse, NEW_SERVER, before).0;
    RunsChain(parse, NEW_SERVER, before, [shutdown] + after);
    RunsKeepSubscriptions(parse, NEW_SERVER, before);
    ShutdownCloses(parse, earlier, shutdown.line, shutdown.api, shutdown.newId);
    RunStep(parse, earlier, shutdown, after);
    ClosedRunsStayClosed(parse, earlier, after);
  }

  lemma RunStep(parse: JsonParser, s: Server, step: Step, rest: seq<Step>)
    ensures Run(parse, s, [step] + rest).0 == Run(parse, Take(parse, s, step).0, rest).0
    ensures FreshIds(parse, s, [step] + rest) ==> FreshIds(parse, Take(parse, s, step).0, rest)
  {
    assert ([step] + rest)[1..] == rest;
  }

  lemma ClosedRunsStayClosed(parse: JsonParser, s: Server, steps: seq<Step>)
    requires Consistent(Known(s), s) && FreshIds(parse, Closed(s), steps)
    ensures var end := Run(parse, Closed(s), steps).0;
            end.closed && end.live == {} && Gone(end) == Known(s)
  {
    MayClose(s);
    ClosedKnows(s);
    var end := Run(parse, Closed(s), steps).0;
    RunsKeepSubscriptions(parse, Closed(s), steps);
    assert end.live == {} && Known(end) == Known(s);
    assert Known(end) == Gone(end);
  }

  lemma ClosedKnows(s: Server)
    requires Consistent(Known(s), s)
    ensures Known(Closed(s)) == Known(s) == Gone(Closed(s))
  {
  }
}
