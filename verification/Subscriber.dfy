/**
 `HafApiClient.subscribe`: a reconnecting subscription with a cursor.

 What the network and the caller's signal do is a script: one attempt to connect after another,
 each with how it goes and whether the signal is aborted by the time it is over.  When the script is
 over the signal is aborted.  `consume` is what `onEvent` does with an event: nothing, or an exception.
 */
module Subscriber {
  import opened Wrappers
  import opened Text
  import opened Json
  import opened Sse

  datatype Failure = Api(status: int, retryable: bool) | AbortError | Other

  /** How reading goes on after the chunks of a connection. */
  datatype Ending = Closed | Broken(failure: Failure)

  datatype Course =
    | Unreached(failure: Failure)
    | Refused(status: int)
    | Empty
    | Streamed(chunks: seq<string>, ending: Ending)

  datatype Attempt = Attempt(course: Course, aborted: bool)

  type Consumer = Value -> Option<Failure>

  datatype Notice = Notice(attempt: nat, afterSequence: int, delayMs: int)

  datatype Stop = Dropped | Returned | Thrown(failure: Failure)

  /** A run as the outside sees it. */
  datatype Log = Log(requests: seq<int>, delivered: seq<Value>, notices: seq<Notice>, stop: Stop)

  // Errors

  predicate RetryableStatus(status: int) {
    status == 408 || status == 409 || status == 425 || status == 429 || status >= 500
  }

  /** The error an unsuccessful response becomes; redirects are refused for good. */
  function ResponseFailure(status: int): Failure {
    if status in {301, 302, 303, 307, 308} then Api(status, false) else Api(status, RetryableStatus(status))
  }

  function StreamFailure(error: StreamError): Failure {
    match error
    case InvalidJson => Other
    case _ => Api(502, false)
  }

  /** What the `catch` clause makes of an exception. */
  function Classify(failure: Failure, aborted: bool): Stop {
    if aborted || failure.AbortError? then Returned
    else if failure.Api? && !failure.retryable then Thrown(failure)
    else Dropped
  }

  // Delays

  const DEFAULT_DELAY := 10_000

  function Max(a: int, b: int): int {
    if a < b then b else a
  }

  function Min(a: int, b: int): int {
    if a < b then a else b
  }

  function MaxDelay(option: Option<int>): int {
    Min(30_000, Max(250, if option.Some? then option.value else DEFAULT_DELAY))
  }

  function Pow2(n: nat): nat {
    if n == 0 then 1 else 2 * Pow2(n - 1)
  }

  function DelayMs(maxDelay: int, attempt: nat): int
    requires attempt >= 1
  {
    Min(maxDelay, 250 * Pow2(Min(attempt - 1, 8)))
  }

  // Events

  function Sequence(event: Value): Option<int> {
    var v := Get(event, "sequence");
    if v.Int? then Some(v.n) else None
  }

  predicate Fresh(event: Value, cursor: int) {
    Sequence(event).Some? && Sequence(event).value > cursor
  }

  datatype Consumed = Consumed(delivered: seq<Value>, cursor: int, failure: Option<Failure>)

  /** Hands over the events past the cursor, moving it, until the consumer fails. */
  function Consume(consume: Consumer, cursor: int, events: seq<Value>): Consumed
    decreases |events|
  {
    if events == [] then Consumed([], cursor, None)
    else if !Fresh(events[0], cursor) then Consume(consume, cursor, events[1..])
    else
      var cursor' := Sequence(events[0]).value;
      var failure := consume(events[0]);
      if failure.Some? then Consumed([events[0]], cursor', failure)
      else
        var more := Consume(consume, cursor', events[1..]);
        more.(delivered := [events[0]] + more.delivered)
  }

  datatype Session = Session(delivered: seq<Value>, cursor: int, connected: bool, stop: Stop)

  /** One pass through the body of the retry loop. */
  function Connect(parse: JsonParser, consume: Consumer, cursor: int, a: Attempt): Session {
    match a.course
    case Unreached(failure) => Session([], cursor, false, Classify(failure, a.aborted))
    case Refused(status) => Session([], cursor, false, Classify(ResponseFailure(status), a.aborted))
    case Empty => Session([], cursor, false, Classify(Api(502, true), a.aborted))
    case Streamed(chunks, ending) =>
      var parsed := Feed(parse, "", chunks);
      var c := Consume(consume, cursor, parsed.events);
      Session(c.delivered, c.cursor, true, SessionStop(c.failure, parsed.error, ending, a.aborted))
  }

  /** The first exception of a connection that streamed, if there was one. */
  function StreamException(failure: Option<Failure>, error: Option<StreamError>, ending: Ending): Option<Failure> {
    if failure.Some? then failure
    else if error.Some? then Some(StreamFailure(error.value))
    else if ending.Broken? then Some(ending.failure)
    else None
  }

  function SessionStop(failure: Option<Failure>, error: Option<StreamError>, ending: Ending, aborted: bool): Stop {
    match StreamException(failure, error, ending)
    case Some(exception) => Classify(exception, aborted)
    case None => if aborted then Returned else Dropped
  }

  function Run(parse: JsonParser, consume: Consumer, cursor: int, attempt: nat, maxDelay: int,
               script: seq<Attempt>): Log
    decreases |script|
  {
    if script == [] then Log([], [], [], Returned) else
      var s := Connect(parse, consume, cursor, script[0]);
      if !s.stop.Dropped? then Log([cursor], s.delivered, [], s.stop)
      else
        var next := (if s.connected then 0 else attempt) + 1;
        var more := Run(parse, consume, s.cursor, next, maxDelay, script[1..]);
        Log([cursor] + more.requests, s.delivered + more.delivered,
            [Notice(next, s.cursor, DelayMs(maxDelay, next))] + more.notices, more.stop)
  }

  // The loops

  method ConsumeEvents(consume: Consumer, start: int, events: seq<Value>)
    returns (delivered: seq<Value>, cursor: int, failure: Option<Failure>)
    ensures Consumed(delivered, cursor, failure) == Consume(consume, start, events)
  {
    delivered, cursor := [], start;
    for i := 0 to |events|
      invariant Consume(consume, start, events) == Ahead(delivered, Consume(consume, cursor, events[i..]))
    {
      assert events[i..][1..] == events[i + 1..];
      if !Fresh(events[i], cursor) {
        continue;
      }
      cursor := Sequence(events[i]).value;
      delivered := delivered + [events[i]];
      failure := consume(events[i]);
      if failure.Some? {
        return;
      }
    }
    failure := None;
  }

  ghost function Ahead(delivered: seq<Value>, c: Consumed): Consumed {
    c.(delivered := delivered + c.delivered)
  }

  method ConnectOnce(parse: JsonParser, consume: Consumer, start: int, a: Attempt)
    returns (delivered: seq<Value>, cursor: int, connected: bool, stop: Stop)
    ensures Session(delivered, cursor, connected, stop) == Connect(parse, consume, start, a)
  {
    delivered, cursor, connected := [], start, false;
    match a.course {
      case Unreached(failure) => stop := Classify(failure, a.aborted);
      case Refused(status) => stop := Classify(ResponseFailure(status), a.aborted);
      case Empty => stop := Classify(Api(502, true), a.aborted);
      case Streamed(chunks, ending) =>
        connected := true;
        var events, error := ParseSse(parse, chunks);
        var failure;
        delivered, cursor, failure := ConsumeEvents(consume, cursor, events);
        stop := SessionStop(failure, error, ending, a.aborted);
    }
  }

  method Subscribe(parse: JsonParser, consume: Consumer, afterSequence: Option<int>, maxReconnectDelayMs: Option<int>,
                   script: seq<Attempt>) returns (log: Log)
    ensures log == Run(parse, consume, Max(0, if afterSequence.Some? then afterSequence.value else 0), 0,
                       MaxDelay(maxReconnectDelayMs), script)
    ensures script != [] ==>
              && log.requests != []
              && log.requests[0] == if afterSequence.Some? && afterSequence.value > 0 then afterSequence.value else 0
  {
    var cursor := Max(0, if afterSequence.Some? then afterSequence.value else 0);
    var attempt: nat := 0;
    var maxDelay := MaxDelay(maxReconnectDelayMs);
    log := Log([], [], [], Returned);
    ghost var start := cursor;
    FirstRequest(parse, consume, start, 0, maxDelay, script);
    assert script[0..] == script;
    NothingBefore(Run(parse, consume, start, 0, maxDelay, script));
    for i := 0 to |script|
      invariant Run(parse, consume, start, 0, maxDelay, script)
             == Before(log, Run(parse, consume, cursor, attempt, maxDelay, script[i..]))
      invariant log.stop == Returned
    {
      assert script[i..][1..] == script[i + 1..];
      ghost var before := (log, cursor, attempt);
      var delivered, reached, connected, stop := ConnectOnce(parse, consume, cursor, script[i]);
      log := log.(requests := log.requests + [cursor], delivered := log.delivered + delivered);
      cursor := reached;
      if connected {
        attempt := 0;
      }
      if !stop.Dropped? {
        RunStops(parse, consume, before.1, before.2, maxDelay, script[i..], before.0);
        return log.(stop := stop);
      }
      attempt := attempt + 1;
      log := log.(notices := log.notices + [Notice(attempt, cursor, DelayMs(maxDelay, attempt))]);
      RunGoesOn(parse, consume, before.1, before.2, maxDelay, script[i..], before.0, log);
    }
    NothingAfter(log);
  }

  lemma FirstRequest(parse: JsonParser, consume: Consumer, cursor: int, attempt: nat, maxDelay: int,
                     script: seq<Attempt>)
    ensures script != [] ==>
              var requests := Run(parse, consume, cursor, attempt, maxDelay, script).requests;
              requests != [] && requests[0] == cursor
  {
  }

  ghost function Before(a: Log, b: Log): Log {
    Log(a.requests + b.requests, a.delivered + b.delivered, a.notices + b.notices, b.stop)
  }

  lemma NothingBefore(log: Log)
    ensures Before(Log([], [], [], Returned), log) == log
  {
  }

  lemma NothingAfter(log: Log)
    requires log.stop == Returned
    ensures Before(log, Log([], [], [], Returned)) == log
  {
  }

  lemma RunStops(parse: JsonParser, consume: Consumer, cursor: int, attempt: nat, maxDelay: int, script: seq<Attempt>,
                 log: Log)
    requires script != [] && !Connect(parse, consume, cursor, script[0]).stop.Dropped?
    ensures var s := Connect(parse, consume, cursor, script[0]);
            Before(log, Run(parse, consume, cursor, attempt, maxDelay, script))
            == Log(log.requests + [cursor], log.delivered + s.delivered, log.notices, s.stop)
  {
    assert log.notices + [] == log.notices;
  }

  lemma RunGoesOn(parse: JsonParser, consume: Consumer, cursor: int, attempt: nat, maxDelay: int, script: seq<Attempt>,
                  log: Log, log': Log)
    requires script != [] && Connect(parse, consume, cursor, script[0]).stop.Dropped?
    requires var s := Connect(parse, consume, cursor, script[0]);
             var next := (if s.connected then 0 else attempt) + 1;
             && log'.requests == log.requests + [cursor] && log'.delivered == log.delivered + s.delivered
             && log'.notices == log.notices + [Notice(next, s.cursor, DelayMs(maxDelay, next))]
    ensures var s := Connect(parse, consume, cursor, script[0]);
            var next := (if s.connected then 0 else attempt) + 1;
            Before(log, Run(parse, consume, cursor, attempt, maxDelay, script))
            == Before(log', Run(parse, consume, s.cursor, next, maxDelay, script[1..]))
  {
    var s := Connect(parse, consume, cursor, script[0]);
    var next := (if s.connected then 0 else attempt) + 1;
    var more := Run(parse, consume, s.cursor, next, maxDelay, script[1..]);
    Associative(log.requests, [cursor], more.requests);
    Associative(log.delivered, s.delivered, more.delivered);
    Associative(log.notices, [Notice(next, s.cursor, DelayMs(maxDelay, next))], more.notices);
  }
}
