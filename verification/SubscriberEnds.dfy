/** Which attempts end a subscription and which are tried again, status by status and error by error. */
module SubscriberEnds {
  import opened Wrappers
  import opened Json
  import opened Sse
  import opened Subscriber
  import opened SubscriberLaws

  /** The `i`th attempt of the run is followed by a wait and, if the script goes on, by another attempt. */
  ghost predicate GoesOn(log: Log, script: seq<Attempt>, i: nat) {
    i < |log.notices| && (i + 1 < |script| ==> i + 1 < |log.requests|)
  }

  /** The `i`th attempt is the last, and this is how the run ends. */
  ghost predicate EndsWith(log: Log, i: nat, stop: Stop) {
    |log.notices| == i && |log.requests| == i + 1 && log.stop == stop
  }

  /** An exception ends the run if it is an AbortError or an API error marked as not retryable. */
  ghost predicate ExceptionDecides(log: Log, script: seq<Attempt>, i: nat, failure: Failure) {
    match failure
    case AbortError => EndsWith(log, i, Returned)
    case Api(status, retryable) => if retryable then GoesOn(log, script, i) else EndsWith(log, i, Thrown(failure))
    case Other => GoesOn(log, script, i)
  }

  lemma VerdictDecides(parse: JsonParser, consume: Consumer, cursor: int, attempt: nat, maxDelay: int,
                       script: seq<Attempt>, i: nat)
    requires i < |Run(parse, consume, cursor, attempt, maxDelay, script).requests|
    ensures i < |script|
    ensures var log := Run(parse, consume, cursor, attempt, maxDelay, script);
            match Verdict(parse, consume, log.requests[i], script[i])
            case None => GoesOn(log, script, i)
            case Some(stop) => EndsWith(log, i, stop)
  {
    EndsOnlyForGoodReason(parse, consume, cursor, attempt, maxDelay, script);
  }

  /** An attempt by whose end the signal is aborted is the last, and the subscription returns. */
  lemma AbortEnds(parse: JsonParser, consume: Consumer, cursor: int, attempt: nat, maxDelay: int,
                  script: seq<Attempt>, i: nat)
    requires var log := Run(parse, consume, cursor, attempt, maxDelay, script);
             i < |log.requests| && i < |script| && script[i].aborted
    ensures EndsWith(Run(parse, consume, cursor, attempt, maxDelay, script), i, Returned)
  {
    VerdictDecides(parse, consume, cursor, attempt, maxDelay, script, i);
  }

  /**
   A response that is not a success is tried again exactly for the statuses 408, 409, 425, 429 and
   those from 500 on; any other ends the subscription with an API error that is not retryable.
   */
  lemma StatusDecides(parse: JsonParser, consume: Consumer, cursor: int, attempt: nat, maxDelay: int,
                      script: seq<Attempt>, i: nat)
    requires var log := Run(parse, consume, cursor, attempt, maxDelay, script);
             i < |log.requests| && i < |script| && script[i].course.Refused? && !script[i].aborted
    ensures var log, status := Run(parse, consume, cursor, attempt, maxDelay, script), script[i].course.status;
            if status in {408, 409, 425, 429} || status >= 500 then GoesOn(log, script, i)
            else EndsWith(log, i, Thrown(Api(status, false)))
  {
    VerdictDecides(parse, consume, cursor, attempt, maxDelay, script, i);
  }

  /** A request that fails outright, or a response without a body, which is tried again. */
  lemma ConnectingDecides(parse: JsonParser, consume: Consumer, cursor: int, attempt: nat, maxDelay: int,
                          script: seq<Attempt>, i: nat)
    requires var log := Run(parse, consume, cursor, attempt, maxDelay, script);
             i < |log.requests| && i < |script| && !script[i].aborted
    ensures var log, course := Run(parse, consume, cursor, attempt, maxDelay, script), script[i].course;
            && (course.Unreached? ==> ExceptionDecides(log, script, i, course.failure))
            && (course.Empty? ==> GoesOn(log, script, i))
  {
    VerdictDecides(parse, consume, cursor, attempt, maxDelay, script, i);
  }

  /**
   A connection that streamed: what the consumer raises decides first; then an oversized event or
   buffer, which ends the subscription with a 502 that is not retryable, or text that is not JSON,
   which is tried again; then how the connection ended.
   */
  lemma StreamDecides(parse: JsonParser, consume: Consumer, cursor: int, attempt: nat, maxDelay: int,
                      script: seq<Attempt>, i: nat)
    requires var log := Run(parse, consume, cursor, attempt, maxDelay, script);
             i < |log.requests| && i < |script| && script[i].course.Streamed? && !script[i].aborted
    ensures var log, course := Run(parse, consume, cursor, attempt, maxDelay, script), script[i].course;
            var parsed := Feed(parse, "", course.chunks);
            var failure := Consume(consume, log.requests[i], parsed.events).failure;
            if failure.Some? then ExceptionDecides(log, script, i, failure.value)
            else match parsed.error
              case Some(EventOversized) => EndsWith(log, i, Thrown(Api(502, false)))
              case Some(BufferOversized) => EndsWith(log, i, Thrown(Api(502, false)))
              case Some(InvalidJson) => GoesOn(log, script, i)
              case None =>
                if course.ending.Broken? then ExceptionDecides(log, script, i, course.ending.failure)
                else GoesOn(log, script, i)
  {
    VerdictDecides(parse, consume, cursor, attempt, maxDelay, script, i);
  }

  /** What the consumer raises is raised at the last event it is handed, and at no earlier one. */
  lemma {:induction false} ConsumerFailsLast(consume: Consumer, cursor: int, events: seq<Value>)
    ensures var c := Consume(consume, cursor, events);
            var n := |c.delivered|;
            && (n == 0 ==> c.failure.None?)
            && (n > 0 ==> c.failure == consume(c.delivered[n - 1]))
            && (forall k :: 0 <= k < n - 1 ==> consume(c.delivered[k]).None?)
    decreases |events|
  {
    if events != [] {
      if !Fresh(events[0], cursor) {
        ConsumerFailsLast(consume, cursor, events[1..]);
      } else if consume(events[0]).None? {
        ConsumerFailsLast(consume, Sequence(events[0]).value, events[1..]);
        var more := Consume(consume, Sequence(events[0]).value, events[1..]).delivered;
        assert forall k :: 1 <= k < |more| + 1 ==> ([events[0]] + more)[k] == more[k - 1];
      }
    }
  }

  /** The numbers handed to `onEvent` are the events' own `sequence`, and strictly increase past the cursor. */
  lemma DeliveredNumbersIncrease(parse: JsonParser, consume: Consumer, cursor: int, attempt: nat, maxDelay: int,
                                 script: seq<Attempt>)
    ensures var delivered := Run(parse, consume, cursor, attempt, maxDelay, script).delivered;
            && (forall i :: 0 <= i < |delivered| ==>
                  Get(delivered[i], "sequence").Int? && Get(delivered[i], "sequence").n > cursor)
            && (forall i, j :: 0 <= i < j < |delivered| ==>
                  Get(delivered[i], "sequence").n < Get(delivered[j], "sequence").n)
  {
    DeliveriesIncrease(parse, consume, cursor, attempt, maxDelay, script);
  }

  /** The longest wait: ten seconds unless an option says otherwise, which counts from 250 ms to 30 s. */
  lemma MaxDelayIs(ms: int)
    ensures MaxDelay(None) == 10_000
    ensures 250 <= ms <= 30_000 ==> MaxDelay(Some(ms)) == ms
    ensures ms < 250 ==> MaxDelay(Some(ms)) == 250
    ensures ms > 30_000 ==> MaxDelay(Some(ms)) == 30_000
  {
  }
}
