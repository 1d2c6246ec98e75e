/** What a subscriber can rely on over every run, whatever the connections do. */
module SubscriberLaws {
  import opened Wrappers
  import opened Text
  import opened Json
  import opened Sse
  import opened EventWriter
  import opened StreamLaws
  import opened Subscriber

  // No event twice, none out of order

  /** Strictly increasing sequence numbers, all past `cursor`. */
  ghost predicate Increasing(events: seq<Value>, cursor: int) {
    && (forall i :: 0 <= i < |events| ==> Fresh(events[i], cursor))
    && (forall i, j :: 0 <= i < j < |events| ==> Sequence(events[i]).value < Sequence(events[j]).value)
  }

  /** The cursor after handing over `events`. */
  function LastSequence(events: seq<Value>, cursor: int): int {
    if events == [] then cursor
    else
      var s := Sequence(events[|events| - 1]);
      if s.Some? then s.value else cursor
  }

  lemma IncreasingJoins(a: seq<Value>, b: seq<Value>, cursor: int)
    requires Increasing(a, cursor) && Increasing(b, LastSequence(a, cursor))
    ensures Increasing(a + b, cursor)
    ensures LastSequence(a + b, cursor) == LastSequence(b, LastSequence(a, cursor))
  {
    if a != [] {
      forall i | 0 <= i < |a| ensures Sequence(a[i]).value <= LastSequence(a, cursor) {
      }
    }
    if b != [] {
      assert (a + b)[|a + b| - 1] == b[|b| - 1];
    } else {
      assert a + b == a;
    }
  }

  lemma {:induction false} ConsumedIncreases(consume: Consumer, cursor: int, events: seq<Value>)
    ensures var c := Consume(consume, cursor, events);
            Increasing(c.delivered, cursor) && c.cursor == LastSequence(c.delivered, cursor)
    decreases |events|
  {
    if events != [] {
      if !Fresh(events[0], cursor) {
        ConsumedIncreases(consume, cursor, events[1..]);
      } else if consume(events[0]).None? {
        var next := Sequence(events[0]).value;
        ConsumedIncreases(consume, next, events[1..]);
        IncreasingJoins([events[0]], Consume(consume, next, events[1..]).delivered, cursor);
      }
    }
  }

  lemma ConnectionIncreases(parse: JsonParser, consume: Consumer, cursor: int, a: Attempt)
    ensures var s := Connect(parse, consume, cursor, a);
            Increasing(s.delivered, cursor) && s.cursor == LastSequence(s.delivered, cursor)
  {
    if a.course.Streamed? {
      ConsumedIncreases(consume, cursor, Feed(parse, "", a.course.chunks).events);
    }
  }

  /** The number of the next attempt: one more, or one again after a connection that streamed. */
  function Counted(attempt: nat, a: Attempt): nat {
    (if a.course.Streamed? then 0 else attempt) + 1
  }

  lemma RunStep(parse: JsonParser, consume: Consumer, cursor: int, attempt: nat, maxDelay: int, script: seq<Attempt>)
    requires script != []
    ensures var s := Connect(parse, consume, cursor, script[0]);
            Run(parse, consume, cursor, attempt, maxDelay, script).delivered == s.delivered +
              if !s.stop.Dropped? then []
              else Run(parse, consume, s.cursor, Counted(attempt, script[0]), maxDelay, script[1..]).delivered
  {
  }

  /** Over every run the sequence numbers handed to `onEvent` strictly increase past the cursor. */
  lemma {:induction false} DeliveriesIncrease(parse: JsonParser, consume: Consumer, cursor: int, attempt: nat,
                                              maxDelay: int, script: seq<Attempt>)
    ensures Increasing(Run(parse, consume, cursor, attempt, maxDelay, script).delivered, cursor)
    decreases |script|
  {
    if script != [] {
      ConnectionIncreases(parse, consume, cursor, script[0]);
      RunStep(parse, consume, cursor, attempt, maxDelay, script);
      var s := Connect(parse, consume, cursor, script[0]);
      if s.stop.Dropped? {
        var next := Counted(attempt, script[0]);
        DeliveriesIncrease(parse, consume, s.cursor, next, maxDelay, script[1..]);
        IncreasingJoins(s.delivered, Run(parse, consume, s.cursor, next, maxDelay, script[1..]).delivered, cursor);
      }
    }
  }

  lemma {:induction false} EarlierDeliveriesFirst(parse: JsonParser, consume: Consumer, cursor: int, attempt: nat,
                                                  maxDelay: int, script: seq<Attempt>, n: nat)
    requires n <= |script|
    ensures Run(parse, consume, cursor, attempt, maxDelay, script[..n]).delivered
         <= Run(parse, consume, cursor, attempt, maxDelay, script).delivered
    decreases |script|
  {
    if n > 0 {
      TakeStep(script, n);
      RunStep(parse, consume, cursor, attempt, maxDelay, script);
      RunStep(parse, consume, cursor, attempt, maxDelay, script[..n]);
      var s := Connect(parse, consume, cursor, script[0]);
      if s.stop.Dropped? {
        var next := Counted(attempt, script[0]);
        EarlierDeliveriesFirst(parse, consume, s.cursor, next, maxDelay, script[1..], n - 1);
        PrefixBehind(s.delivered, Run(parse, consume, s.cursor, next, maxDelay, script[1..][..n - 1]).delivered,
                     Run(parse, consume, s.cursor, next, maxDelay, script[1..]).delivered);
      }
    }
  }

  lemma TakeStep<T>(s: seq<T>, n: nat)
    requires 0 < n <= |s|
    ensures s[..n] != [] && s[..n][0] == s[0] && s[..n][1..] == s[1..][..n - 1]
  {
  }

  /** Each request but the first asks for what the notice before it announced. */
  ghost predicate RequestsFollow(requests: seq<int>, notices: seq<Notice>, cursor: int) {
    && (requests != [] ==> requests[0] == cursor)
    && |requests| <= |notices| + 1
    && forall i :: 0 < i < |requests| ==> requests[i] == notices[i - 1].afterSequence
  }

  /** And that is the number of the last event handed over by then. */
  ghost predicate AnnouncesLast(parse: JsonParser, consume: Consumer, cursor: int, attempt: nat,
                                maxDelay: int, script: seq<Attempt>, n: nat, after: int) {
    n <= |script| && after == LastSequence(Run(parse, consume, cursor, attempt, maxDelay, script[..n]).delivered,
                                           cursor)
  }

  lemma AnnouncesOneLater(parse: JsonParser, consume: Consumer, cursor: int, attempt: nat,
                          maxDelay: int, script: seq<Attempt>, n: nat, after: int)
    requires script != [] && Connect(parse, consume, cursor, script[0]).stop.Dropped?
    requires AnnouncesLast(parse, consume, Connect(parse, consume, cursor, script[0]).cursor,
                           Counted(attempt, script[0]),
                           maxDelay, script[1..], n, after)
    ensures AnnouncesLast(parse, consume, cursor, attempt, maxDelay, script, n + 1, after)
  {
    var s := Connect(parse, consume, cursor, script[0]);
    TakeStep(script, n + 1);
    RunStep(parse, consume, cursor, attempt, maxDelay, script[..n + 1]);
    ConnectionIncreases(parse, consume, cursor, script[0]);
    var next := Counted(attempt, script[0]);
    DeliveriesIncrease(parse, consume, s.cursor, next, maxDelay, script[1..][..n]);
    IncreasingJoins(s.delivered, Run(parse, consume, s.cursor, next, maxDelay, script[1..][..n]).delivered, cursor);
  }

  /** The notices of a run that reconnects at least once. */
  lemma NoticesStep(parse: JsonParser, consume: Consumer, cursor: int, attempt: nat, maxDelay: int,
                    script: seq<Attempt>)
    requires script != [] && Connect(parse, consume, cursor, script[0]).stop.Dropped?
    ensures var s, next := Connect(parse, consume, cursor, script[0]), Counted(attempt, script[0]);
            var log, more := Run(parse, consume, cursor, attempt, maxDelay, script),
                             Run(parse, consume, s.cursor, next, maxDelay, script[1..]);
            && log.requests == [cursor] + more.requests && log.stop == more.stop
            && log.notices == [Notice(next, s.cursor, DelayMs(maxDelay, next))] + more.notices
  {
  }

  /**
   Every request but the first resumes after the last event handed over before it, which is also
   what the caller was told.
   */
  lemma {:induction false} RequestsResume(parse: JsonParser, consume: Consumer, cursor: int, attempt: nat,
                                          maxDelay: int, script: seq<Attempt>)
    ensures var log := Run(parse, consume, cursor, attempt, maxDelay, script);
            && RequestsFollow(log.requests, log.notices, cursor)
            && forall i :: 0 <= i < |log.notices| ==>
                 AnnouncesLast(parse, consume, cursor, attempt, maxDelay, script, i + 1, log.notices[i].afterSequence)
    decreases |script|
  {
    if script != [] && Connect(parse, consume, cursor, script[0]).stop.Dropped? {
      var s, next := Connect(parse, consume, cursor, script[0]), Counted(attempt, script[0]);
      NoticesStep(parse, consume, cursor, attempt, maxDelay, script);
      RequestsResume(parse, consume, s.cursor, next, maxDelay, script[1..]);
      var log, more := Run(parse, consume, cursor, attempt, maxDelay, script),
                       Run(parse, consume, s.cursor, next, maxDelay, script[1..]);
      FollowOneMore(more.requests, more.notices, s.cursor, cursor, log.notices[0]);
      ConnectionIncreases(parse, consume, cursor, script[0]);
      AnnouncesNothing(parse, consume, s.cursor, next, maxDelay, script[1..]);
      forall i | 0 <= i < |log.notices|
        ensures AnnouncesLast(parse, consume, cursor, attempt, maxDelay, script, i + 1, log.notices[i].afterSequence)
      {
        if i > 0 {
          assert log.notices[i] == more.notices[i - 1];
        }
        AnnouncesOneLater(parse, consume, cursor, attempt, maxDelay, script, i, log.notices[i].afterSequence);
      }
    }
  }

  lemma AnnouncesNothing(parse: JsonParser, consume: Consumer, cursor: int, attempt: nat, maxDelay: int,
                         script: seq<Attempt>)
    ensures AnnouncesLast(parse, consume, cursor, attempt, maxDelay, script, 0, cursor)
  {
  }

  lemma FollowOneMore(requests: seq<int>, notices: seq<Notice>, next: int, cursor: int, notice: Notice)
    requires RequestsFollow(requests, notices, next) && notice.afterSequence == next
    ensures RequestsFollow([cursor] + requests, [notice] + notices, cursor)
  {
  }

  // Nothing lost

  /** The public events of a session, in sequence order. */
  ghost predicate IsHistory(history: seq<Value>) {
    && (forall i :: 0 <= i < |history| ==> Sequence(history[i]).Some?)
    && (forall i, j :: 0 <= i < j < |history| ==> Sequence(history[i]).value < Sequence(history[j]).value)
  }

  /** The events after a cursor. */
  function After(history: seq<Value>, cursor: int): (r: seq<Value>) {
    if history == [] || Fresh(history[0], cursor) then history else After(history[1..], cursor)
  }

  lemma {:induction false} AfterIsRest(history: seq<Value>, cursor: int)
    requires IsHistory(history)
    ensures IsHistory(After(history, cursor)) && Increasing(After(history, cursor), cursor)
    ensures forall e :: e in After(history, cursor) <==> e in history && Fresh(e, cursor)
  {
    if history != [] && !Fresh(history[0], cursor) {
      AfterIsRest(history[1..], cursor);
      assert forall e :: e in history <==> e == history[0] || e in history[1..];
    } else if history != [] {
      forall i | 0 <= i < |history| ensures Fresh(history[i], cursor) {
        if i > 0 { assert Sequence(history[0]).value < Sequence(history[i]).value; }
      }
    }
  }

  /** Moving the cursor to the k-th event leaves what follows it. */
  lemma {:induction false} AfterMoves(history: seq<Value>, cursor: int, k: nat)
    requires IsHistory(history) && k <= |After(history, cursor)|
    ensures After(history, LastSequence(After(history, cursor)[..k], cursor)) == After(history, cursor)[k..]
  {
    if history == [] {
    } else if !Fresh(history[0], cursor) {
      AfterMoves(history[1..], cursor, k);
      AfterIsRest(history[1..], cursor);
      var rest := After(history[1..], cursor);
      if k > 0 {
        assert rest[..k][k - 1] == rest[k - 1];
        assert LastSequence(rest[..k], cursor) > cursor;
      }
    } else if k > 0 {
      assert history[..k][k - 1] == history[k - 1];
      AfterOwn(history, k);
    }
  }

  lemma {:induction false} AfterOwn(history: seq<Value>, k: nat)
    requires IsHistory(history) && 0 < k <= |history|
    ensures After(history, Sequence(history[k - 1]).value) == history[k..]
  {
    var c := Sequence(history[k - 1]).value;
    if k == 1 {
      if |history| > 1 {
        assert Sequence(history[0]).value < Sequence(history[1]).value;
        assert Fresh(history[1..][0], c);
      }
      assert After(history, c) == After(history[1..], c);
    } else {
      assert Sequence(history[0]).value < c;
      assert history[1..][k - 2] == history[k - 1] && history[1..][k - 1..] == history[k..];
      AfterOwn(history[1..], k - 1);
    }
  }

  /**
   A connection serves the start of the events after the cursor, among heartbeats, cut anywhere.  The
   history is one of events as JSON text carries them.
   */
  ghost predicate Serves(history: seq<Value>, cursor: int, a: Attempt, frames: seq<Frame>) {
    a.course.Streamed? ==>
      && AllSendable(frames)
      && Received(frames) == After(history, cursor)
      && Concat(a.course.chunks) <= StreamText(frames)
  }

  /** Every connection of the run serves the history from the cursor it was asked for. */
  ghost predicate Faithful(parse: JsonParser, consume: Consumer, cursor: int, history: seq<Value>, script: seq<Attempt>)
    decreases |script|
  {
    script != [] ==>
      && (exists frames :: Serves(history, cursor, script[0], frames))
      && Faithful(parse, consume, Connect(parse, consume, cursor, script[0]).cursor, history, script[1..])
  }

  lemma {:induction false} ReceivedPrefix(frames: seq<Frame>, n: nat)
    requires n <= |frames|
    ensures Received(frames[..n]) <= Received(frames)
  {
    assert frames == frames[..n] + frames[n..];
    VisibleAppend(frames[..n], frames[n..]);
    CarriedItemsAppend(Visible(frames[..n]), Visible(frames[n..]));
  }

  lemma {:induction false} CarriedItemsAppend(a: seq<Value>, b: seq<Value>)
    ensures CarriedItems(a + b) == CarriedItems(a) + CarriedItems(b)
  {
    if a == [] {
      assert a + b == b;
    } else {
      HeadAndRest(a, b);
      assert (a + b)[1..] == a[1..] + b;
      CarriedItemsAppend(a[1..], b);
    }
  }

  /** Fresh events are all handed over, up to the first the consumer fails on. */
  lemma {:induction false} ConsumesAPrefix(consume: Consumer, cursor: int, events: seq<Value>)
    requires Increasing(events, cursor)
    ensures Consume(consume, cursor, events).delivered <= events
    ensures Consume(consume, cursor, events).failure.None? ==> Consume(consume, cursor, events).delivered == events
    decreases |events|
  {
    if events != [] && consume(events[0]).None? {
      var next := Sequence(events[0]).value;
      forall i | 0 <= i < |events[1..]| ensures Fresh(events[1..][i], next) {
        assert Sequence(events[0]).value < Sequence(events[i + 1]).value;
      }
      ConsumesAPrefix(consume, next, events[1..]);
      assert events == [events[0]] + events[1..];
    }
  }

  lemma IncreasingPrefix(events: seq<Value>, cursor: int, n: nat)
    requires Increasing(events, cursor) && n <= |events|
    ensures Increasing(events[..n], cursor)
  {
  }

  lemma ConnectionDeliversAPrefix(parse: JsonParser, consume: Consumer, cursor: int, history: seq<Value>, a: Attempt)
    requires Inverts(parse) && IsHistory(history) && exists frames :: Serves(history, cursor, a, frames)
    ensures Connect(parse, consume, cursor, a).delivered <= After(history, cursor)
  {
    if a.course.Streamed? {
      var frames :| Serves(history, cursor, a, frames);
      StreamPrefixRoundTrip(parse, frames, a.course.chunks);
      ServedEvents(consume, cursor, history, frames, FramesWithin(frames, |Concat(a.course.chunks)|));
    }
  }

  lemma ServedEvents(consume: Consumer, cursor: int, history: seq<Value>, frames: seq<Frame>, n: nat)
    requires IsHistory(history) && Received(frames) == After(history, cursor) && n <= |frames|
    ensures Consume(consume, cursor, Received(frames[..n])).delivered <= After(history, cursor)
  {
    ReceivedPrefix(frames, n);
    var events := Received(frames[..n]);
    AfterIsRest(history, cursor);
    assert events == After(history, cursor)[..|events|];
    IncreasingPrefix(After(history, cursor), cursor, |events|);
    ConsumesAPrefix(consume, cursor, events);
  }

  lemma CursorMovesOn(cursor: int, history: seq<Value>, delivered: seq<Value>)
    requires IsHistory(history) && delivered <= After(history, cursor)
    ensures After(history, cursor) == delivered + After(history, LastSequence(delivered, cursor))
  {
    var rest, k := After(history, cursor), |delivered|;
    assert delivered == rest[..k];
    AfterMoves(history, cursor, k);
  }

  /**
   When each connection serves the history from the requested cursor, all deliveries over all
   reconnects are one contiguous piece of it that begins right after the starting cursor.
   */
  lemma {:induction false} DeliveriesAreContiguous(parse: JsonParser, consume: Consumer, cursor: int, attempt: nat,
                                                   maxDelay: int, history: seq<Value>, script: seq<Attempt>)
    requires Inverts(parse) && IsHistory(history) && Faithful(parse, consume, cursor, history, script)
    ensures Run(parse, consume, cursor, attempt, maxDelay, script).delivered <= After(history, cursor)
    decreases |script|
  {
    if script != [] {
      var s := Connect(parse, consume, cursor, script[0]);
      ServedConnectionMovesOn(parse, consume, cursor, history, script[0]);
      RunStep(parse, consume, cursor, attempt, maxDelay, script);
      PrefixBehind(s.delivered, [], After(history, s.cursor));
      if s.stop.Dropped? {
        var next := Counted(attempt, script[0]);
        DeliveriesAreContiguous(parse, consume, s.cursor, next, maxDelay, history, script[1..]);
        PrefixBehind(s.delivered, Run(parse, consume, s.cursor, next, maxDelay, script[1..]).delivered,
                     After(history, s.cursor));
      }
    }
  }

  lemma ServedConnectionMovesOn(parse: JsonParser, consume: Consumer, cursor: int, history: seq<Value>, a: Attempt)
    requires Inverts(parse) && IsHistory(history) && exists frames :: Serves(history, cursor, a, frames)
    ensures var s := Connect(parse, consume, cursor, a);
            After(history, cursor) == s.delivered + After(history, s.cursor)
  {
    ConnectionDeliversAPrefix(parse, consume, cursor, history, a);
    ConnectionIncreases(parse, consume, cursor, a);
    CursorMovesOn(cursor, history, Connect(parse, consume, cursor, a).delivered);
  }

  lemma PrefixBehind<T>(a: seq<T>, b: seq<T>, c: seq<T>)
    requires b <= c
    ensures a + b <= a + c
    ensures a + [] == a
  {
  }

  /** A connection that is served the whole history and a consumer that takes it: everything arrives. */
  lemma FullConnectionCatchesUp(parse: JsonParser, consume: Consumer, cursor: int, history: seq<Value>, a: Attempt,
                                frames: seq<Frame>)
    requires Inverts(parse) && IsHistory(history) && a.course.Streamed? && Serves(history, cursor, a, frames)
    requires Concat(a.course.chunks) == StreamText(frames)
    requires forall e :: e in history ==> consume(e).None?
    ensures Connect(parse, consume, cursor, a).delivered == After(history, cursor)
    ensures Connect(parse, consume, cursor, a).stop == SessionStop(None, None, a.course.ending, a.aborted)
  {
    StreamRoundTrip(parse, frames, a.course.chunks);
    AfterIsRest(history, cursor);
    ConsumesAPrefix(consume, cursor, After(history, cursor));
    NeverFails(consume, cursor, After(history, cursor));
  }

  lemma {:induction false} NeverFails(consume: Consumer, cursor: int, events: seq<Value>)
    requires forall e :: e in events ==> consume(e).None?
    ensures Consume(consume, cursor, events).failure.None?
    decreases |events|
  {
    if events != [] {
      NeverFails(consume, cursor, events[1..]);
      if Fresh(events[0], cursor) {
        NeverFails(consume, Sequence(events[0]).value, events[1..]);
      }
    }
  }

  // The retry loop

  lemma {:induction false} Pow2Grows(m: nat, n: nat)
    requires m <= n
    ensures Pow2(m) <= Pow2(n)
  {
    if m < n {
      Pow2Grows(m, n - 1);
    }
  }

  lemma MaxDelayBounds(option: Option<int>)
    ensures 250 <= MaxDelay(option) <= 30_000
  {
  }

  /** The exponent cap of 8 cannot be observed: the delay is the capped doubling of 250 ms. */
  lemma DelayIsCappedDoubling(maxDelay: int, attempt: nat)
    requires 250 <= maxDelay <= 30_000 && attempt >= 1
    ensures DelayMs(maxDelay, attempt) == Min(maxDelay, 250 * Pow2(attempt - 1))
    ensures 250 <= DelayMs(maxDelay, attempt) <= maxDelay
  {
    assert Pow2(0) == 1;
    assert Pow2(8) == 256 by {
      assert Pow2(4) == 16;
    }
    Pow2Grows(0, attempt - 1);
    if attempt - 1 > 8 {
      Pow2Grows(8, attempt - 1);
    }
  }

  /**
   The retry arithmetic of a run: attempt numbers restart exactly behind a connection that streamed,
   and each delay is the capped doubling for its number.
   */
  ghost predicate BacksOff(notices: seq<Notice>, attempt: nat, maxDelay: int, script: seq<Attempt>) {
    |notices| <= |script| && forall i :: 0 <= i < |notices| ==> BacksOffAt(notices, attempt, maxDelay, script, i)
  }

  predicate BacksOffAt(notices: seq<Notice>, attempt: nat, maxDelay: int, script: seq<Attempt>, i: nat)
    requires i < |notices| <= |script|
  {
    && notices[i].attempt == Counted(if i == 0 then attempt else notices[i - 1].attempt, script[i])
    && notices[i].delayMs == Min(maxDelay, 250 * Pow2(notices[i].attempt - 1))
  }

  lemma BacksOffOneMore(notice: Notice, notices: seq<Notice>, attempt: nat, maxDelay: int, a: Attempt,
                        script: seq<Attempt>)
    requires BacksOff(notices, notice.attempt, maxDelay, script) && notice.attempt == Counted(attempt, a)
    requires notice.delayMs == Min(maxDelay, 250 * Pow2(notice.attempt - 1))
    ensures BacksOff([notice] + notices, attempt, maxDelay, [a] + script)
  {
    var all, script' := [notice] + notices, [a] + script;
    forall i | 0 <= i < |all| ensures BacksOffAt(all, attempt, maxDelay, script', i) {
      if i > 0 {
        assert BacksOffAt(notices, notice.attempt, maxDelay, script, i - 1);
      }
    }
  }

  lemma {:induction false} DelaysBackOff(parse: JsonParser, consume: Consumer, cursor: int, attempt: nat,
                                         maxDelay: int, script: seq<Attempt>)
    requires 250 <= maxDelay <= 30_000
    ensures BacksOff(Run(parse, consume, cursor, attempt, maxDelay, script).notices, attempt, maxDelay, script)
    decreases |script|
  {
    if script != [] && Connect(parse, consume, cursor, script[0]).stop.Dropped? {
      var s, next := Connect(parse, consume, cursor, script[0]), Counted(attempt, script[0]);
      NoticesStep(parse, consume, cursor, attempt, maxDelay, script);
      DelaysBackOff(parse, consume, s.cursor, next, maxDelay, script[1..]);
      DelayIsCappedDoubling(maxDelay, next);
      var more := Run(parse, consume, s.cursor, next, maxDelay, script[1..]).notices;
      BacksOffOneMore(Notice(next, s.cursor, DelayMs(maxDelay, next)), more, attempt, maxDelay, script[0], script[1..]);
      HeadAndRest(script, []);
    }
  }

  /** So over consecutive failures delays never shrink, and all lie between 250 ms and the maximum. */
  lemma DelaysNeverShrink(notices: seq<Notice>, attempt: nat, maxDelay: int, script: seq<Attempt>, i: nat)
    requires 250 <= maxDelay <= 30_000 && BacksOff(notices, attempt, maxDelay, script) && i < |notices|
    ensures 250 <= notices[i].delayMs <= maxDelay
    ensures i + 1 < |notices| && !script[i + 1].course.Streamed? ==> notices[i].delayMs <= notices[i + 1].delayMs
  {
    assert BacksOffAt(notices, attempt, maxDelay, script, i);
    Pow2Grows(0, notices[i].attempt - 1);
    if i + 1 < |notices| {
      assert BacksOffAt(notices, attempt, maxDelay, script, i + 1);
      Pow2Grows(notices[i].attempt - 1, notices[i].attempt);
    }
  }

  /** The exception an attempt raises, if it raises one. */
  function Exception(parse: JsonParser, consume: Consumer, cursor: int, a: Attempt): Option<Failure> {
    match a.course
    case Unreached(failure) => Some(failure)
    case Refused(status) => Some(ResponseFailure(status))
    case Empty => Some(Api(502, true))
    case Streamed(chunks, ending) =>
      var parsed := Feed(parse, "", chunks);
      StreamException(Consume(consume, cursor, parsed.events).failure, parsed.error, ending)
  }

  /** The attempts that end the loop, and how: by abort, or by an API error that is not retryable. */
  function Verdict(parse: JsonParser, consume: Consumer, cursor: int, a: Attempt): Option<Stop> {
    var exception := Exception(parse, consume, cursor, a);
    if a.aborted || exception == Some(AbortError) then Some(Returned)
    else if exception.Some? && exception.value.Api? && !exception.value.retryable then Some(Thrown(exception.value))
    else None
  }

  lemma StopsByVerdict(parse: JsonParser, consume: Consumer, cursor: int, a: Attempt)
    ensures var stop := Connect(parse, consume, cursor, a).stop;
            stop == match Verdict(parse, consume, cursor, a) case Some(v) => v case None => Dropped
  {
  }

  /** No attempt before the last one made ends the loop; that one does, or the script is over. */
  ghost predicate EndsByVerdict(parse: JsonParser, consume: Consumer, log: Log, script: seq<Attempt>) {
    var n := |log.notices|;
    && n <= |script| && |log.requests| == (if n < |script| then n + 1 else n)
    && (forall i :: 0 <= i < n ==> Verdict(parse, consume, log.requests[i], script[i]).None?)
    && (if n < |script| then Verdict(parse, consume, log.requests[n], script[n]) == Some(log.stop)
        else log.stop == Returned)
  }

  lemma EndsOneLater(parse: JsonParser, consume: Consumer, cursor: int, notice: Notice, log: Log, more: Log,
                     a: Attempt, script: seq<Attempt>)
    requires EndsByVerdict(parse, consume, more, script) && Verdict(parse, consume, cursor, a).None?
    requires log.requests == [cursor] + more.requests && log.notices == [notice] + more.notices && log.stop == more.stop
    ensures EndsByVerdict(parse, consume, log, [a] + script)
  {
    var n, all := |log.notices|, [a] + script;
    forall i | 0 <= i < n ensures Verdict(parse, consume, log.requests[i], all[i]).None? {
      if i > 0 {
        assert log.requests[i] == more.requests[i - 1] && all[i] == script[i - 1];
      }
    }
  }

  /** The loop ends exactly at the first attempt that is aborted or raises an API error not retryable. */
  lemma {:induction false} EndsOnlyForGoodReason(parse: JsonParser, consume: Consumer, cursor: int, attempt: nat,
                                                 maxDelay: int, script: seq<Attempt>)
    ensures EndsByVerdict(parse, consume, Run(parse, consume, cursor, attempt, maxDelay, script), script)
    decreases |script|
  {
    if script != [] {
      StopsByVerdict(parse, consume, cursor, script[0]);
      var s, next := Connect(parse, consume, cursor, script[0]), Counted(attempt, script[0]);
      if s.stop.Dropped? {
        NoticesStep(parse, consume, cursor, attempt, maxDelay, script);
        EndsOnlyForGoodReason(parse, consume, s.cursor, next, maxDelay, script[1..]);
        var log, more := Run(parse, consume, cursor, attempt, maxDelay, script),
                         Run(parse, consume, s.cursor, next, maxDelay, script[1..]);
        EndsOneLater(parse, consume, cursor, log.notices[0], log, more, script[0], script[1..]);
        HeadAndRest(script, []);
      }
    }
  }

  /** Refused connections, lost connections and bad JSON are retried for as long as they go on. */
  lemma {:induction false} RetriesForever(parse: JsonParser, consume: Consumer, cursor: int, attempt: nat,
                                          maxDelay: int, script: seq<Attempt>)
    requires forall v :: consume(v).None?
    requires forall i :: 0 <= i < |script| ==> Transient(parse, script[i])
    ensures |Run(parse, consume, cursor, attempt, maxDelay, script).notices| == |script|
    decreases |script|
  {
    if script != [] {
      var a := script[0];
      assert Transient(parse, a);
      if a.course.Streamed? {
        NeverFails(consume, cursor, Feed(parse, "", a.course.chunks).events);
      }
      var s := Connect(parse, consume, cursor, a);
      RetriesForever(parse, consume, s.cursor, Counted(attempt, script[0]), maxDelay, script[1..]);
    }
  }

  predicate Transient(parse: JsonParser, a: Attempt) {
    && !a.aborted
    && match a.course
       case Unreached(failure) => failure.Other? || (failure.Api? && failure.retryable)
       case Refused(status) => status >= 500 || status in {408, 409, 425, 429}
       case Empty => true
       case Streamed(chunks, ending) =>
         && (ending.Closed? || ending.failure.Other?)
         && (Feed(parse, "", chunks).error.None? || Feed(parse, "", chunks).error == Some(InvalidJson))
  }
}
