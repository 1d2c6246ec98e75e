/** What every run of the kernel's main loop keeps. */
module KernelLaws {
  import opened Wrappers
  import opened Text
  import opened Json
  import opened Sse
  import opened Kernel

  // Conservation of lines

  /** The lines read, by whomever, in order. */
  function Lines(events: seq<Event>): seq<string> {
    if events == [] then []
    else
      (match events[0]
       case Taken(line) => [line]
       case Answered(line, _) => [line]
       case _ => []) + Lines(events[1..])
  }

  lemma LinesStep(event: Event, rest: seq<Event>)
    ensures Lines([event] + rest) == Lines([event]) + Lines(rest)
  {
    assert ([event] + rest)[1..] == rest;
  }

  lemma {:induction false} LinesAppend(a: seq<Event>, b: seq<Event>)
    ensures Lines(a + b) == Lines(a) + Lines(b)
    decreases |a|
  {
    if a == [] {
      assert a + b == b;
    } else {
      LinesAppend(a[1..], b);
      HeadAndRest(a, b);
      LinesStep(a[0], a[1..] + b);
      LinesStep(a[0], a[1..]);
      Associative(Lines([a[0]]), Lines(a[1..]), Lines(b));
    }
  }

  lemma AskReadsOne(w: World, frame: Value, capability: string, unread: seq<string>, requests: nat)
    requires IsExecution(frame)
    ensures var (asked, outcome) := Ask(w, frame, capability, unread, requests);
            Lines(asked.events) + asked.unread == unread
  {
    var asked := Ask(w, frame, capability, unread, requests).0;
    var request := asked.events[0];
    LinesStep(request, asked.events[1..]);
    assert asked.events == [request] + asked.events[1..];
  }

  lemma {:induction false} CallsReadInOrder(w: World, frame: Value, calls: seq<HostCall>, unread: seq<string>,
                                            requests: nat)
    requires IsExecution(frame)
    ensures var (called, done) := Calls(w, frame, calls, unread, requests);
            Lines(called.events) + called.unread == unread
    decreases |calls|
  {
    if calls != [] {
      var (asked, outcome) := Ask(w, frame, calls[0].capability, unread, requests);
      AskReadsOne(w, frame, calls[0].capability, unread, requests);
      if !(outcome.Raised? && !calls[0].catches) {
        var (more, done) := Calls(w, frame, calls[1..], asked.unread, asked.requests);
        CallsReadInOrder(w, frame, calls[1..], asked.unread, asked.requests);
        LinesAppend(asked.events, more.events);
        Associative(Lines(asked.events), Lines(more.events), more.unread);
      }
    }
  }

  lemma HandleReadsInOrder(w: World, line: string, last: Value, unread: seq<string>, requests: nat)
    ensures var handled := Handle(w, line, last, unread, requests);
            Lines(handled.events) + handled.unread == unread
  {
    var handled := Handle(w, line, last, unread, requests);
    if FrameOf(w.parse, line).Some? && IsExecution(FrameOf(w.parse, line).value) {
      var frame := FrameOf(w.parse, line).value;
      var called := Calls(w, frame, w.conduct(|unread|).calls, unread, requests).0;
      CallsReadInOrder(w, frame, w.conduct(|unread|).calls, unread, requests);
      LinesAppend(called.events, [handled.events[|handled.events| - 1]]);
    } else {
      assert handled.unread == unread && |handled.events| == 1;
    }
  }

  /** Every input line is read once, in order, by the main loop or by one pending call; the rest stays unread. */
  lemma {:induction false} EveryLineIsReadOnce(w: World, last: Value, unread: seq<string>, requests: nat)
    ensures var run := Serve(w, last, unread, requests);
            Lines(run.events) + run.unread == unread
    decreases |unread|
  {
    if unread != [] {
      var handled := Handle(w, unread[0], last, unread[1..], requests);
      var round := [Taken(unread[0])] + handled.events;
      HandleReadsInOrder(w, unread[0], last, unread[1..], requests);
      LinesStep(Taken(unread[0]), handled.events);
      Associative([unread[0]], Lines(handled.events), handled.unread);
      HeadAndRest(unread, []);
      if !Stops(w.parse, unread[0]) {
        var more := Serve(w, ResultId(w.parse, unread[0], last), handled.unread, handled.requests);
        EveryLineIsReadOnce(w, ResultId(w.parse, unread[0], last), handled.unread, handled.requests);
        LinesAppend(round, more.events);
        Associative(Lines(round), Lines(more.events), more.unread);
      }
    }
  }

  // The protocol, as an automaton over what happens on the wire

  /** `last` is the id the main loop's variable still holds. */
  datatype Phase =
    | Resting(last: Value)
    | Busy(line: string, last: Value)
    | Waiting(line: string, last: Value, requestId: string)
    | Stopped

  predicate AtRest(phase: Phase) {
    phase.Resting? || phase.Stopped?
  }

  /** A request frame speaks for the execute frame being handled. */
  predicate SpeaksFor(event: Event, frame: Value)
    requires event.Requested?
  {
    && IsExecution(frame)
    && Field(frame, "executionId") == Str(event.executionId)
    && Field(frame, "kernelGeneration") == Str(event.generation)
    && Field(frame, "hostToken") == Str(event.token)
  }

  /** A call returns exactly from an affirmative frame for its own request, execution and generation. */
  predicate Fenced(parse: JsonParser, event: Event, requestId: string, frame: Value)
    requires event.Answered?
  {
    var reply := FrameOf(parse, event.line);
    && (event.outcome.Returned? <==>
          reply.Some? && Field(reply.value, "type") == Str("host_response")
              && Field(reply.value, "requestId") == Str(requestId)
          && Field(reply.value, "executionId") == Field(frame, "executionId")
          && Field(reply.value, "kernelGeneration") == Field(frame, "kernelGeneration")
              && Truthy(Field(reply.value, "ok")))
    && (event.outcome.Returned? ==> event.outcome.value == Field(reply.value, "result"))
  }

  /** What a result frame may say of the line it answers. */
  predicate Reports(parse: JsonParser, line: string, execution: Value, ok: bool) {
    match FrameOf(parse, line)
    case None => !ok && execution == Null
    case Some(frame) =>
      var kind := Field(frame, "type");
      if kind == Str("execute") then execution == Field(frame, "executionId") && (ok ==> IsExecution(frame))
      else
        && execution == (if ok then Undefined else Null)
        && (ok ==> kind in {Str("snapshot"), Str("restore"), Str("shutdown")})
        && (kind == Str("shutdown") ==> ok)
  }

  /** The next phase, if the event is allowed in this one. */
  function Advance(parse: JsonParser, phase: Phase, event: Event): Option<Phase> {
    match event
    case Taken(line) => if phase.Resting? then Some(Busy(line, phase.last)) else None
    case Requested(requestId, _, _, _, _) =>
      if !phase.Busy? && !phase.Waiting? then None
      else
        var frame := FrameOf(parse, phase.line);
        if frame.Some? && SpeaksFor(event, frame.value) then Some(Waiting(phase.line, phase.last, requestId)) else None
    case Answered(_, _) =>
      if !phase.Waiting? then None
      else
        var frame := FrameOf(parse, phase.line);
        if frame.Some? && Fenced(parse, event, phase.requestId, frame.value) then Some(Busy(phase.line, phase.last))
            else None
    case Result(id, execution, ok) =>
      if !phase.Busy? && !phase.Waiting? then None
      else if id != ResultId(parse, phase.line, phase.last) || !Reports(parse, phase.line, execution, ok) then None
      else if Stops(parse, phase.line) then Some(Stopped) else Some(Resting(id))
  }

  function Advances(parse: JsonParser, phase: Phase, events: seq<Event>): Option<Phase>
    decreases |events|
  {
    if events == [] then Some(phase)
    else
      var next :- Advance(parse, phase, events[0]);
      Advances(parse, next, events[1..])
  }

  lemma AdvancesStep(parse: JsonParser, phase: Phase, event: Event, rest: seq<Event>)
    requires Advance(parse, phase, event).Some?
    ensures Advances(parse, phase, [event] + rest) == Advances(parse, Advance(parse, phase, event).value, rest)
  {
    assert ([event] + rest)[1..] == rest;
  }

  lemma {:induction false} AdvancesAppend(parse: JsonParser, phase: Phase, a: seq<Event>, b: seq<Event>)
    requires Advances(parse, phase, a).Some?
    ensures Advances(parse, phase, a + b) == Advances(parse, Advances(parse, phase, a).value, b)
    decreases |a|
  {
    if a == [] {
      assert a + b == b;
    } else {
      HeadAndRest(a, b);
      AdvancesStep(parse, phase, a[0], a[1..] + b);
      AdvancesAppend(parse, Advance(parse, phase, a[0]).value, a[1..], b);
    }
  }

  /** Busy or waiting with this line. */
  predicate Handles(phase: Phase, line: string, last: Value) {
    (phase.Busy? || phase.Waiting?) && phase.line == line && phase.last == last
  }

  lemma AskFollowsProtocol(w: World, line: string, last: Value, phase: Phase, capability: string,
                           unread: seq<string>, requests: nat)
    requires Handles(phase, line, last) && FrameOf(w.parse, line).Some? && IsExecution(FrameOf(w.parse, line).value)
    ensures var frame := FrameOf(w.parse, line).value;
            var after := Advances(w.parse, phase, Ask(w, frame, capability, unread, requests).0.events);
            after.Some? && Handles(after.value, line, last)
  {
    var frame := FrameOf(w.parse, line).value;
    var asked := Ask(w, frame, capability, unread, requests).0;
    var request := asked.events[0];
    assert SpeaksFor(request, frame);
    AdvancesStep(w.parse, phase, request, asked.events[1..]);
    assert asked.events == [request] + asked.events[1..];
    if unread != [] {
      var answer := asked.events[1];
      assert Fenced(w.parse, answer, request.requestId, frame);
      assert asked.events[1..] == [answer] + [];
      AdvancesStep(w.parse, Waiting(line, last, request.requestId), answer, []);
    }
  }

  lemma {:induction false} CallsFollowProtocol(w: World, line: string, last: Value, phase: Phase, calls: seq<HostCall>,
                                               unread: seq<string>, requests: nat)
    requires Handles(phase, line, last) && FrameOf(w.parse, line).Some? && IsExecution(FrameOf(w.parse, line).value)
    ensures var frame := FrameOf(w.parse, line).value;
            var after := Advances(w.parse, phase, Calls(w, frame, calls, unread, requests).0.events);
            after.Some? && Handles(after.value, line, last)
    decreases |calls|
  {
    if calls != [] {
      var frame := FrameOf(w.parse, line).value;
      var (asked, outcome) := Ask(w, frame, calls[0].capability, unread, requests);
      AskFollowsProtocol(w, line, last, phase, calls[0].capability, unread, requests);
      if !(outcome.Raised? && !calls[0].catches) {
        var more := Calls(w, frame, calls[1..], asked.unread, asked.requests).0;
        var after := Advances(w.parse, phase, asked.events).value;
        CallsFollowProtocol(w, line, last, after, calls[1..], asked.unread, asked.requests);
        AdvancesAppend(w.parse, phase, asked.events, more.events);
      }
    }
  }

  /** Where a line's handling leaves the protocol. */
  function Rest(parse: JsonParser, line: string, last: Value): Phase {
    if Stops(parse, line) then Stopped else Resting(ResultId(parse, line, last))
  }

  lemma ResultFollowsProtocol(parse: JsonParser, phase: Phase, line: string, last: Value, execution: Value, ok: bool)
    requires Handles(phase, line, last) && Reports(parse, line, execution, ok)
    ensures Advances(parse, phase, [Result(ResultId(parse, line, last), execution, ok)])
        == Some(Rest(parse, line, last))
  {
    var result := Result(ResultId(parse, line, last), execution, ok);
    AdvancesStep(parse, phase, result, []);
    assert [result] + [] == [result];
  }

  lemma HandleReports(w: World, line: string, last: Value, unread: seq<string>, requests: nat)
    ensures var events := Handle(w, line, last, unread, requests).events;
            && events != [] && events[|events| - 1].Result?
            && events[|events| - 1].id == ResultId(w.parse, line, last)
            && Reports(w.parse, line, events[|events| - 1].execution, events[|events| - 1].ok)
  {
  }

  lemma HandleFollowsProtocol(w: World, line: string, last: Value, unread: seq<string>, requests: nat)
    ensures Advances(w.parse, Busy(line, last), Handle(w, line, last, unread, requests).events)
         == Some(Rest(w.parse, line, last))
  {
    var handled := Handle(w, line, last, unread, requests);
    var result := handled.events[|handled.events| - 1];
    HandleReports(w, line, last, unread, requests);
    if FrameOf(w.parse, line).Some? && IsExecution(FrameOf(w.parse, line).value) {
      var called := Calls(w, FrameOf(w.parse, line).value, w.conduct(|unread|).calls, unread, requests).0;
      CallsFollowProtocol(w, line, last, Busy(line, last), w.conduct(|unread|).calls, unread, requests);
      AdvancesAppend(w.parse, Busy(line, last), called.events, [result]);
      ResultFollowsProtocol(w.parse, Advances(w.parse, Busy(line, last), called.events).value, line, last,
                            result.execution, result.ok);
    } else {
      assert handled.events == [result];
      ResultFollowsProtocol(w.parse, Busy(line, last), line, last, result.execution, result.ok);
    }
  }

  /**
   Every run keeps to the protocol and ends at rest: each line is taken at rest and followed by one
   result frame, requests are sent in between only and speak for the frame being handled, and every
   answer is fenced.  Lines stay unread exactly when a shutdown frame was handled.
   */
  lemma {:induction false} EveryRunFollowsProtocol(w: World, last: Value, unread: seq<string>, requests: nat)
    ensures var run := Serve(w, last, unread, requests);
            var end := Advances(w.parse, Resting(last), run.events);
            end.Some? && AtRest(end.value) && (end.value.Resting? ==> run.unread == [])
    decreases |unread|
  {
    if unread != [] {
      var line := unread[0];
      var handled := Handle(w, line, last, unread[1..], requests);
      var round := [Taken(line)] + handled.events;
      HandleFollowsProtocol(w, line, last, unread[1..], requests);
      AdvancesStep(w.parse, Resting(last), Taken(line), handled.events);
      if !Stops(w.parse, line) {
        var id := ResultId(w.parse, line, last);
        var more := Serve(w, id, handled.unread, handled.requests);
        EveryRunFollowsProtocol(w, id, handled.unread, handled.requests);
        AdvancesAppend(w.parse, Resting(last), round, more.events);
      }
    }
  }

  // One result per line of the main loop

  function TakenLines(events: seq<Event>): seq<string> {
    if events == [] then []
    else (if events[0].Taken? then [events[0].line] else []) + TakenLines(events[1..])
  }

  function ResultIds(events: seq<Event>): seq<Value> {
    if events == [] then []
    else (if events[0].Result? then [events[0].id] else []) + ResultIds(events[1..])
  }

  /** The ids a sequence of lines is answered with: its own for an object, else that of the last object so far. */
  function LastId(parse: JsonParser, lines: seq<string>, last: Value): Value
    decreases |lines|
  {
    if lines == [] then last
    else
      var v := parse(lines[|lines| - 1]);
      if v.None? || !v.value.Obj? then LastId(parse, lines[..|lines| - 1], last)
      else if Get(v.value, "id").Undefined? then Null
      else Get(v.value, "id")
  }

  /** The line that is still to be answered. */
  function Owed(phase: Phase): seq<string> {
    if phase.Busy? || phase.Waiting? then [phase.line] else []
  }

  function Held(phase: Phase): Value {
    if phase.Stopped? then Null else phase.last
  }

  ghost predicate AnswersEach(parse: JsonParser, lines: seq<string>, ids: seq<Value>, last: Value) {
    |ids| == |lines| && forall k :: 0 <= k < |lines| ==> ids[k] == LastId(parse, lines[..k + 1], last)
  }

  lemma {:induction false} LastIdMoves(parse: JsonParser, line: string, lines: seq<string>, last: Value)
    ensures LastId(parse, [line] + lines, last) == LastId(parse, lines, ResultId(parse, line, last))
    decreases |lines|
  {
    var all := [line] + lines;
    if lines == [] {
      assert all == [line] && all[..0] == [];
    } else {
      assert all[|all| - 1] == lines[|lines| - 1];
      assert all[..|all| - 1] == [line] + lines[..|lines| - 1];
      LastIdMoves(parse, line, lines[..|lines| - 1], last);
    }
  }

  lemma AnswersOneMore(parse: JsonParser, line: string, lines: seq<string>, ids: seq<Value>, last: Value)
    requires AnswersEach(parse, lines, ids, ResultId(parse, line, last))
    ensures AnswersEach(parse, [line] + lines, [ResultId(parse, line, last)] + ids, last)
  {
    var all, allIds := [line] + lines, [ResultId(parse, line, last)] + ids;
    forall k | 0 <= k < |all| ensures allIds[k] == LastId(parse, all[..k + 1], last) {
      if k == 0 {
        assert all[..1] == [line] + [];
        LastIdMoves(parse, line, [], last);
      } else {
        assert all[..k + 1] == [line] + lines[..k];
        LastIdMoves(parse, line, lines[..k], last);
        assert allIds[k] == ids[k - 1];
      }
    }
  }

  lemma {:induction false} NothingAfterStop(parse: JsonParser, events: seq<Event>)
    requires Advances(parse, Stopped, events).Some?
    ensures events == []
  {
  }

  /** In any exchange that follows the protocol to rest, each line taken gets one result, with the id it is due. */
  lemma {:induction false} ProtocolAnswersEachLine(parse: JsonParser, phase: Phase, events: seq<Event>)
    requires Advances(parse, phase, events).Some? && AtRest(Advances(parse, phase, events).value)
    ensures AnswersEach(parse, Owed(phase) + TakenLines(events), ResultIds(events), Held(phase))
    decreases |events|
  {
    if events != [] {
      var next := Advance(parse, phase, events[0]).value;
      ProtocolAnswersEachLine(parse, next, events[1..]);
      var lines, ids := TakenLines(events[1..]), ResultIds(events[1..]);
      match events[0] {
        case Taken(line) =>
          assert Owed(phase) + TakenLines(events) == Owed(next) + lines;
        case Result(id, _, _) =>
          if next.Stopped? { NothingAfterStop(parse, events[1..]); }
          assert Owed(next) + lines == lines;
          assert AnswersEach(parse, lines, ids, ResultId(parse, phase.line, phase.last));
          AnswersOneMore(parse, phase.line, lines, ids, phase.last);
          assert ResultIds(events) == [id] + ids;
          assert TakenLines(events) == [] + lines == lines;
        case _ =>
          assert TakenLines(events) == [] + lines == lines;
          assert ResultIds(events) == [] + ids == ids;
      }
    }
  }

  /**
   Each line the main loop takes gets exactly one result frame, in order.  Its id is the line's own
   when the line is a JSON object, else the id of the last object the main loop took, or null.
   */
  lemma EachLineGetsOneResult(w: World, input: seq<string>)
    ensures var run := Serve(w, Null, input, 0);
            AnswersEach(w.parse, TakenLines(run.events), ResultIds(run.events), Null)
  {
    var run := Serve(w, Null, input, 0);
    EveryRunFollowsProtocol(w, Null, input, 0);
    ProtocolAnswersEachLine(w.parse, Resting(Null), run.events);
    assert Owed(Resting(Null)) + TakenLines(run.events) == TakenLines(run.events);
  }

  /** A line without a frame type is answered with an error. */
  lemma UntypedLineFails(w: World, line: string, last: Value, rest: seq<string>, requests: nat)
    requires FrameOf(w.parse, line).Some? ==> Field(FrameOf(w.parse, line).value, "type") == Null
    ensures ResultIds(Serve(w, last, [line] + rest, requests).events)
         == [ResultId(w.parse, line, last)] + ResultIds(Serve(w, ResultId(w.parse, line, last), rest, requests).events)
  {
    var id := ResultId(w.parse, line, last);
    var handled := Handle(w, line, last, rest, requests);
    assert ([line] + rest)[1..] == rest;
    assert handled == Wire([Result(id, Null, false)], rest, requests);
    var more := Serve(w, id, rest, requests).events;
    var events := [Taken(line)] + [Result(id, Null, false)] + more;
    assert Serve(w, last, [line] + rest, requests).events == events;
    assert events[1..] == [Result(id, Null, false)] + more && events[1..][1..] == more;
  }

  /** So a line that is no JSON object is answered under the id of another line that was. */
  lemma GarbageBorrowsAnId(w: World, request: string, garbage: string, id: string)
    requires FrameOf(w.parse, request).Some? && FrameOf(w.parse, garbage).None?
    requires Field(FrameOf(w.parse, request).value, "id") == Str(id)
        && Field(FrameOf(w.parse, request).value, "type") == Null
    ensures ResultIds(Serve(w, Null, [request, garbage], 0).events) == [Str(id), Str(id)]
  {
    UntypedLineFails(w, request, Null, [garbage], 0);
    UntypedLineFails(w, garbage, Str(id), [], 0);
    assert [request, garbage] == [request] + [garbage] && [garbage] == [garbage] + [];
    assert ResultIds(Serve(w, Str(id), [], 0).events) == [];
  }

  // Executed code

  /** The calls made and whether they returned. */
  function Attempts(events: seq<Event>): seq<(string, bool)> {
    if events == [] then []
    else if !events[0].Requested? then Attempts(events[1..])
    else
      var returned := |events| > 1 && events[1].Answered? && events[1].outcome.Returned?;
      [(events[0].capability, returned)] + Attempts(events[1..])
  }

  lemma AskIsOneAttempt(w: World, frame: Value, capability: string, unread: seq<string>, requests: nat,
                        rest: seq<Event>)
    requires IsExecution(frame) && (rest != [] ==> rest[0].Requested?)
    ensures var (asked, outcome) := Ask(w, frame, capability, unread, requests);
            Attempts(asked.events + rest) == [(capability, outcome.Returned?)] + Attempts(rest)
  {
    var (asked, outcome) := Ask(w, frame, capability, unread, requests);
    var events := asked.events + rest;
    if unread == [] {
      assert events[1..] == rest;
    } else {
      assert events[1..][1..] == rest;
    }
  }

  /**
   Executed code makes its calls in order up to the first failure it does not survive, and is done
   exactly when there is none.
   */
  ghost predicate UpToTheFirstFailure(calls: seq<HostCall>, attempts: seq<(string, bool)>, done: bool) {
    && |attempts| <= |calls|
    && (forall k :: 0 <= k < |attempts| ==> attempts[k].0 == calls[k].capability)
    && (forall k :: 0 <= k < |attempts| && (done || k < |attempts| - 1) ==> attempts[k].1 || calls[k].catches)
    && (done ==> |attempts| == |calls|)
    && (!done ==> attempts != [] && !attempts[|attempts| - 1].1 && !calls[|attempts| - 1].catches)
  }

  lemma OneMoreAttempt(calls: seq<HostCall>, attempts: seq<(string, bool)>, done: bool, call: HostCall, returned: bool)
    requires UpToTheFirstFailure(calls, attempts, done) && (returned || call.catches)
    ensures UpToTheFirstFailure([call] + calls, [(call.capability, returned)] + attempts, done)
  {
  }

  lemma {:induction false} CallsStopAtTheFirstFailure(w: World, frame: Value, calls: seq<HostCall>,
                                                      unread: seq<string>, requests: nat)
    requires IsExecution(frame)
    ensures var (called, done) := Calls(w, frame, calls, unread, requests);
            && (called.events != [] ==> called.events[0].Requested?)
            && UpToTheFirstFailure(calls, Attempts(called.events), done)
    decreases |calls|
  {
    if calls != [] {
      var (asked, outcome) := Ask(w, frame, calls[0].capability, unread, requests);
      HeadAndRest(calls, []);
      if outcome.Raised? && !calls[0].catches {
        AskIsOneAttempt(w, frame, calls[0].capability, unread, requests, []);
        assert asked.events + [] == asked.events;
      } else {
        var (more, done) := Calls(w, frame, calls[1..], asked.unread, asked.requests);
        CallsStopAtTheFirstFailure(w, frame, calls[1..], asked.unread, asked.requests);
        AskIsOneAttempt(w, frame, calls[0].capability, unread, requests, more.events);
        OneMoreAttempt(calls[1..], Attempts(more.events), done, calls[0], outcome.Returned?);
      }
    }
  }

  // Requests are never confused

  function RequestIds(events: seq<Event>): seq<string> {
    if events == [] then []
    else (if events[0].Requested? then [events[0].requestId] else []) + RequestIds(events[1..])
  }

  lemma RequestIdsStep(event: Event, rest: seq<Event>)
    ensures RequestIds([event] + rest) == RequestIds([event]) + RequestIds(rest)
  {
    assert ([event] + rest)[1..] == rest;
  }

  lemma {:induction false} RequestIdsAppend(a: seq<Event>, b: seq<Event>)
    ensures RequestIds(a + b) == RequestIds(a) + RequestIds(b)
    decreases |a|
  {
    if a == [] {
      assert a + b == b;
    } else {
      RequestIdsAppend(a[1..], b);
      HeadAndRest(a, b);
      RequestIdsStep(a[0], a[1..] + b);
      RequestIdsStep(a[0], a[1..]);
      Associative(RequestIds([a[0]]), RequestIds(a[1..]), RequestIds(b));
    }
  }

  ghost predicate Numbered(w: World, from: nat, to: nat, ids: seq<string>) {
    |ids| == to - from && forall i :: 0 <= i < |ids| ==> ids[i] == w.requestId(from + i)
  }

  lemma NumberedJoins(w: World, from: nat, middle: nat, to: nat, a: seq<string>, b: seq<string>)
    requires Numbered(w, from, middle, a) && Numbered(w, middle, to, b)
    ensures Numbered(w, from, to, a + b)
  {
  }

  lemma AskIsNumbered(w: World, frame: Value, capability: string, unread: seq<string>, requests: nat)
    requires IsExecution(frame)
    ensures var asked := Ask(w, frame, capability, unread, requests).0;
            Numbered(w, requests, asked.requests, RequestIds(asked.events))
  {
    var asked := Ask(w, frame, capability, unread, requests).0;
    RequestIdsStep(asked.events[0], asked.events[1..]);
    assert asked.events == [asked.events[0]] + asked.events[1..];
  }

  lemma {:induction false} CallsAreNumbered(w: World, frame: Value, calls: seq<HostCall>, unread: seq<string>,
                                            requests: nat)
    requires IsExecution(frame)
    ensures var called := Calls(w, frame, calls, unread, requests).0;
            Numbered(w, requests, called.requests, RequestIds(called.events))
    decreases |calls|
  {
    if calls != [] {
      var (asked, outcome) := Ask(w, frame, calls[0].capability, unread, requests);
      AskIsNumbered(w, frame, calls[0].capability, unread, requests);
      if !(outcome.Raised? && !calls[0].catches) {
        var more := Calls(w, frame, calls[1..], asked.unread, asked.requests).0;
        CallsAreNumbered(w, frame, calls[1..], asked.unread, asked.requests);
        RequestIdsAppend(asked.events, more.events);
        NumberedJoins(w, requests, asked.requests, more.requests, RequestIds(asked.events), RequestIds(more.events));
      }
    }
  }

  lemma HandleIsNumbered(w: World, line: string, last: Value, unread: seq<string>, requests: nat)
    ensures var handled := Handle(w, line, last, unread, requests);
            Numbered(w, requests, handled.requests, RequestIds(handled.events))
  {
    var handled := Handle(w, line, last, unread, requests);
    if FrameOf(w.parse, line).Some? && IsExecution(FrameOf(w.parse, line).value) {
      var frame := FrameOf(w.parse, line).value;
      var called := Calls(w, frame, w.conduct(|unread|).calls, unread, requests).0;
      CallsAreNumbered(w, frame, w.conduct(|unread|).calls, unread, requests);
      RequestIdsAppend(called.events, [handled.events[|handled.events| - 1]]);
    } else {
      assert handled.requests == requests && |handled.events| == 1;
    }
  }

  lemma {:induction false} RunIsNumbered(w: World, last: Value, unread: seq<string>, requests: nat)
    ensures var run := Serve(w, last, unread, requests);
            Numbered(w, requests, run.requests, RequestIds(run.events))
    decreases |unread|
  {
    if unread != [] {
      var handled := Handle(w, unread[0], last, unread[1..], requests);
      var round := [Taken(unread[0])] + handled.events;
      HandleIsNumbered(w, unread[0], last, unread[1..], requests);
      RequestIdsStep(Taken(unread[0]), handled.events);
      if !Stops(w.parse, unread[0]) {
        var id := ResultId(w.parse, unread[0], last);
        var more := Serve(w, id, handled.unread, handled.requests);
        RunIsNumbered(w, id, handled.unread, handled.requests);
        RequestIdsAppend(round, more.events);
        NumberedJoins(w, requests, handled.requests, more.requests, RequestIds(round), RequestIds(more.events));
      }
    }
  }

  /** The id a request carries is the one of its rank among the requests of the run. */
  lemma {:induction false} RankedRequest(events: seq<Event>, j: nat)
    requires j < |events| && events[j].Requested?
    ensures |RequestIds(events[..j])| < |RequestIds(events)|
    ensures RequestIds(events)[|RequestIds(events[..j])|] == events[j].requestId
  {
    var before, rest := events[..j], events[j + 1..];
    CutAt(events, j);
    RequestIdsAppend(before, [events[j]] + rest);
    RequestIdsStep(events[j], rest);
    assert RequestIds([events[j]]) == [events[j].requestId] + RequestIds([]);
  }

  lemma EarlierRanksLower(events: seq<Event>, i: nat, j: nat)
    requires i < j < |events| && events[i].Requested?
    ensures |RequestIds(events[..i])| < |RequestIds(events[..j])|
  {
    RankedRequest(events[..j], i);
    assert events[..j][..i] == events[..i];
  }

  ghost predicate FreshRequestIds(w: World) {
    forall m: nat, n: nat :: w.requestId(m) == w.requestId(n) ==> m == n
  }

  lemma RequestsDiffer(w: World, input: seq<string>, i: nat, j: nat)
    requires FreshRequestIds(w)
    requires var events := Serve(w, Null, input, 0).events;
             i < |events| && j < |events| && i != j && events[i].Requested? && events[j].Requested?
    ensures var events := Serve(w, Null, input, 0).events; events[i].requestId != events[j].requestId
  {
    var events := Serve(w, Null, input, 0).events;
    RunIsNumbered(w, Null, input, 0);
    RankedRequest(events, i);
    RankedRequest(events, j);
    if i < j { EarlierRanksLower(events, i, j); } else { EarlierRanksLower(events, j, i); }
    var a, b := |RequestIds(events[..i])|, |RequestIds(events[..j])|;
    assert RequestIds(events)[a] == w.requestId(0 + a) && RequestIds(events)[b] == w.requestId(0 + b);
  }

  /** In an exchange that follows the protocol an answer comes right behind the request it is fenced by. */
  lemma {:induction false} AnswersFollowRequests(parse: JsonParser, phase: Phase, events: seq<Event>, i: nat)
    requires Advances(parse, phase, events).Some? && i < |events| && events[i].Answered?
    requires i == 0 ==> !phase.Waiting?
    ensures i > 0 && events[i - 1].Requested? && AnsweredFor(parse, events[i], events[i - 1].requestId)
    decreases |events|
  {
    var next := Advance(parse, phase, events[0]).value;
    if i == 1 {
      var after := Advance(parse, next, events[1]);
      assert Advances(parse, next, events[1..]).Some? && events[1..][0] == events[1];
      assert next.Waiting? && after.Some?;
    } else {
      AnswersFollowRequests(parse, next, events[1..], i - 1);
    }
  }

  /** The answer is fenced by this request, whatever frame is being handled. */
  ghost predicate AnsweredFor(parse: JsonParser, answer: Event, requestId: string)
    requires answer.Answered?
  {
    exists frame :: Fenced(parse, answer, requestId, frame)
  }

  /**
   With fresh ids, a line that made one call of a run return would not have made any other call
   return: it is fenced by the request right before it and by no other.
   */
  lemma NoResponseServesTwoRequests(w: World, input: seq<string>, events: seq<Event>, i: nat, j: nat, frame: Value)
    requires FreshRequestIds(w) && events == Serve(w, Null, input, 0).events
    requires i < |events| && events[i].Answered? && events[i].outcome.Returned?
    requires j < |events| && events[j].Requested?
    ensures i > 0 && events[i - 1].Requested? && AnsweredFor(w.parse, events[i], events[i - 1].requestId)
    ensures j != i - 1 ==> !Fenced(w.parse, events[i], events[j].requestId, frame)
  {
    EveryRunFollowsProtocol(w, Null, input, 0);
    AnswersFollowRequests(w.parse, Resting(Null), events, i);
    if j != i - 1 {
      RequestsDiffer(w, input, i - 1, j);
      FencedByOne(w.parse, events[i], events[i - 1].requestId, events[j].requestId, frame);
    }
  }

  /** The line that made a call return carries one request id. */
  lemma FencedByOne(parse: JsonParser, answer: Event, a: string, b: string, frame: Value)
    requires answer.Answered? && answer.outcome.Returned? && AnsweredFor(parse, answer, a) && a != b
    ensures !Fenced(parse, answer, b, frame)
  {
  }
}
