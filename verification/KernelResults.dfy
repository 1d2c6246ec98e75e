/** What the result frames of a run say: when the kernel reports that a line went well. */
module KernelResults {
  import opened Wrappers
  import opened Text
  import opened Json
  import Sse
  import opened Kernel
  import opened KernelLaws

  /** All calls were made, each returned or was caught, and the code did not raise in the end. */
  ghost predicate WentThrough(conduct: Conduct, attempts: seq<(string, bool)>) {
    && |attempts| == |conduct.calls|
    && (forall k :: 0 <= k < |attempts| ==> attempts[k].0 == conduct.calls[k].capability)
    && (forall k :: 0 <= k < |attempts| ==> attempts[k].1 || conduct.calls[k].catches)
    && !conduct.raises
  }

  predicate IsFence(v: Value) {
    v.Str? && v.s != ""
  }

  /** What it takes for a line to go well, with so many lines unread behind it and this on the wire in between. */
  ghost predicate GoesWell(w: World, line: string, unread: nat, between: seq<Event>) {
    var frame := w.parse(line);
    && frame.Some? && frame.value.Obj?
    && var kind := Get(frame.value, "type");
    || (&& kind == Str("execute")
        && IsFence(Get(frame.value, "executionId")) && IsFence(Get(frame.value, "kernelGeneration"))
        && IsFence(Get(frame.value, "hostToken"))
        && WentThrough(w.conduct(unread), Attempts(between)))
    || ((kind == Str("snapshot") || kind == Str("restore")) && !Get(frame.value, "path").Undefined? && w.stores(unread))
    || kind == Str("shutdown")
  }

  /** A line is taken at `t`, and `r` is the first result behind it. */
  predicate IsRound(events: seq<Event>, t: nat, r: nat) {
    && t < r < |events| && events[t].Taken? && events[r].Result?
    && forall k :: t < k < r ==> !events[k].Taken? && !events[k].Result?
  }

  /** Of so many lines, those still unread after these events. */
  function Left(total: nat, events: seq<Event>): nat {
    if |Lines(events)| <= total then total - |Lines(events)| else 0
  }

  ghost predicate ReportsTruly(w: World, events: seq<Event>, total: nat, t: nat, r: nat)
    requires IsRound(events, t, r)
  {
    events[r].ok <==> GoesWell(w, events[t].line, Left(total, events[..t + 1]), events[t + 1..r])
  }

  ghost predicate AllReportTruly(w: World, events: seq<Event>, total: nat) {
    forall t: nat, r: nat :: IsRound(events, t, r) ==> ReportsTruly(w, events, total, t, r)
  }

  lemma {:induction false} CallsOnlyAskAndAnswer(w: World, frame: Value, calls: seq<HostCall>, unread: seq<string>,
                                                 requests: nat)
    requires IsExecution(frame)
    ensures forall e :: e in Calls(w, frame, calls, unread, requests).0.events ==> e.Requested? || e.Answered?
    decreases |calls|
  {
    if calls != [] {
      var (asked, outcome) := Ask(w, frame, calls[0].capability, unread, requests);
      CallsOnlyAskAndAnswer(w, frame, calls[1..], asked.unread, asked.requests);
    }
  }

  lemma DoneWhenAllSurvive(calls: seq<HostCall>, attempts: seq<(string, bool)>, done: bool, raises: bool)
    requires UpToTheFirstFailure(calls, attempts, done)
    ensures done && !raises <==> WentThrough(Conduct(calls, raises), attempts)
  {
  }

  /** One line: nothing but requests and answers, and then a result that is ok when the line went well. */
  lemma HandlingReportsTruly(w: World, line: string, last: Value, unread: seq<string>, requests: nat)
    returns (between: seq<Event>, result: Event)
    ensures Handle(w, line, last, unread, requests).events == between + [result] && result.Result?
    ensures forall e :: e in between ==> e.Requested? || e.Answered?
    ensures result.ok <==> GoesWell(w, line, |unread|, between)
  {
    var handled := Handle(w, line, last, unread, requests);
    if FrameOf(w.parse, line).Some? && IsExecution(FrameOf(w.parse, line).value) {
      between, result := ExecutionReportsTruly(w, line, last, unread, requests);
    } else {
      between, result := [], handled.events[0];
      assert handled.events == [result] && [] + [result] == [result];
      NoFences(w.parse, line);
    }
  }

  lemma NoFences(parse: Sse.JsonParser, line: string)
    requires FrameOf(parse, line).None? || !IsExecution(FrameOf(parse, line).value)
    ensures parse(line).Some? && parse(line).value.Obj? && Get(parse(line).value, "type") == Str("execute") ==>
              var frame := parse(line).value;
              || !IsFence(Get(frame, "executionId")) || !IsFence(Get(frame, "kernelGeneration"))
              || !IsFence(Get(frame, "hostToken"))
  {
  }

  lemma ExecutionReportsTruly(w: World, line: string, last: Value, unread: seq<string>, requests: nat)
    returns (between: seq<Event>, result: Event)
    requires FrameOf(w.parse, line).Some? && IsExecution(FrameOf(w.parse, line).value)
    ensures Handle(w, line, last, unread, requests).events == between + [result] && result.Result?
    ensures forall e :: e in between ==> e.Requested? || e.Answered?
    ensures result.ok <==> GoesWell(w, line, |unread|, between)
  {
    var frame, conduct := FrameOf(w.parse, line).value, w.conduct(|unread|);
    var (called, done) := Calls(w, frame, conduct.calls, unread, requests);
    CallsOnlyAskAndAnswer(w, frame, conduct.calls, unread, requests);
    CallsStopAtTheFirstFailure(w, frame, conduct.calls, unread, requests);
    DoneWhenAllSurvive(conduct.calls, Attempts(called.events), done, conduct.raises);
    between := called.events;
    result := Result(ResultId(w.parse, line, last), Field(frame, "executionId"), done && !conduct.raises);
  }

  lemma FirstRound(line: string, between: seq<Event>, result: Event, more: seq<Event>, t: nat, r: nat)
    requires result.Result? && forall e :: e in between ==> e.Requested? || e.Answered?
    requires var round := [Taken(line)] + between + [result];
             IsRound(round + more, t, r) && t < |round|
    ensures var round := [Taken(line)] + between + [result];
            && t == 0 && r == |round| - 1 && (round + more)[r] == result
            && (round + more)[1..r] == between && (round + more)[..1] == [Taken(line)]
  {
    var round := [Taken(line)] + between + [result];
    var n := |round|;
    assert forall k :: 1 <= k < n - 1 ==> round[k] == between[k - 1] && between[k - 1] in between;
    assert (round + more)[n - 1] == result;
  }

  lemma LaterRound(round: seq<Event>, more: seq<Event>, t: nat, r: nat)
    requires |round| <= t && IsRound(round + more, t, r)
    ensures IsRound(more, t - |round|, r - |round|)
    ensures (round + more)[t] == more[t - |round|] && (round + more)[r] == more[r - |round|]
    ensures (round + more)[t + 1..r] == more[t - |round| + 1..r - |round|]
    ensures (round + more)[..t + 1] == round + more[..t - |round| + 1]
  {
    forall k | t - |round| < k < r - |round| ensures !more[k].Taken? && !more[k].Result? {
      assert (round + more)[|round| + k] == more[k];
    }
  }

  lemma LeftAfter(total: nat, rest: nat, a: seq<Event>, b: seq<Event>)
    requires |Lines(a)| + rest == total
    ensures Left(total, a + b) == Left(rest, b)
  {
    LinesAppend(a, b);
  }

  lemma RoundsJoin(w: World, line: string, between: seq<Event>, result: Event, more: seq<Event>, total: nat, rest: nat)
    requires result.Result? && forall e :: e in between ==> e.Requested? || e.Answered?
    requires total > 0 && (result.ok <==> GoesWell(w, line, total - 1, between))
    requires |Lines([Taken(line)] + between + [result])| + rest == total
    requires AllReportTruly(w, more, rest)
    ensures AllReportTruly(w, [Taken(line)] + between + [result] + more, total)
  {
    var round := [Taken(line)] + between + [result];
    forall t: nat, r: nat | IsRound(round + more, t, r) ensures ReportsTruly(w, round + more, total, t, r) {
      if t < |round| {
        FirstRound(line, between, result, more, t, r);
        assert Lines([Taken(line)]) == [line] + [];
      } else {
        LaterRound(round, more, t, r);
        LeftAfter(total, rest, round, more[..t - |round| + 1]);
        assert ReportsTruly(w, more, rest, t - |round|, r - |round|);
      }
    }
  }

  /**
   Over every run, a result frame says ok exactly when its line went well: an execute frame with its
   three fences whose code made all its calls, survived those that failed and did not raise; a
   snapshot or restore that names a path and succeeds; a shutdown.
   */
  lemma {:induction false} ResultsReportTruly(w: World, last: Value, unread: seq<string>, requests: nat)
    ensures AllReportTruly(w, Serve(w, last, unread, requests).events, |unread|)
    decreases |unread|
  {
    if unread != [] {
      var line, id := unread[0], ResultId(w.parse, unread[0], last);
      var handled := Handle(w, line, last, unread[1..], requests);
      var between, result := HandlingReportsTruly(w, line, last, unread[1..], requests);
      LinesOfRound(w, line, last, unread, requests, between + [result]);
      var more := if Stops(w.parse, line) then [] else Serve(w, id, handled.unread, handled.requests).events;
      if !Stops(w.parse, line) {
        ResultsReportTruly(w, id, handled.unread, handled.requests);
      }
      Associative([Taken(line)], between, [result]);
      RoundsJoin(w, line, between, result, more, |unread|, |handled.unread|);
      ServeStep(w, last, unread, requests);
    }
  }

  lemma LinesOfRound(w: World, line: string, last: Value, unread: seq<string>, requests: nat, events: seq<Event>)
    requires unread != [] && events == Handle(w, line, last, unread[1..], requests).events
    ensures |Lines([Taken(line)] + events)| + |Handle(w, line, last, unread[1..], requests).unread| == |unread|
  {
    HandleReadsInOrder(w, line, last, unread[1..], requests);
    LinesStep(Taken(line), events);
    assert Lines([Taken(line)]) == [line] + [];
  }

  lemma ServeStep(w: World, last: Value, unread: seq<string>, requests: nat)
    requires unread != []
    ensures var handled := Handle(w, unread[0], last, unread[1..], requests);
            var more := if Stops(w.parse, unread[0]) then []
                        else Serve(w, ResultId(w.parse, unread[0], last), handled.unread, handled.requests).events;
            Serve(w, last, unread, requests).events == [Taken(unread[0])] + handled.events + more
  {
    var round := [Taken(unread[0])] + Handle(w, unread[0], last, unread[1..], requests).events;
    assert round + [] == round;
  }

  // Where a run ends

  predicate IsShutdown(parse: Sse.JsonParser, line: string) {
    parse(line).Some? && parse(line).value.Obj? && Get(parse(line).value, "type") == Str("shutdown")
  }

  lemma {:induction false} TakenLinesAppend(a: seq<Event>, b: seq<Event>)
    ensures TakenLines(a + b) == TakenLines(a) + TakenLines(b)
  {
    if a == [] {
      assert a + b == b;
    } else {
      assert (a + b)[1..] == a[1..] + b;
      TakenLinesAppend(a[1..], b);
    }
  }

  lemma {:induction false} NoneTaken(events: seq<Event>)
    requires forall e :: e in events ==> !e.Taken?
    ensures TakenLines(events) == []
  {
    if events != [] {
      assert events[0] in events;
      NoneTaken(events[1..]);
    }
  }

  /** No line taken but the last is a shutdown, and if lines are left unread the last is one. */
  ghost predicate EndsAtShutdown(parse: Sse.JsonParser, taken: seq<string>, unread: seq<string>) {
    && (forall k :: 0 <= k < |taken| - 1 ==> !IsShutdown(parse, taken[k]))
    && (unread != [] ==> taken != [] && IsShutdown(parse, taken[|taken| - 1]))
  }

  lemma OneMoreTaken(parse: Sse.JsonParser, line: string, taken: seq<string>, unread: seq<string>)
    requires EndsAtShutdown(parse, taken, unread) && (IsShutdown(parse, line) ==> taken == [])
    requires taken == [] && unread != [] ==> IsShutdown(parse, line)
    ensures EndsAtShutdown(parse, [line] + taken, unread)
  {
    var all := [line] + taken;
    forall k | 0 <= k < |all| - 1 ensures !IsShutdown(parse, all[k]) {
      if k > 0 {
        assert all[k] == taken[k - 1];
      }
    }
  }

  lemma HandlingTakesNothing(w: World, line: string, last: Value, unread: seq<string>, requests: nat)
    ensures TakenLines(Handle(w, line, last, unread, requests).events) == []
  {
    var between, result := HandlingReportsTruly(w, line, last, unread, requests);
    NoneTaken(between + [result]);
  }

  lemma RoundTakes(line: string, handled: seq<Event>, more: seq<Event>)
    requires TakenLines(handled) == []
    ensures TakenLines([Taken(line)] + handled + more) == [line] + TakenLines(more)
  {
    TakenLinesAppend([Taken(line)] + handled, more);
    TakenLinesAppend([Taken(line)], handled);
    assert TakenLines([Taken(line)]) == [line] + [];
  }

  /** Every run ends at the first shutdown it takes, and at the end of the input if it takes none. */
  lemma {:induction false} RunEndsAtShutdown(w: World, last: Value, unread: seq<string>, requests: nat)
    ensures var run := Serve(w, last, unread, requests);
            EndsAtShutdown(w.parse, TakenLines(run.events), run.unread)
    decreases |unread|
  {
    if unread != [] {
      var line, id := unread[0], ResultId(w.parse, unread[0], last);
      var handled := Handle(w, line, last, unread[1..], requests);
      ServeStep(w, last, unread, requests);
      HandlingTakesNothing(w, line, last, unread[1..], requests);
      if Stops(w.parse, line) {
        RoundTakes(line, handled.events, []);
        OneMoreTaken(w.parse, line, [], []);
      } else {
        var more := Serve(w, id, handled.unread, handled.requests);
        RunEndsAtShutdown(w, id, handled.unread, handled.requests);
        RoundTakes(line, handled.events, more.events);
        OneMoreTaken(w.parse, line, TakenLines(more.events), more.unread);
      }
    }
  }

  // What an answer is

  /** A response to this request, of this execution and generation of the kernel. */
  predicate IsResponse(frame: Value, requestId: string, executionId: string, generation: string) {
    && frame.Obj? && Get(frame, "type") == Str("host_response") && Get(frame, "requestId") == Str(requestId)
    && Get(frame, "executionId") == Str(executionId) && Get(frame, "kernelGeneration") == Str(generation)
  }

  /** A call returns exactly from an affirmative response to it, and then the response's result, or null. */
  lemma AnswerDecides(parse: Sse.JsonParser, line: string, requestId: string, executionId: string, generation: string)
    ensures var answer, frame := Answer(parse, line, requestId, executionId, generation), parse(line);
            && (answer.Returned? <==> frame.Some? && IsResponse(frame.value, requestId, executionId, generation)
                                      && Truthy(Get(frame.value, "ok")))
            && (answer.Returned? ==>
                  answer.value == if Get(frame.value, "result").Undefined? then Null else Get(frame.value, "result"))
  {
  }

  /** The affirmative `ok` of an answer is anything but a falsy value. */
  lemma FalsyValues(v: Value)
    ensures !Truthy(v) <==> v in {Undefined, Null, Bool(false), Int(0), Str(""), Arr([]), Obj([])}
  {
  }
}
