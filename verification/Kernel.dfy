/**
 The Python kernel's frame protocol: the host bridge and the main loop.

 `json.loads` is a parameter.  Executed code is known by its conduct: the host calls it makes, in
 order, whether it survives their failing, and whether it raises in the end.  All laws hold for
 every conduct, so also for code whose next call depends on the answers so far.
 */
module Kernel {
  import opened Wrappers
  import opened Text
  import opened Json
  import opened Sse

  datatype HostCall = HostCall(capability: string, catches: bool)

  datatype Conduct = Conduct(calls: seq<HostCall>, raises: bool)

  /**
   What the kernel does not decide: what the code does that is executed with so many lines unread,
   whether a snapshot or restore then succeeds, and the `n`th request id.
   */
  datatype World = World(parse: JsonParser, conduct: nat -> Conduct, stores: nat -> bool, requestId: nat -> string)

  datatype Outcome = Returned(value: Value) | Raised

  /** What happens on the wire, in order: lines read and frames sent. */
  datatype Event =
    | Taken(line: string)
    | Requested(requestId: string, executionId: string, generation: string, token: string, capability: string)
    | Answered(line: string, outcome: Outcome)
    | Result(id: Value, execution: Value, ok: bool)

  // Frames

  /** `frame.get(name)`. */
  function Field(frame: Value, name: string): Value {
    if Get(frame, name).Undefined? then Null else Get(frame, name)
  }

  predicate Truthy(v: Value) {
    match v
    case Undefined => false
    case Null => false
    case Bool(b) => b
    case Int(n) => n != 0
    case Str(s) => s != ""
    case Arr(items) => items != []
    case Obj(members) => members != []
  }

  predicate IsText(v: Value) {
    v.Str? && v.s != ""
  }

  /** The JSON object a line holds, if it holds one. */
  function FrameOf(parse: JsonParser, line: string): (r: Option<Value>)
    ensures r.Some? ==> r.value.Obj?
  {
    var v :- parse(line);
    if v.Obj? then Some(v) else None
  }

  predicate IsExecution(frame: Value) {
    && Field(frame, "type") == Str("execute")
    && IsText(Field(frame, "executionId")) && IsText(Field(frame, "kernelGeneration"))
        && IsText(Field(frame, "hostToken"))
  }

  predicate Responds(frame: Value, requestId: string, executionId: string, generation: string) {
    && Field(frame, "type") == Str("host_response") && Field(frame, "requestId") == Str(requestId)
    && Field(frame, "executionId") == Str(executionId) && Field(frame, "kernelGeneration") == Str(generation)
  }

  /** What the line that comes back makes of a pending call. */
  function Answer(parse: JsonParser, line: string, requestId: string, executionId: string,
                  generation: string): Outcome {
    match FrameOf(parse, line)
    case None => Raised
    case Some(frame) =>
      if Responds(frame, requestId, executionId, generation) && Truthy(Field(frame, "ok"))
      then Returned(Field(frame, "result")) else Raised
  }

  // The run, as a function of the input

  /** The wire after a stretch of the run: what happened, what is unread, the requests made so far. */
  datatype Wire = Wire(events: seq<Event>, unread: seq<string>, requests: nat)

  /** Host calls made one after the other; `done` when no failure got through. */
  function Calls(w: World, frame: Value, calls: seq<HostCall>, unread: seq<string>, requests: nat): (r: (Wire, bool))
    requires IsExecution(frame)
    ensures |r.0.unread| <= |unread|
    decreases |calls|
  {
    if calls == [] then (Wire([], unread, requests), true)
    else
      var (asked, outcome) := Ask(w, frame, calls[0].capability, unread, requests);
      if outcome.Raised? && !calls[0].catches then (asked, false)
      else
        var (more, done) := Calls(w, frame, calls[1..], asked.unread, asked.requests);
        (Wire(asked.events + more.events, more.unread, more.requests), done)
  }

  /** One host call. */
  function Ask(w: World, frame: Value, capability: string, unread: seq<string>, requests: nat): (r: (Wire, Outcome))
    requires IsExecution(frame)
    ensures |r.0.unread| <= |unread|
  {
    var id, execution, generation := w.requestId(requests), Field(frame, "executionId").s,
        Field(frame, "kernelGeneration").s;
    var request := Requested(id, execution, generation, Field(frame, "hostToken").s, capability);
    if unread == [] then (Wire([request], [], requests + 1), Raised)
    else
      var outcome := Answer(w.parse, unread[0], id, execution, generation);
      (Wire([request, Answered(unread[0], outcome)], unread[1..], requests + 1), outcome)
  }

  /** The id the next result frame carries: the line's own if it is an object, else what was there. */
  function ResultId(parse: JsonParser, line: string, last: Value): Value {
    match FrameOf(parse, line)
    case None => last
    case Some(frame) => Field(frame, "id")
  }

  predicate Stops(parse: JsonParser, line: string) {
    FrameOf(parse, line).Some? && Field(FrameOf(parse, line).value, "type") == Str("shutdown")
  }

  /** All that a line in the main loop brings about after it is taken. */
  function Handle(w: World, line: string, last: Value, unread: seq<string>, requests: nat): (r: Wire)
    ensures |r.unread| <= |unread|
  {
    var id := ResultId(w.parse, line, last);
    match FrameOf(w.parse, line)
    case None => Wire([Result(id, Null, false)], unread, requests)
    case Some(frame) =>
      var kind := Field(frame, "type");
      if IsExecution(frame) then
        var conduct := w.conduct(|unread|);
        var (called, done) := Calls(w, frame, conduct.calls, unread, requests);
        called.(events := called.events + [Result(id, Field(frame, "executionId"), done && !conduct.raises)])
      else if kind == Str("execute") then Wire([Result(id, Field(frame, "executionId"), false)], unread, requests)
      else if kind == Str("snapshot") || kind == Str("restore") then
        if !Get(frame, "path").Undefined? && w.stores(|unread|)
            then Wire([Result(id, Undefined, true)], unread, requests)
        else Wire([Result(id, Null, false)], unread, requests)
      else if kind == Str("shutdown") then Wire([Result(id, Undefined, true)], unread, requests)
      else Wire([Result(id, Null, false)], unread, requests)
  }

  /** The main loop. */
  function Serve(w: World, last: Value, unread: seq<string>, requests: nat): Wire
    decreases |unread|
  {
    if unread == [] then Wire([], [], requests)
    else
      var handled := Handle(w, unread[0], last, unread[1..], requests);
      var round := handled.(events := [Taken(unread[0])] + handled.events);
      if Stops(w.parse, unread[0]) then round
      else Behind(round.events, Serve(w, ResultId(w.parse, unread[0], last), round.unread, round.requests))
  }

  function Behind(events: seq<Event>, wire: Wire): Wire {
    wire.(events := events + wire.events)
  }

  // The objects

  /** Standard input and output, with a log of what passed through them. */
  class Pipe {
    var unread: seq<string>
    var events: seq<Event>
    var requests: nat

    constructor (lines: seq<string>)
      ensures unread == lines && events == [] && requests == 0
    {
      unread, events, requests := lines, [], 0;
    }

    method Log(event: Event)
      modifies this`events
      ensures events == old(events) + [event]
    {
      events := events + [event];
    }

    method NextLine() returns (line: string)
      requires unread != []
      modifies this`unread
      ensures line == old(unread)[0] && unread == old(unread)[1..]
    {
      line := unread[0];
      unread := unread[1..];
    }
  }

  class HostBridge {
    var executionId: Option<string>
    var generation: Option<string>
    var token: Option<string>

    constructor ()
      ensures Idle()
    {
      executionId, generation, token := None, None, None;
    }

    predicate Idle()
      reads this
    {
      executionId.None? && generation.None? && token.None?
    }

    /** The fields are those of this execute frame. */
    predicate Serves(frame: Value)
      reads this
    {
      && IsExecution(frame)
      && executionId == Some(Field(frame, "executionId").s)
      && generation == Some(Field(frame, "kernelGeneration").s)
      && token == Some(Field(frame, "hostToken").s)
    }

    method Begin(executionId: string, generation: string, token: string)
      modifies this
      ensures this.executionId == Some(executionId) && this.generation == Some(generation) && this.token == Some(token)
    {
      this.executionId, this.generation, this.token := Some(executionId), Some(generation), Some(token);
    }

    method End()
      modifies this
      ensures Idle()
    {
      executionId, generation, token := None, None, None;
    }

    /** Outside an execution a call raises without touching the wire. */
    method Call(w: World, pipe: Pipe, capability: string, ghost frame: Value) returns (outcome: Outcome)
      requires Idle() || Serves(frame)
      modifies pipe
      ensures Idle() ==> outcome.Raised? && pipe.unread == old(pipe.unread) && pipe.events == old(pipe.events)
      ensures Serves(frame) ==>
                var (asked, answer) := Ask(w, frame, capability, old(pipe.unread), old(pipe.requests));
                && outcome == answer && pipe.unread == asked.unread && pipe.requests == asked.requests
                && pipe.events == old(pipe.events) + asked.events
    {
      if executionId.None? || generation.None? || token.None? {
        return Raised;
      }
      var requestId := w.requestId(pipe.requests);
      pipe.requests := pipe.requests + 1;
      var request := Requested(requestId, executionId.value, generation.value, token.value, capability);
      pipe.Log(request);
      if pipe.unread == [] {
        return Raised;
      }
      var line := pipe.NextLine();
      outcome := Answer(w.parse, line, requestId, executionId.value, generation.value);
      pipe.Log(Answered(line, outcome));
      assert old(pipe.events) + [request] + [Answered(line, outcome)]
          == old(pipe.events) + [request, Answered(line, outcome)];
    }

    /** The executed code, as far as the wire sees it. */
    method Execute(w: World, pipe: Pipe, calls: seq<HostCall>, ghost frame: Value) returns (done: bool)
      requires Serves(frame)
      modifies pipe
      ensures var (called, finished) := Calls(w, frame, calls, old(pipe.unread), old(pipe.requests));
              && done == finished && pipe.unread == called.unread && pipe.requests == called.requests
              && pipe.events == old(pipe.events) + called.events
    {
      assert calls[0..] == calls;
      for i := 0 to |calls|
        invariant CallsGoOn(w, frame, calls, old(pipe.unread), old(pipe.requests), old(pipe.events),
                            calls[i..], pipe.unread, pipe.requests, pipe.events)
      {
        assert calls[i..][1..] == calls[i + 1..];
        ghost var before := Wire(pipe.events, pipe.unread, pipe.requests);
        var outcome := Call(w, pipe, calls[i].capability, frame);
        ghost var rest := Calls(w, frame, calls[i + 1..], pipe.unread, pipe.requests);
        ghost var asked := Ask(w, frame, calls[i].capability, before.unread, before.requests);
        Associative(before.events, asked.0.events, rest.0.events);
        if outcome.Raised? && !calls[i].catches {
          return false;
        }
      }
      done := true;
    }
  }

  /** From here on the calls still to make lead to where all of them led from the start. */
  ghost predicate CallsGoOn(w: World, frame: Value, calls: seq<HostCall>, unread: seq<string>, requests: nat,
                            events: seq<Event>,
                            calls': seq<HostCall>, unread': seq<string>, requests': nat, events': seq<Event>)
    requires IsExecution(frame)
  {
    var (all, allDone) := Calls(w, frame, calls, unread, requests);
    var (rest, restDone) := Calls(w, frame, calls', unread', requests');
    && allDone == restDone && all.unread == rest.unread && all.requests == rest.requests
    && events + all.events == events' + rest.events
  }

  /** The body of the main loop, after the line is read. */
  method HandleLine(w: World, pipe: Pipe, bridge: HostBridge, line: string, last: Value) returns (id: Value, stop: bool)
    requires bridge.Idle()
    modifies pipe, bridge
    ensures bridge.Idle()
    ensures id == ResultId(w.parse, line, last) && stop == Stops(w.parse, line)
    ensures var handled := Handle(w, line, last, old(pipe.unread), old(pipe.requests));
            && pipe.unread == handled.unread && pipe.requests == handled.requests
            && pipe.events == old(pipe.events) + handled.events
  {
    id, stop := last, false;
    var parsed := w.parse(line);
    if parsed.None? || !parsed.value.Obj? {
      pipe.Log(Result(id, Null, false));
      return;
    }
    var frame := parsed.value;
    var kind := Field(frame, "type");
    id := Field(frame, "id");
    var ok := false;
    var executionId := Null;
    if kind == Str("execute") {
      executionId := Field(frame, "executionId");
      var generation, token := Field(frame, "kernelGeneration"), Field(frame, "hostToken");
      if IsText(executionId) && IsText(generation) && IsText(token) {
        var conduct := w.conduct(|pipe.unread|);
        bridge.Begin(executionId.s, generation.s, token.s);
        var done := bridge.Execute(w, pipe, conduct.calls, frame);
        bridge.End();
        ok := done && !conduct.raises;
      }
    } else if kind == Str("snapshot") || kind == Str("restore") {
      ok := !Get(frame, "path").Undefined? && w.stores(|pipe.unread|);
    } else if kind == Str("shutdown") {
      ok, stop := true, true;
    }
    if ok && kind != Str("execute") {
      executionId := Undefined;
    }
    pipe.Log(Result(id, executionId, ok));
  }

  /** `main`: between frames the bridge is empty. */
  method Run(w: World, pipe: Pipe, bridge: HostBridge)
    requires bridge.Idle() && pipe.events == [] && pipe.requests == 0
    modifies pipe, bridge
    ensures bridge.Idle()
    ensures Wire(pipe.events, pipe.unread, pipe.requests) == Serve(w, Null, old(pipe.unread), 0)
  {
    var last := Null;
    var stopped := false;
    ghost var all := Serve(w, Null, pipe.unread, 0);
    while !stopped && pipe.unread != []
      invariant bridge.Idle()
      invariant all == if stopped then Wire(pipe.events, pipe.unread, pipe.requests)
                       else Behind(pipe.events, Serve(w, last, pipe.unread, pipe.requests))
      decreases !stopped, |pipe.unread|
    {
      ghost var before, unread, requests, last' := pipe.events, pipe.unread, pipe.requests, last;
      var line := pipe.NextLine();
      pipe.Log(Taken(line));
      last, stopped := HandleLine(w, pipe, bridge, line, last);
      RoundBehind(w, before, last', unread, requests);
    }
  }

  /** One turn of the main loop adds its round to what happened before. */
  lemma RoundBehind(w: World, before: seq<Event>, last: Value, unread: seq<string>, requests: nat)
    requires unread != []
    ensures var handled := Handle(w, unread[0], last, unread[1..], requests);
            var events := before + [Taken(unread[0])] + handled.events;
            Behind(before, Serve(w, last, unread, requests)) ==
            if Stops(w.parse, unread[0]) then handled.(events := events)
            else Behind(events, Serve(w, ResultId(w.parse, unread[0], last), handled.unread, handled.requests))
  {
    var handled := Handle(w, unread[0], last, unread[1..], requests);
    Associative(before, [Taken(unread[0])], handled.events);
    if !Stops(w.parse, unread[0]) {
      var more := Serve(w, ResultId(w.parse, unread[0], last), handled.unread, handled.requests);
      Associative(before, [Taken(unread[0])] + handled.events, more.events);
    }
  }
}
