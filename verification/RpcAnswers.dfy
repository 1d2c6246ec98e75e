/** What a line is answered, and which subscriptions live behind it. */
module RpcAnswers {
  import opened Wrappers
  import opened Text
  import opened Json
  import Sse
  import opened Rpc
  import opened RpcLaws
  import opened SseContents

  // White space around a text

  /** `t` is `s` without the white space around it. */
  ghost predicate Strips(s: string, t: string) {
    && (t == "" || (!IsSpace(t[0]) && !IsSpace(t[|t| - 1])))
    && exists before: string, behind: string :: AllSpace(before) && AllSpace(behind) && s == before + t + behind
  }

  lemma {:induction false} StartIsStripped(before: string, rest: string)
    requires AllSpace(before) && (rest == "" || !IsSpace(rest[0]))
    ensures Sse.TrimStart(before + rest) == rest
  {
    if before == "" {
      assert before + rest == rest;
      if rest != "" {
        SpaceIs(rest[0]);
      }
    } else {
      assert (before + rest)[1..] == before[1..] + rest;
      SpaceIs(before[0]);
      StartIsStripped(before[1..], rest);
    }
  }

  lemma {:induction false} EndIsStripped(t: string, behind: string)
    requires AllSpace(behind) && (t == "" || !IsSpace(t[|t| - 1]))
    ensures TrimEnd(t + behind) == t
    decreases |behind|
  {
    if behind == "" {
      assert t + behind == t;
      if t != "" {
        SpaceIs(t[|t| - 1]);
      }
    } else {
      var n := |behind| - 1;
      assert (t + behind)[..|t + behind| - 1] == t + behind[..n];
      SpaceIs(behind[n]);
      EndIsStripped(t, behind[..n]);
    }
  }

  lemma {:induction false} SpacesTrim(s: string)
    requires AllSpace(s)
    ensures Trim(s) == ""
  {
    StartIsStripped(s, "");
    assert s + "" == s;
  }

  lemma StrippedIsTrimmed(s: string, t: string)
    requires Strips(s, t)
    ensures t == Trim(s)
  {
    var before: string, behind: string :|
      AllSpace(before) && AllSpace(behind) && s == before + t + behind;
    if t == "" {
      SpacesTrim(s);
    } else {
      Associative(before, t, behind);
      StartIsStripped(before, t + behind);
      EndIsStripped(t, behind);
    }
  }

  lemma {:induction false} EndTrimmed(s: string) returns (behind: string)
    ensures AllSpace(behind) && s == TrimEnd(s) + behind
    ensures TrimEnd(s) == "" || !IsSpace(TrimEnd(s)[|TrimEnd(s)| - 1])
    decreases |s|
  {
    behind := "";
    if s != "" {
      SpaceIs(s[|s| - 1]);
      if Sse.IsJsSpace(s[|s| - 1]) {
        var rest := EndTrimmed(s[..|s| - 1]);
        behind := OneMoreBehind(s, rest);
      }
    }
  }

  lemma OneMoreBehind(s: string, rest: string) returns (behind: string)
    requires s != "" && Sse.IsJsSpace(s[|s| - 1])
    requires AllSpace(rest) && s[..|s| - 1] == TrimEnd(s[..|s| - 1]) + rest
    ensures AllSpace(behind) && s == TrimEnd(s) + behind
  {
    behind := rest + [s[|s| - 1]];
    SpaceIs(s[|s| - 1]);
    LastBehind(s, TrimEnd(s), rest);
  }

  lemma LastBehind<T>(s: seq<T>, a: seq<T>, b: seq<T>)
    requires s != [] && s[..|s| - 1] == a + b
    ensures s == a + (b + [s[|s| - 1]])
  {
    Halves(s, |s| - 1);
    Associative(a, b, [s[|s| - 1]]);
  }

  lemma TrimStrips(s: string)
    ensures Strips(s, Trim(s))
  {
    var before := Trimmed(s);
    var behind := EndTrimmed(Sse.TrimStart(s));
    if Trim(s) != "" {
      assert Sse.TrimStart(s)[0] == Trim(s)[0];
    }
    Associative(before, Trim(s), behind);
  }

  lemma NothingLeft(s: string)
    requires Strips(s, "")
    ensures AllSpace(s)
  {
  }

  // What a method needs

  datatype Need =
    | Optional(field: string, max: nat)
    | Mandatory(field: string, max: nat)
    | Number(field: string, min: int, max: nat)
    | Choice(field: string)

  /** A character below the blank other than tab, line feed and carriage return; or the delete character. */
  predicate Forbidden(c: char) {
    (c < ' ' && c !in "\t\n\r") || c == '\U{7F}'
  }

  ghost predicate Legal(v: Value, max: nat) {
    v.Str? && |v.s| <= max && forall i :: 0 <= i < |v.s| ==> !Forbidden(v.s[i])
  }

  ghost predicate Meets(params: Value, need: Need) {
    var v := Get(params, need.field);
    match need
    case Optional(_, max) => v.Undefined? || v.Null? || Legal(v, max)
    case Mandatory(_, max) => Legal(v, max) && !AllSpace(v.s)
    case Number(_, min, max) => v.Undefined? || (v.Int? && min <= v.n <= max)
    case Choice(_) => v.Str? && v.s in {"approve_once", "approve_session", "deny"}
  }

  /** The parameters each method needs. */
  ghost predicate InOrder(name: string, params: Value) {
    if name == "sessions.create" then
      && Meets(params, Optional("name", 200)) && Meets(params, Optional("workspacePath", 4000))
      && Meets(params, Optional("agentProfileId", 500))
    else if name in {"sessions.get", "sessions.cancel", "sessions.pause", "sessions.resume", "sessions.close",
                     "sessions.compact"} then
      Meets(params, Mandatory("sessionId", 500))
    else if name == "sessions.prompt" then
      && Meets(params, Mandatory("sessionId", 500)) && Meets(params, Mandatory("text", 1000000))
      && Meets(params, Optional("commandId", 500))
    else if name == "sessions.command" then
      && Meets(params, Mandatory("sessionId", 500)) && Meets(params, Mandatory("kind", 100))
      && Meets(params, Optional("commandId", 500))
      && Meets(params, Number("expectedGeneration", 0, 9007199254740991))
    else if name == "sessions.events" then
      && Meets(params, Mandatory("sessionId", 500)) && Meets(params, Number("afterSequence", 0, 9007199254740991))
      && Meets(params, Number("limit", 1, 5000))
    else if name == "sessions.subscribe" then
      Meets(params, Mandatory("sessionId", 500)) && Meets(params, Number("afterSequence", 0, 9007199254740991))
    else if name == "sessions.unsubscribe" then Meets(params, Mandatory("subscriptionId", 500))
    else if name == "approvals.list" then Meets(params, Optional("sessionId", 500))
    else if name == "approvals.resolve" then
      Meets(params, Mandatory("approvalId", 500)) && Meets(params, Choice("resolution"))
    else true
  }

  lemma LegalTexts(v: Value, max: nat)
    requires v.Str?
    ensures TextOk(v, max) <==> Legal(v, max)
  {
    assert forall c :: IsControl(c) <==> Forbidden(c);
  }

  lemma MandatoryTexts(v: Value, max: nat)
    ensures Required(v, max) <==> Legal(v, max) && !AllSpace(v.s)
  {
    if v.Str? {
      LegalTexts(v, max);
      TrimStrips(v.s);
      if AllSpace(v.s) {
        SpacesTrim(v.s);
      } else if Trim(v.s) == "" {
        NothingLeft(v.s);
      }
    }
  }

  lemma OptionalMet(params: Value, field: string, max: nat)
    ensures Meets(params, Optional(field, max)) <==> TextOk(Get(params, field), max)
  {
    if Get(params, field).Str? {
      LegalTexts(Get(params, field), max);
    }
  }

  lemma MandatoryMet(params: Value, field: string, max: nat)
    ensures Meets(params, Mandatory(field, max)) <==> Required(Get(params, field), max)
  {
    MandatoryTexts(Get(params, field), max);
  }

  lemma ChoiceMet(params: Value, field: string)
    ensures Meets(params, Choice(field)) <==> IsResolution(Get(params, field))
  {
  }

  lemma ParametersAreChecked(name: string, params: Value)
    ensures ParamsOk(name, params) <==> InOrder(name, params)
  {
    OptionalMet(params, "name", 200);
    OptionalMet(params, "workspacePath", 4000);
    OptionalMet(params, "agentProfileId", 500);
    OptionalMet(params, "commandId", 500);
    OptionalMet(params, "sessionId", 500);
    MandatoryMet(params, "sessionId", 500);
    MandatoryMet(params, "text", 1000000);
    MandatoryMet(params, "kind", 100);
    MandatoryMet(params, "subscriptionId", 500);
    MandatoryMet(params, "approvalId", 500);
    ChoiceMet(params, "resolution");
  }

  // Which lines are served

  /** A request of JSON-RPC 2.0, section 4, whose method name has at most 200 characters. */
  predicate IsCall(v: Value) {
    && v.Obj? && Get(v, "jsonrpc") == Str("2.0")
    && Get(v, "method").Str? && 1 <= |Get(v, "method").s| <= 200
    && (Get(v, "id").Undefined? || Get(v, "id").Null? || Get(v, "id").Str? || Get(v, "id").Int?)
  }

  predicate IsMethod(name: string) {
    name in {"initialize", "health", "sessions.list", "sessions.create", "sessions.get", "sessions.prompt",
             "sessions.command", "sessions.cancel", "sessions.pause", "sessions.resume", "sessions.close",
             "sessions.compact", "sessions.events", "sessions.subscribe", "sessions.unsubscribe", "approvals.list",
             "approvals.resolve", "shutdown"}
  }

  /** Why a call is not served, if it is not, as a code of JSON-RPC 2.0, section 5.1. */
  ghost function Refusal(closed: bool, name: string, params: Value): Option<int> {
    if closed && name != "shutdown" then Some(-32000)
    else if !params.Undefined? && !params.Obj? then Some(-32602)
    else if !IsMethod(name) then Some(-32601)
    else if !InOrder(name, params) then Some(-32602)
    else None
  }

  /** A reply goes out unless the call is a notification. */
  function Sent(call: Value, reply: Response): seq<Response> {
    if Get(call, "id").Undefined? then [] else [reply]
  }

  /** The line is a call of this method. */
  predicate CallsFor(parse: Sse.JsonParser, line: string, name: string) {
    && ByteLength(line) <= 1024 * 1024 && parse(line).Some? && IsCall(parse(line).value)
    && Get(parse(line).value, "method") == Str(name)
  }

  ghost predicate ServedAs(parse: Sse.JsonParser, s: Server, line: string, name: string) {
    CallsFor(parse, line, name) && Refusal(s.closed, name, Get(parse(line).value, "params")).None?
  }

  /** Too long a line or one that is not JSON is a parse error; other JSON than a call is an invalid request. */
  lemma OtherLinesAreErrors(parse: Sse.JsonParser, s: Server, line: string, api: ApiOutcome, newId: string)
    requires !exists name: string :: CallsFor(parse, line, name)
    ensures Handle(parse, s, line, api, newId)
         == if ByteLength(line) > 1024 * 1024 || parse(line).None? then (s, [Failure(Null, -32700)])
            else
              var id := Get(parse(line).value, "id");
              (s, [Failure(if id.Str? || id.Int? then id else Null, -32600)])
  {
    if ByteLength(line) <= 1024 * 1024 && parse(line).Some? && IsRequest(parse(line).value) {
      assert CallsFor(parse, line, Get(parse(line).value, "method").s);
      assert false;
    }
  }

  lemma MethodsAreKnown(name: string)
    ensures MethodOf(name).Unknown? <==> !IsMethod(name)
  {
  }

  lemma ObjectionIsRefusal(name: string, params: Value)
    ensures Objection(name, params) == Refusal(false, name, params)
  {
    MethodsAreKnown(name);
    ParametersAreChecked(name, params);
  }

  lemma CallIsHandled(parse: Sse.JsonParser, s: Server, line: string, name: string, api: ApiOutcome, newId: string)
    requires CallsFor(parse, line, name)
    ensures var v := parse(line).value;
            var (after, verdict) := Serve(s, name, Get(v, "params"), api, newId);
            Handle(parse, s, line, api, newId) == (after, Sent(v, Reply(Get(v, "id"), verdict)))
  {
  }

  /** A call that is not served changes nothing, and its code is the reply unless it is a notification. */
  lemma RefusedCallsAreErrors(parse: Sse.JsonParser, s: Server, line: string, name: string, api: ApiOutcome,
                              newId: string)
    requires CallsFor(parse, line, name) && !ServedAs(parse, s, line, name)
    ensures var v := parse(line).value;
            var code := Refusal(s.closed, name, Get(v, "params")).value;
            Handle(parse, s, line, api, newId) == (s, Sent(v, Failure(Get(v, "id"), code)))
  {
    CallIsHandled(parse, s, line, name, api, newId);
    ObjectionIsRefusal(name, Get(parse(line).value, "params"));
  }

  lemma ServedActs(parse: Sse.JsonParser, s: Server, line: string, name: string, api: ApiOutcome, newId: string)
    requires ServedAs(parse, s, line, name)
    ensures var v := parse(line).value;
            MethodOf(name).Unsubscribe? ==> Required(Get(Get(v, "params"), "subscriptionId"), 500)
    ensures var v := parse(line).value;
            var (after, verdict) := Act(s, MethodOf(name), Get(v, "params"), api, newId);
            Handle(parse, s, line, api, newId) == (after, Sent(v, Reply(Get(v, "id"), verdict)))
  {
    CallIsHandled(parse, s, line, name, api, newId);
    ObjectionIsRefusal(name, Get(parse(line).value, "params"));
    if s.closed {
      ShutdownIsAMethod();
    }
  }

  lemma NamesOfMethods()
    ensures MethodOf("initialize") == Initialize && MethodOf("sessions.subscribe") == Subscribe
    ensures MethodOf("sessions.unsubscribe") == Unsubscribe && MethodOf("shutdown") == Shutdown
  {
    ShutdownIsAMethod();
    assert "initialize"[0] == 'i' && "sessions.subscribe"[0] == 's' && "sessions.unsubscribe"[0] == 's';
    assert "sessions.subscribe"[9] == 's' && "sessions.unsubscribe"[9] == 'u';
  }

  // What served calls do

  lemma SubscribeOpens(parse: Sse.JsonParser, s: Server, line: string, api: ApiOutcome, newId: string)
    requires ServedAs(parse, s, line, "sessions.subscribe")
    ensures var v := parse(line).value;
            Handle(parse, s, line, api, newId)
            == if |s.live| < 100
            then (Server(s.live + {newId}, s.aborted, s.ended, s.closed),
                  Sent(v, Success(Get(v, "id"), Obj([("subscriptionId", Str(newId))]))))
            else (s, Sent(v, Failure(Get(v, "id"), -32602)))
  {
    NamesOfMethods();
    ServedActs(parse, s, line, "sessions.subscribe", api, newId);
  }

  /** The id an unsubscribing call is for. */
  ghost predicate IsFor(parse: Sse.JsonParser, line: string, id: string)
    requires parse(line).Some?
  {
    var given := Get(Get(parse(line).value, "params"), "subscriptionId");
    given.Str? && Strips(given.s, id)
  }

  lemma UnsubscribeRemoves(parse: Sse.JsonParser, s: Server, line: string, api: ApiOutcome, newId: string, id: string)
    requires ServedAs(parse, s, line, "sessions.unsubscribe") && IsFor(parse, line, id)
    ensures var v := parse(line).value;
            Handle(parse, s, line, api, newId)
            == (if id in s.live then Server(s.live - {id}, s.aborted + {id}, s.ended, s.closed) else s,
                Sent(v, Success(Get(v, "id"), Obj([("removed", Bool(id in s.live))]))))
  {
    NamesOfMethods();
    ServedActs(parse, s, line, "sessions.unsubscribe", api, newId);
    StrippedIsTrimmed(Get(Get(parse(line).value, "params"), "subscriptionId").s, id);
  }

  lemma ShutdownAborts(parse: Sse.JsonParser, s: Server, line: string, api: ApiOutcome, newId: string)
    requires ServedAs(parse, s, line, "shutdown")
    ensures var v := parse(line).value;
            Handle(parse, s, line, api, newId)
            == (if s.closed then s else Server({}, s.aborted + s.live, s.ended, true),
                Sent(v, Success(Get(v, "id"), Obj([]))))
  {
    NamesOfMethods();
    ServedActs(parse, s, line, "shutdown", api, newId);
  }

  /** What a method answers that leaves the subscriptions alone. */
  function Answer(name: string, id: Value, api: ApiOutcome): Response {
    if name == "initialize" then
      Success(id, Obj([("protocolVersion", Int(1)),
                       ("clientInfo", Obj([("name", Str("haf-headless-client")), ("version", Str("1.38.0"))])),
                       ("capabilities", Obj([("sessions", Bool(true)), ("commands", Bool(true)),
                                             ("eventSubscriptions", Bool(true)), ("approvals", Bool(true))]))]))
    else match api
      case Done(result) => Success(id, result)
      case ApiFailure(status) => Failure(id, if status < 999 then -32000 - status else -32999)
      case OtherFailure => Failure(id, -32602)
  }

  lemma OtherCallsAsk(parse: Sse.JsonParser, s: Server, line: string, name: string, api: ApiOutcome, newId: string)
    requires ServedAs(parse, s, line, name)
    requires name != "sessions.subscribe" && name != "sessions.unsubscribe" && name != "shutdown"
    ensures var v := parse(line).value;
            Handle(parse, s, line, api, newId) == (s, Sent(v, Answer(name, Get(v, "id"), api)))
  {
    NamesOfMethods();
    ServedActs(parse, s, line, name, api, newId);
  }

  // Which subscriptions live

  /** The step hands out this id. */
  ghost predicate Opens(parse: Sse.JsonParser, s: Server, step: Step, id: string) {
    step.Line? && id == step.newId && |s.live| < 100 && ServedAs(parse, s, step.line, "sessions.subscribe")
  }

  /** The step aborts the subscription of this id if it lives: a shutdown, or a call to unsubscribe it. */
  ghost predicate Aborts(parse: Sse.JsonParser, s: Server, step: Step, id: string) {
    && step.Line?
    && (|| ServedAs(parse, s, step.line, "shutdown")
        || (ServedAs(parse, s, step.line, "sessions.unsubscribe") && IsFor(parse, step.line, id)))
  }

  /** What one step does to the subscription of this id. */
  ghost predicate Decides(parse: Sse.JsonParser, s: Server, step: Step, id: string, t: Server) {
    && (id in t.live <==> Opens(parse, s, step, id)
                          || (id in s.live && !Aborts(parse, s, step, id) && step != End(id)))
    && (id in t.aborted <==> id in s.aborted || (id in s.live && Aborts(parse, s, step, id)))
    && (id in t.ended <==> id in s.ended || (id in s.live && step == End(id)))
  }

  lemma NamesDiffer()
    ensures "sessions.subscribe" != "sessions.unsubscribe" && "sessions.subscribe" != "shutdown"
    ensures "sessions.unsubscribe" != "shutdown"
  {
    assert "sessions.subscribe"[9] == 's' && "sessions.unsubscribe"[9] == 'u';
    assert "sessions.subscribe"[1] == 'e' && "sessions.unsubscribe"[1] == 'e' && "shutdown"[1] == 'h';
  }

  /** No method but three does anything to subscriptions. */
  lemma LineIsUnserved(parse: Sse.JsonParser, s: Server, step: Step, id: string)
    requires step.Line? && !ServedAs(parse, s, step.line, "sessions.subscribe")
    requires !ServedAs(parse, s, step.line, "sessions.unsubscribe") && !ServedAs(parse, s, step.line, "shutdown")
    ensures Decides(parse, s, step, id, Take(parse, s, step).0)
  {
    if name: string :| CallsFor(parse, step.line, name) {
      if ServedAs(parse, s, step.line, name) {
        OtherCallsAsk(parse, s, step.line, name, step.api, step.newId);
      } else {
        RefusedCallsAreErrors(parse, s, step.line, name, step.api, step.newId);
      }
    } else {
      OtherLinesAreErrors(parse, s, step.line, step.api, step.newId);
    }
  }

  lemma SubscribeDecides(parse: Sse.JsonParser, s: Server, step: Step, id: string)
    requires step.Line? && ServedAs(parse, s, step.line, "sessions.subscribe")
    ensures Decides(parse, s, step, id, Take(parse, s, step).0)
  {
    NamesDiffer();
    SubscribeOpens(parse, s, step.line, step.api, step.newId);
  }

  lemma UnsubscribeIsFor(parse: Sse.JsonParser, s: Server, line: string) returns (id: string)
    requires ServedAs(parse, s, line, "sessions.unsubscribe")
    ensures IsFor(parse, line, id) && forall other: string :: IsFor(parse, line, other) ==> other == id
  {
    var given := Get(Get(parse(line).value, "params"), "subscriptionId").s;
    id := Trim(given);
    TrimStrips(given);
    forall other: string | IsFor(parse, line, other) ensures other == id {
      StrippedIsTrimmed(given, other);
    }
  }

  lemma UnsubscribeDecides(parse: Sse.JsonParser, s: Server, step: Step, id: string)
    requires step.Line? && ServedAs(parse, s, step.line, "sessions.unsubscribe")
    ensures Decides(parse, s, step, id, Take(parse, s, step).0)
  {
    NamesDiffer();
    var given := UnsubscribeIsFor(parse, s, step.line);
    UnsubscribeRemoves(parse, s, step.line, step.api, step.newId, given);
  }

  lemma ShutdownDecides(parse: Sse.JsonParser, s: Server, step: Step, id: string)
    requires Consistent(Known(s), s) && step.Line? && ServedAs(parse, s, step.line, "shutdown")
    ensures Decides(parse, s, step, id, Take(parse, s, step).0)
  {
    NamesDiffer();
    ShutdownAborts(parse, s, step.line, step.api, step.newId);
  }

  /**
   One step: a subscription lives behind it if it is opened by it, or lived before and is neither aborted
   nor at its end.
   */
  lemma StepDecides(parse: Sse.JsonParser, s: Server, step: Step, id: string)
    requires Consistent(Known(s), s)
    ensures Decides(parse, s, step, id, Take(parse, s, step).0)
  {
    if step.Line? {
      if ServedAs(parse, s, step.line, "sessions.subscribe") {
        SubscribeDecides(parse, s, step, id);
      } else if ServedAs(parse, s, step.line, "sessions.unsubscribe") {
        UnsubscribeDecides(parse, s, step, id);
      } else if ServedAs(parse, s, step.line, "shutdown") {
        ShutdownDecides(parse, s, step, id);
      } else {
        LineIsUnserved(parse, s, step, id);
      }
    }
  }

  // Over a run

  /** The server after `k` steps from the start. */
  function StateAt(parse: Sse.JsonParser, steps: seq<Step>, k: nat): Server
    requires k <= |steps|
  {
    Run(parse, NEW_SERVER, steps[..k]).0
  }

  ghost predicate OpensAt(parse: Sse.JsonParser, steps: seq<Step>, k: nat, id: string) {
    k < |steps| && Opens(parse, StateAt(parse, steps, k), steps[k], id)
  }

  /** The step aborts the subscription or is its end. */
  ghost predicate ClosesAt(parse: Sse.JsonParser, steps: seq<Step>, k: nat, id: string) {
    k < |steps| && (Aborts(parse, StateAt(parse, steps, k), steps[k], id) || steps[k] == End(id))
  }

  ghost predicate LeftSince(parse: Sse.JsonParser, steps: seq<Step>, k: nat, n: nat, id: string) {
    k < n && OpensAt(parse, steps, k, id) && forall j: nat :: k < j < n ==> !ClosesAt(parse, steps, j, id)
  }

  /** The id was handed out by a step, and no later one aborted or ended its subscription. */
  ghost predicate OpenedAndLeft(parse: Sse.JsonParser, steps: seq<Step>, n: nat, id: string) {
    exists k: nat :: LeftSince(parse, steps, k, n, id)
  }

  lemma StateSteps(parse: Sse.JsonParser, steps: seq<Step>, k: nat)
    requires k < |steps|
    ensures StateAt(parse, steps, k + 1) == Take(parse, StateAt(parse, steps, k), steps[k]).0
  {
    assert steps[..k + 1] == steps[..k] + [steps[k]];
    RunsChain(parse, NEW_SERVER, steps[..k], [steps[k]]);
    RunStep(parse, StateAt(parse, steps, k), steps[k], []);
    assert [steps[k]] + [] == [steps[k]];
  }

  lemma StatesAreConsistent(parse: Sse.JsonParser, steps: seq<Step>, k: nat)
    requires k <= |steps| && FreshIds(parse, NEW_SERVER, steps)
    ensures Consistent(Known(StateAt(parse, steps, k)), StateAt(parse, steps, k))
  {
    Halves(steps, k);
    RunsChain(parse, NEW_SERVER, steps[..k], steps[k..]);
    RunsKeepSubscriptions(parse, NEW_SERVER, steps[..k]);
  }

  /** After any run a subscription lives exactly if a step opened it and none since aborted or ended it. */
  lemma {:induction false} LivesExactlyWhenOpenedAndLeft(parse: Sse.JsonParser, steps: seq<Step>, n: nat, id: string)
    requires n <= |steps| && FreshIds(parse, NEW_SERVER, steps)
    ensures id in StateAt(parse, steps, n).live <==> OpenedAndLeft(parse, steps, n, id)
  {
    if n > 0 {
      LivesExactlyWhenOpenedAndLeft(parse, steps, n - 1, id);
      StateSteps(parse, steps, n - 1);
      StatesAreConsistent(parse, steps, n - 1);
      StepDecides(parse, StateAt(parse, steps, n - 1), steps[n - 1], id);
      LeftOneStepMore(parse, steps, n - 1, id);
    }
  }

  lemma SinceOneStepMore(parse: Sse.JsonParser, steps: seq<Step>, k: nat, n: nat, id: string)
    requires k < n
    ensures LeftSince(parse, steps, k, n + 1, id)
        <==> LeftSince(parse, steps, k, n, id) && !ClosesAt(parse, steps, n, id)
  {
  }

  lemma LeftOneStepMore(parse: Sse.JsonParser, steps: seq<Step>, n: nat, id: string)
    ensures OpenedAndLeft(parse, steps, n + 1, id)
        <==> OpensAt(parse, steps, n, id)
             || (OpenedAndLeft(parse, steps, n, id) && !ClosesAt(parse, steps, n, id))
  {
    forall k: nat | k < n {
      SinceOneStepMore(parse, steps, k, n, id);
    }
    assert LeftSince(parse, steps, n, n + 1, id) <==> OpensAt(parse, steps, n, id);
    if OpenedAndLeft(parse, steps, n + 1, id) {
      var k: nat :| LeftSince(parse, steps, k, n + 1, id);
      assert k < n ==> LeftSince(parse, steps, k, n, id);
    }
    if OpenedAndLeft(parse, steps, n, id) && !ClosesAt(parse, steps, n, id) {
      var k: nat :| LeftSince(parse, steps, k, n, id);
      assert LeftSince(parse, steps, k, n + 1, id);
    }
  }
}
