/**
 `HeadlessRpcServer`: JSON-RPC requests, one line each, and the event subscriptions they open.

 Lines are handled one after the other; a subscription may end on its own between two of them.
 `JSON.parse` is a parameter.  What the Control API answers, and the id `randomUUID` gives, come
 with each line.
 */
module Rpc {
  import opened Wrappers
  import opened Text
  import opened Json
  import opened Sse

  const MAX_LINE := 1024 * 1024
  const MAX_SUBSCRIPTIONS := 100
  const MAX_SAFE_INTEGER := 9_007_199_254_740_991

  const PARSE_ERROR := -32700
  const INVALID_REQUEST := -32600
  const METHOD_NOT_FOUND := -32601
  const INVALID_PARAMS := -32602
  const SERVER_ERROR := -32000

  datatype ApiOutcome = Done(result: Value) | ApiFailure(status: int) | OtherFailure

  datatype Response = Success(id: Value, result: Value) | Failure(id: Value, code: int)

  // Requests

  predicate IsRequest(v: Value) {
    var name, id := Get(v, "method"), Get(v, "id");
    && v.Obj? && Get(v, "jsonrpc") == Str("2.0")
    && name.Str? && 0 < |name.s| <= 200
    && (id.Undefined? || id.Null? || id.Str? || id.Int?)
  }

  function RequestId(v: Value): Value {
    var id := Get(v, "id");
    if id.Str? || id.Int? then id else Null
  }

  // Parameters

  predicate IsControl(c: char) {
    c <= '\U{8}' || c == '\U{B}' || c == '\U{C}' || '\U{E}' <= c <= '\U{1F}' || c == '\U{7F}'
  }

  predicate TextOk(v: Value, max: nat) {
    match v
    case Undefined => true
    case Null => true
    case Str(s) => |s| <= max && forall i :: 0 <= i < |s| ==> !IsControl(s[i])
    case _ => false
  }

  function Trim(s: string): string {
    TrimEnd(TrimStart(s))
  }

  function TrimEnd(s: string): string {
    if s != "" && IsJsSpace(s[|s| - 1]) then TrimEnd(s[..|s| - 1]) else s
  }

  /** `requiredText`; without a result when it throws. */
  function RequiredText(v: Value, max: nat): Option<string> {
    if v.Str? && TextOk(v, max) && Trim(v.s) != "" then Some(Trim(v.s)) else None
  }

  predicate Required(v: Value, max: nat) {
    RequiredText(v, max).Some?
  }

  predicate IntegerOk(v: Value, min: int, max: int) {
    v.Undefined? || (v.Int? && min <= v.n <= max)
  }

  predicate IsResolution(v: Value) {
    v in {Str("approve_once"), Str("approve_session"), Str("deny")}
  }

  datatype Method = Initialize | Api | Subscribe | Unsubscribe | Shutdown | Unknown

  function MethodOf(name: string): Method {
    if name == "initialize" then Initialize
    else if name == "sessions.subscribe" then Subscribe
    else if name == "sessions.unsubscribe" then Unsubscribe
    else if name == "shutdown" then Shutdown
    else if name in {"health", "sessions.list", "sessions.create", "sessions.get", "sessions.prompt",
                     "sessions.command",
                     "sessions.cancel", "sessions.pause", "sessions.resume", "sessions.close", "sessions.compact",
                     "sessions.events", "approvals.list", "approvals.resolve"} then Api
    else Unknown
  }

  /** The parameters a method reads before it does anything. */
  predicate ParamsOk(name: string, params: Value) {
    if name == "sessions.create" then
      TextOk(Get(params, "name"), 200) && TextOk(Get(params, "workspacePath"), 4_000)
          && TextOk(Get(params, "agentProfileId"), 500)
    else if name in {"sessions.get", "sessions.cancel", "sessions.pause", "sessions.resume", "sessions.close",
                     "sessions.compact"} then
      Required(Get(params, "sessionId"), 500)
    else if name == "sessions.prompt" then
      && Required(Get(params, "sessionId"), 500) && Required(Get(params, "text"), 1_000_000)
      && TextOk(Get(params, "commandId"), 500)
    else if name == "sessions.command" then
      && Required(Get(params, "sessionId"), 500) && Required(Get(params, "kind"), 100)
          && TextOk(Get(params, "commandId"), 500)
      && IntegerOk(Get(params, "expectedGeneration"), 0, MAX_SAFE_INTEGER)
    else if name == "sessions.events" then
      && Required(Get(params, "sessionId"), 500) && IntegerOk(Get(params, "afterSequence"), 0, MAX_SAFE_INTEGER)
      && IntegerOk(Get(params, "limit"), 1, 5000)
    else if name == "sessions.subscribe" then
      Required(Get(params, "sessionId"), 500) && IntegerOk(Get(params, "afterSequence"), 0, MAX_SAFE_INTEGER)
    else if name == "sessions.unsubscribe" then Required(Get(params, "subscriptionId"), 500)
    else if name == "approvals.list" then TextOk(Get(params, "sessionId"), 500)
    else if name == "approvals.resolve" then Required(Get(params, "approvalId"), 500)
        && IsResolution(Get(params, "resolution"))
    else true
  }

  // The server's state, and what a request does to it

  /** Subscription ids: live, aborted, or ended on their own. */
  datatype Server = Server(live: set<string>, aborted: set<string>, ended: set<string>, closed: bool)

  const NEW_SERVER := Server({}, {}, {}, false)

  function Opened(s: Server, newId: string): Server {
    s.(live := s.live + {newId})
  }

  function Closed(s: Server): Server {
    if s.closed then s else Server({}, s.aborted + s.live, s.ended, true)
  }

  function Dropped(s: Server, id: string): Server {
    if id in s.live then s.(live := s.live - {id}, aborted := s.aborted + {id}) else s
  }

  function Ended(s: Server, id: string): Server {
    if id in s.live then s.(live := s.live - {id}, ended := s.ended + {id}) else s
  }

  /** The code of a reply: a result, or why there is none. */
  datatype Verdict = Result(value: Value) | Refused(code: int)

  function ApiVerdict(api: ApiOutcome): Verdict {
    match api
    case Done(result) => Result(result)
    case ApiFailure(status) => Refused(SERVER_ERROR - if status < 999 then status else 999)
    case OtherFailure => Refused(INVALID_PARAMS)
  }

  /** Why a request is refused before it does anything, if it is. */
  function Objection(name: string, params: Value): (r: Option<int>)
    ensures r.None? && MethodOf(name).Unsubscribe? ==> Required(Get(params, "subscriptionId"), 500)
  {
    if !params.Undefined? && !params.Obj? then Some(INVALID_PARAMS)
    else if MethodOf(name).Unknown? then Some(METHOD_NOT_FOUND)
    else if !ParamsOk(name, params) then Some(INVALID_PARAMS)
    else None
  }

  /** `handle`, apart from what it sends. */
  function Serve(s: Server, name: string, params: Value, api: ApiOutcome, newId: string): (Server, Verdict) {
    if s.closed && name != "shutdown" then (s, Refused(SERVER_ERROR))
    else match Objection(name, params)
      case Some(code) => (s, Refused(code))
      case None => Act(s, MethodOf(name), params, api, newId)
  }

  /** A method whose parameters are in order. */
  function Act(s: Server, kind: Method, params: Value, api: ApiOutcome, newId: string): (Server, Verdict)
    requires kind.Unsubscribe? ==> Required(Get(params, "subscriptionId"), 500)
  {
    match kind
    case Subscribe =>
      if |s.live| >= MAX_SUBSCRIPTIONS then (s, Refused(INVALID_PARAMS))
      else (Opened(s, newId), Result(Obj([("subscriptionId", Str(newId))])))
    case Unsubscribe =>
      var id := RequiredText(Get(params, "subscriptionId"), 500).value;
      (Dropped(s, id), Result(Obj([("removed", Bool(id in s.live))])))
    case Shutdown => (Closed(s), Result(Obj([])))
    case Api => (s, ApiVerdict(api))
    case _ => (s, Result(INFO))
  }

  const INFO := Obj([("protocolVersion", Int(1)),
                     ("clientInfo", Obj([("name", Str("haf-headless-client")), ("version", Str("1.38.0"))])),
                     ("capabilities", Obj([("sessions", Bool(true)), ("commands", Bool(true)),
                                           ("eventSubscriptions", Bool(true)), ("approvals", Bool(true))]))])

  function Reply(id: Value, verdict: Verdict): Response {
    match verdict
    case Result(value) => Success(id, value)
    case Refused(code) => Failure(id, code)
  }

  /** `handleLine`: the state after the line, and what is sent. */
  function Handle(parse: JsonParser, s: Server, line: string, api: ApiOutcome, newId: string): (Server, seq<Response>) {
    if ByteLength(line) > MAX_LINE then (s, [Failure(Null, PARSE_ERROR)])
    else match parse(line)
      case None => (s, [Failure(Null, PARSE_ERROR)])
      case Some(v) =>
        if !IsRequest(v) then (s, [Failure(RequestId(v), INVALID_REQUEST)])
        else
          var (after, verdict) := Serve(s, Get(v, "method").s, Get(v, "params"), api, newId);
          (after, if Get(v, "id").Undefined? then [] else [Reply(Get(v, "id"), verdict)])
  }

  // The objects

  class AbortController {
    var aborted: bool

    constructor ()
      ensures !aborted
    {
      aborted := false;
    }

    method Abort()
      modifies this
      ensures aborted
    {
      aborted := true;
    }
  }

  /** Each id handed out is live, aborted or ended, and only one of these; not too many are live. */
  ghost predicate Consistent(issued: set<string>, s: Server) {
    && (forall id :: id in issued <==> id in s.live || id in s.aborted || id in s.ended)
    && (forall id :: id in s.live ==> id !in s.aborted && id !in s.ended)
    && (forall id :: id in s.aborted ==> id !in s.ended)
    && |s.live| <= MAX_SUBSCRIPTIONS
    && (s.closed ==> s.live == {})
  }

  lemma OpeningKeeps(issued: set<string>, s: Server, newId: string)
    requires Consistent(issued, s) && newId !in issued && |s.live| < MAX_SUBSCRIPTIONS && !s.closed
    ensures Consistent(issued + {newId}, Opened(s, newId))
  {
  }

  lemma EndingKeeps(issued: set<string>, s: Server, id: string)
    requires Consistent(issued, s)
    ensures Consistent(issued, Dropped(s, id)) && Consistent(issued, Ended(s, id))
  {
    if id in s.live {
      assert |s.live - {id}| < |s.live|;
    }
  }

  lemma ClosingKeeps(issued: set<string>, s: Server)
    requires Consistent(issued, s)
    ensures Consistent(issued, Closed(s))
  {
  }

  /** The controllers of live subscriptions are the ones handed out, and exactly the aborted ids' are aborted. */
  ghost predicate Tracks(subscriptions: map<string, AbortController>, issued: map<string, AbortController>,
                         aborted: set<string>)
    reads issued.Values
  {
    && (forall id :: id in subscriptions ==> id in issued && subscriptions[id] == issued[id])
    && (forall id :: id in issued ==> (issued[id].aborted <==> id in aborted))
    && (forall a, b :: a in issued && b in issued && issued[a] == issued[b] ==> a == b)
  }

  lemma TracksOneMore(subscriptions: map<string, AbortController>, issued: map<string, AbortController>,
                      aborted: set<string>,
                      id: string, controller: AbortController)
    requires Tracks(subscriptions, issued, aborted) && id !in issued && id !in aborted
    requires controller !in issued.Values && !controller.aborted
    ensures Tracks(subscriptions[id := controller], issued[id := controller], aborted)
  {
  }

  lemma TracksFewer(subscriptions: map<string, AbortController>, issued: map<string, AbortController>,
                    aborted: set<string>, id: string)
    requires Tracks(subscriptions, issued, aborted)
    ensures Tracks(subscriptions - {id}, issued, aborted)
  {
  }

  lemma KeysWith<K, V>(m: map<K, V>, k: K, v: V)
    ensures m[k := v].Keys == m.Keys + {k}
    ensures m[k := v].Values <= m.Values + {v}
  {
  }

  lemma KeysWithout<K, V>(m: map<K, V>, k: K)
    ensures (m - {k}).Keys == m.Keys - {k}
    ensures k !in m ==> m - {k} == m
  {
    assert (m - {k}).Keys == m.Keys - {k};
  }

  class HeadlessRpcServer {
    var subscriptions: map<string, AbortController>
    var closed: bool
    var emitted: seq<Response>
    /** Every controller ever handed out, and what became of it. */
    ghost var issued: map<string, AbortController>
    ghost var state: Server

    ghost predicate Valid()
      reads this, issued.Values
    {
      && state.live == subscriptions.Keys && state.closed == closed
      && Consistent(issued.Keys, state) && Tracks(subscriptions, issued, state.aborted)
    }

    constructor ()
      ensures Valid() && state == NEW_SERVER && emitted == []
    {
      subscriptions, closed, emitted := map[], false, [];
      issued, state := map[], NEW_SERVER;
    }

    method Emit(response: Response)
      modifies this`emitted
      ensures emitted == old(emitted) + [response]
    {
      emitted := emitted + [response];
    }

    /** Both views of the subscriptions, changed together. */
    method Store(subscriptions': map<string, AbortController>, ghost issued': map<string, AbortController>,
                 ghost state': Server)
      requires state'.live == subscriptions'.Keys && state'.closed == closed
      requires Consistent(issued'.Keys, state') && Tracks(subscriptions', issued', state'.aborted)
      modifies this`subscriptions, this`issued, this`state
      ensures subscriptions == subscriptions' && issued == issued' && state == state' && Valid()
    {
      subscriptions, issued, state := subscriptions', issued', state';
    }

    method DoSubscribe(newId: string) returns (id: Option<string>)
      requires Valid() && !closed && newId !in issued
      modifies this`subscriptions, this`issued, this`state
      ensures Valid() && fresh(issued.Values - old(issued.Values))
      ensures if |old(state).live| >= MAX_SUBSCRIPTIONS then id.None? && state == old(state)
              else id == Some(newId) && state == Opened(old(state), newId)
    {
      if |subscriptions.Keys| >= MAX_SUBSCRIPTIONS {
        return None;
      }
      var controller := new AbortController();
      OpeningKeeps(issued.Keys, state, newId);
      KeysWith(subscriptions, newId, controller);
      KeysWith(issued, newId, controller);
      TracksOneMore(subscriptions, issued, state.aborted, newId, controller);
      Store(subscriptions[newId := controller], issued[newId := controller], Opened(state, newId));
      return Some(newId);
    }

    /** Aborts one controller that was handed out. */
    method AbortOne(id: string, ghost aborted: set<string>)
      requires Tracks(subscriptions, issued, aborted) && id in subscriptions
      modifies issued.Values
      ensures Tracks(subscriptions, issued, aborted + {id})
    {
      assert subscriptions[id] == issued[id];
      subscriptions[id].Abort();
    }

    method DoUnsubscribe(id: string) returns (removed: bool)
      requires Valid()
      modifies this`subscriptions, this`issued, this`state, issued.Values
      ensures Valid() && issued == old(issued) && removed == (id in old(state).live) && state == Dropped(old(state), id)
    {
      if id !in subscriptions {
        return false;
      }
      EndingKeeps(issued.Keys, state, id);
      KeysWithout(subscriptions, id);
      AbortOne(id, state.aborted);
      TracksFewer(subscriptions, issued, state.aborted + {id}, id);
      Store(subscriptions - {id}, issued, Dropped(state, id));
      return true;
    }

    /** The loop of `shutdown`. */
    method AbortAll()
      requires Tracks(subscriptions, issued, state.aborted)
      modifies issued.Values
      ensures Tracks(subscriptions, issued, state.aborted + subscriptions.Keys)
    {
      var ids := subscriptions.Keys;
      ghost var aborted := state.aborted;
      while ids != {}
        invariant ids <= subscriptions.Keys && aborted + ids == state.aborted + subscriptions.Keys
        invariant Tracks(subscriptions, issued, aborted)
        decreases |ids|
      {
        var id :| id in ids;
        AbortOne(id, aborted);
        ids, aborted := ids - {id}, aborted + {id};
      }
      assert aborted + {} == aborted;
    }

    method DoShutdown()
      requires Valid()
      modifies this`subscriptions, this`issued, this`closed, this`state, issued.Values
      ensures Valid() && issued == old(issued) && state == Closed(old(state))
    {
      if closed {
        return;
      }
      closed := true;
      ClosingKeeps(issued.Keys, state);
      AbortAll();
      Store(map[], issued, Closed(state));
    }

    /** A subscription's promise settles. */
    method SubscriptionEnded(id: string)
      requires Valid()
      modifies this`subscriptions, this`issued, this`state
      ensures Valid() && issued == old(issued) && state == Ended(old(state), id)
    {
      EndingKeeps(issued.Keys, state, id);
      KeysWithout(subscriptions, id);
      TracksFewer(subscriptions, issued, state.aborted, id);
      Store(subscriptions - {id}, issued, Ended(state, id));
    }

    /** The `switch` of `handle`. */
    method Perform(kind: Method, params: Value, api: ApiOutcome, newId: string) returns (verdict: Verdict)
      requires Valid() && newId !in issued && (closed ==> kind.Shutdown?)
      requires kind.Unsubscribe? ==> Required(Get(params, "subscriptionId"), 500)
      modifies this`subscriptions, this`closed, this`issued, this`state, issued.Values
      ensures Valid() && (state, verdict) == Act(old(state), kind, params, api, newId)
    {
      match kind {
        case Subscribe =>
          var id := DoSubscribe(newId);
          verdict := if id.None? then Refused(INVALID_PARAMS) else Result(Obj([("subscriptionId", Str(id.value))]));
        case Unsubscribe =>
          var id := RequiredText(Get(params, "subscriptionId"), 500).value;
          var removed := DoUnsubscribe(id);
          verdict := Result(Obj([("removed", Bool(removed))]));
        case Shutdown =>
          DoShutdown();
          verdict := Result(Obj([]));
        case Api => verdict := ApiVerdict(api);
        case _ => verdict := Result(INFO);
      }
    }

    /** `handle`: the state and the verdict. */
    method HandleRequest(name: string, params: Value, api: ApiOutcome, newId: string) returns (verdict: Verdict)
      requires Valid() && newId !in issued
      modifies this`subscriptions, this`closed, this`issued, this`state, issued.Values
      ensures Valid() && (state, verdict) == Serve(old(state), name, params, api, newId)
    {
      if closed && name != "shutdown" {
        return Refused(SERVER_ERROR);
      }
      var objection := Objection(name, params);
      if objection.Some? {
        return Refused(objection.value);
      }
      verdict := Perform(MethodOf(name), params, api, newId);
    }

    method HandleLine(parse: JsonParser, line: string, api: ApiOutcome, newId: string)
      requires Valid() && newId !in issued
      modifies this, issued.Values
      ensures Valid()
      ensures var (after, replies) := Handle(parse, old(state), line, api, newId);
              state == after && emitted == old(emitted) + replies
    {
      if ByteLength(line) > MAX_LINE {
        Emit(Failure(Null, PARSE_ERROR));
        return;
      }
      var value := parse(line);
      if value.None? {
        Emit(Failure(Null, PARSE_ERROR));
        return;
      }
      if !IsRequest(value.value) {
        Emit(Failure(RequestId(value.value), INVALID_REQUEST));
        return;
      }
      var verdict := HandleRequest(Get(value.value, "method").s, Get(value.value, "params"), api, newId);
      var id := Get(value.value, "id");
      if !id.Undefined? {
        Emit(Reply(id, verdict));
      }
    }
  }
}
