/**
 The event stream as the headless client reads it: `parseSse`.

 A chunk is the text one read decodes to.  `JSON.parse` is a parameter, so the framing laws hold
 for whatever JSON the stream carries.
 */
module Sse {
  import opened Wrappers
  import opened Text
  import opened Json

  type JsonParser = string -> Option<Value>

  const MAX_BYTES := 4 * 1024 * 1024

  datatype StreamError = EventOversized | BufferOversized | InvalidJson

  /** What a stream delivers before it ends, and the error it ends with, if any. */
  datatype Parsed = Parsed(events: seq<Value>, error: Option<StreamError>)

  /** `chunk.replace(/\r\n/g, "\n")`. */
  function Normalise(chunk: string): string {
    if |chunk| < 2 then chunk
    else if chunk[0] == '\r' && chunk[1] == '\n' then "\n" + Normalise(chunk[2..])
    else [chunk[0]] + Normalise(chunk[1..])
  }

  predicate BlankLineAt(s: string, k: int) {
    0 <= k < |s| - 1 && s[k] == '\n' && s[k + 1] == '\n'
  }

  /** `buffer.indexOf("\n\n")`: the first blank line, if there is one. */
  function Boundary(buffer: string): (r: Option<nat>)
    ensures r.Some? ==> r.value + 2 <= |buffer| && BlankLineAt(buffer, r.value)
    ensures r.Some? ==> forall k :: k < r.value ==> !BlankLineAt(buffer, k)
    ensures r.None? ==> forall k :: !BlankLineAt(buffer, k)
  {
    if |buffer| < 2 then None
    else if buffer[0] == '\n' && buffer[1] == '\n' then Some(0)
    else
      assert forall k :: k > 0 ==> BlankLineAt(buffer, k) == BlankLineAt(buffer[1..], k - 1);
      var k :- Boundary(buffer[1..]);
      Some(k + 1)
  }

  // One block

  function Lines(s: string): (r: seq<string>)
    ensures r != []
  {
    SplitOn(s, '\n')
  }

  /** The characters `String.prototype.trimStart` removes. */
  predicate IsJsSpace(c: char) {
    || '\t' <= c <= '\r' || c == ' ' || c == '\U{A0}' || c == '\U{1680}' || '\U{2000}' <= c <= '\U{200A}'
    || c == '\U{2028}' || c == '\U{2029}' || c == '\U{202F}' || c == '\U{205F}' || c == '\U{3000}' || c == '\U{FEFF}'
  }

  function TrimStart(s: string): string {
    if s != "" && IsJsSpace(s[0]) then TrimStart(s[1..]) else s
  }

  function DataLines(lines: seq<string>): seq<string> {
    if lines == [] then []
    else if StartsWith(lines[0], "data:") then [TrimStart(lines[0][5..])] + DataLines(lines[1..])
    else DataLines(lines[1..])
  }

  function Data(block: string): string {
    Join(DataLines(Lines(block)), "\n")
  }

  datatype Outcome = Skipped | Yielded(event: Value) | Failed(error: StreamError)

  function Interpret(parse: JsonParser, block: string): Outcome {
    var data := Data(block);
    if data == "" then Skipped
    else if ByteLength(data) > MAX_BYTES then Failed(EventOversized)
    else match parse(data)
      case None => Failed(InvalidJson)
      case Some(v) => if v.Obj? then Yielded(v) else Skipped
  }

  // The whole stream

  datatype Drained = Drained(events: seq<Value>, residual: string, error: Option<StreamError>)

  /** Takes blocks off the front of the buffer until none is complete or one fails. */
  function Drain(parse: JsonParser, buffer: string): (r: Drained)
    ensures r.error.None? ==> Boundary(r.residual).None?
    decreases |buffer|
  {
    match Boundary(buffer)
    case None => Drained([], buffer, None)
    case Some(k) =>
      var rest := buffer[k + 2..];
      After(Interpret(parse, buffer[..k]), rest, Drain(parse, rest))
  }

  /** What one block does to the draining of the text behind it. */
  function After(outcome: Outcome, rest: string, d: Drained): Drained {
    match outcome
    case Skipped => d
    case Failed(error) => Drained([], rest, Some(error))
    case Yielded(event) => Prepend([event], d)
  }

  function Prepend(events: seq<Value>, d: Drained): Drained {
    d.(events := events + d.events)
  }

  /** The chunks still to come, read with `buffer` left over. */
  function Feed(parse: JsonParser, buffer: string, chunks: seq<string>): Parsed
    decreases |chunks|
  {
    if chunks == [] then Parsed([], None) else
      var d := Drain(parse, buffer + Normalise(chunks[0]));
      if d.error.Some? then Parsed(d.events, d.error)
      else if ByteLength(d.residual) > MAX_BYTES then Parsed(d.events, Some(BufferOversized))
      else
        var more := Feed(parse, d.residual, chunks[1..]);
        Parsed(d.events + more.events, more.error)
  }

  /** The stream read as a single text, with no bound on what may be left over. */
  function Whole(parse: JsonParser, text: string): Parsed {
    var d := Drain(parse, text);
    Parsed(d.events, d.error)
  }

  // The generator, its inner loop split off

  method DrainBuffer(parse: JsonParser, text: string)
    returns (events: seq<Value>, buffer: string, error: Option<StreamError>)
    ensures Drained(events, buffer, error) == Drain(parse, text)
  {
    events, buffer := [], text;
    var boundary := Boundary(buffer);
    while boundary.Some?
      invariant boundary == Boundary(buffer)
      invariant Drain(parse, text) == Prepend(events, Drain(parse, buffer))
      decreases |buffer|
    {
      var block := buffer[..boundary.value];
      ghost var full := buffer;
      buffer := buffer[boundary.value + 2..];
      var outcome := Interpret(parse, block);
      if outcome.Failed? {
        return events, buffer, Some(outcome.error);
      }
      if outcome.Yielded? {
        assert Drain(parse, full) == Prepend([outcome.event], Drain(parse, buffer));
        PrependTwice(events, [outcome.event], Drain(parse, buffer));
        events := events + [outcome.event];
      }
      boundary := Boundary(buffer);
    }
    error := None;
  }

  method ParseSse(parse: JsonParser, chunks: seq<string>) returns (events: seq<Value>, error: Option<StreamError>)
    ensures Parsed(events, error) == Feed(parse, "", chunks)
  {
    events := [];
    var buffer := "";
    var i := 0;
    while i < |chunks|
      invariant 0 <= i <= |chunks|
      invariant Feed(parse, "", chunks) == Continue(events, Feed(parse, buffer, chunks[i..]))
    {
      FeedStep(parse, buffer, chunks, i);
      ContinueStep(events, Drain(parse, buffer + Normalise(chunks[i])), chunks[i + 1..], parse);
      var found, residual, failure := DrainBuffer(parse, buffer + Normalise(chunks[i]));
      buffer := residual;
      events := events + found;
      if failure.Some? {
        return events, failure;
      }
      if ByteLength(buffer) > MAX_BYTES {
        return events, Some(BufferOversized);
      }
      i := i + 1;
    }
    error := None;
  }

  /** What one chunk does, with the chunks behind it. */
  ghost function FeedAfter(parse: JsonParser, d: Drained, chunks: seq<string>): Parsed {
    if d.error.Some? then Parsed(d.events, d.error)
    else if ByteLength(d.residual) > MAX_BYTES then Parsed(d.events, Some(BufferOversized))
    else Continue(d.events, Feed(parse, d.residual, chunks))
  }

  lemma FeedStep(parse: JsonParser, buffer: string, chunks: seq<string>, i: nat)
    requires i < |chunks|
    ensures Feed(parse, buffer, chunks[i..])
         == FeedAfter(parse, Drain(parse, buffer + Normalise(chunks[i])), chunks[i + 1..])
  {
    assert chunks[i..][1..] == chunks[i + 1..];
  }

  lemma ContinueStep(events: seq<Value>, d: Drained, chunks: seq<string>, parse: JsonParser)
    ensures Continue(events, FeedAfter(parse, d, chunks))
         == if d.error.Some? then Parsed(events + d.events, d.error)
            else if ByteLength(d.residual) > MAX_BYTES then Parsed(events + d.events, Some(BufferOversized))
            else Continue(events + d.events, Feed(parse, d.residual, chunks))
  {
    if d.error.None? && ByteLength(d.residual) <= MAX_BYTES {
      Associative(events, d.events, Feed(parse, d.residual, chunks).events);
    }
  }

  ghost function Continue(events: seq<Value>, p: Parsed): Parsed {
    Parsed(events + p.events, p.error)
  }

  lemma PrependTwice(a: seq<Value>, b: seq<Value>, d: Drained)
    ensures Prepend(a, Prepend(b, d)) == Prepend(a + b, d)
  {
    assert a + (b + d.events) == a + b + d.events;
  }
}
