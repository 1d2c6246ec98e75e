/**
 The Canvas page's own reader of the event stream: it splits the buffer at blank lines and keeps
 the last piece.  It holds the same blocks and the same residual as the headless client's reader.
 */
module Canvas {
  import opened Wrappers
  import opened Text
  import opened Json
  import opened JsonLaws
  import opened Sse
  import opened SseLaws
  import opened EventWriter
  import opened StreamLaws

  // Splitting

  /** `buffer.split("\n\n")`, scanning from `q` for the piece that begins at `p`. */
  function SplitFrom(s: string, p: nat, q: nat): (r: seq<string>)
    requires p <= q <= |s|
    ensures r != []
    decreases |s| - q
  {
    if q + 2 > |s| then [s[p..]]
    else if BlankLineAt(s, q) then [s[p..q]] + SplitFrom(s, q + 2, q + 2)
    else SplitFrom(s, p, q + 1)
  }

  function Split(s: string): (r: seq<string>)
    ensures r != []
  {
    SplitFrom(s, 0, 0)
  }

  lemma ExtractAt(s: string, p: nat, q: nat)
    requires p <= q && BlankLineAt(s, q) && forall j :: p <= j < q ==> !BlankLineAt(s, j)
    ensures Blocks(s[p..]) == [s[p..q]] + Blocks(s[q + 2..])
    ensures Residual(s[p..]) == Residual(s[q + 2..])
  {
    var t := s[p..];
    assert forall j :: j >= 0 ==> BlankLineAt(t, j) == BlankLineAt(s, p + j);
    BoundaryIs(t, q - p);
    assert t[..q - p] == s[p..q] && t[q - p + 2..] == s[q + 2..];
  }

  lemma NothingToExtract(s: string, p: nat)
    requires p <= |s| && forall j :: p <= j ==> !BlankLineAt(s, j)
    ensures Blocks(s[p..]) == [] && Residual(s[p..]) == s[p..]
  {
    assert forall j :: j >= 0 ==> BlankLineAt(s[p..], j) == BlankLineAt(s, p + j);
    NoBoundary(s[p..]);
  }

  lemma ExtractedFirst(s: string, p: nat, q: nat)
    requires p <= q && BlankLineAt(s, q) && forall j :: p <= j < q ==> !BlankLineAt(s, j)
    requires SplitFrom(s, q + 2, q + 2) == Blocks(s[q + 2..]) + [Residual(s[q + 2..])]
    ensures SplitFrom(s, p, q) == Blocks(s[p..]) + [Residual(s[p..])]
  {
    ExtractAt(s, p, q);
    Associative([s[p..q]], Blocks(s[q + 2..]), [Residual(s[q + 2..])]);
  }

  lemma {:induction false} SplitFromIsExtract(s: string, p: nat, q: nat)
    requires p <= q <= |s| && forall j :: p <= j < q ==> !BlankLineAt(s, j)
    ensures SplitFrom(s, p, q) == Blocks(s[p..]) + [Residual(s[p..])]
    decreases |s| - q
  {
    if q + 2 > |s| {
      NothingToExtract(s, p);
    } else if BlankLineAt(s, q) {
      SplitFromIsExtract(s, q + 2, q + 2);
      ExtractedFirst(s, p, q);
    } else {
      SplitFromIsExtract(s, p, q + 1);
    }
  }

  /** Splitting and keeping the last piece is the `indexOf` loop. */
  lemma SplitIsExtract(s: string)
    ensures Split(s) == Blocks(s) + [Residual(s)]
  {
    SplitFromIsExtract(s, 0, 0);
    assert s[0..] == s;
  }

  // Chunk by chunk

  /** Canvas after some chunks: the blocks seen, and the buffer. */
  function CanvasBlocks(chunks: seq<string>, buffer: string): (seq<string>, string) {
    if chunks == [] then ([], buffer) else
      var pieces := Split(buffer + chunks[0]);
      var more := CanvasBlocks(chunks[1..], pieces[|pieces| - 1]);
      (pieces[..|pieces| - 1] + more.0, more.1)
  }

  /** The headless reader after the same chunks, its line endings normalised. */
  function ClientBlocks(chunks: seq<string>, buffer: string): (seq<string>, string) {
    if chunks == [] then ([], buffer) else
      var text := buffer + Normalise(chunks[0]);
      var more := ClientBlocks(chunks[1..], Residual(text));
      (Blocks(text) + more.0, more.1)
  }

  /** After every chunk of text without carriage returns the two readers agree. */
  lemma {:induction false} FramingsAgree(chunks: seq<string>, buffer: string)
    requires forall i :: 0 <= i < |chunks| ==> NoCarriageReturn(chunks[i])
    ensures CanvasBlocks(chunks, buffer) == ClientBlocks(chunks, buffer)
    decreases |chunks|
  {
    if chunks != [] {
      NormaliseLeaves(chunks[0]);
      var text := buffer + chunks[0];
      SplitOff(text);
      FramingsAgree(chunks[1..], Residual(text));
    }
  }

  /**
   The client reads its blocks: over all chunks it delivers the events of `ClientBlocks`, up to the
   first that fails, unless the buffer overflows; then it delivers a part of them.
   */
  lemma {:induction false} FeedInterpretsBlocks(parse: JsonParser, buffer: string, chunks: seq<string>)
    ensures ReadsBlocks(parse, Feed(parse, buffer, chunks), ClientBlocks(chunks, buffer).0)
    decreases |chunks|
  {
    if chunks != [] {
      var text := buffer + Normalise(chunks[0]);
      var more := ClientBlocks(chunks[1..], Residual(text)).0;
      DrainInterpretsBlocks(parse, text);
      DrainNeverOverflows(parse, text);
      InterpretAllAppend(parse, Blocks(text), more);
      NoneFailsAppend(parse, Blocks(text), more);
      FeedInterpretsBlocks(parse, Residual(text), chunks[1..]);
    }
  }

  ghost predicate ReadsBlocks(parse: JsonParser, p: Parsed, blocks: seq<string>) {
    if p.error == Some(BufferOversized) then p.events <= InterpretAll(parse, blocks)
    else p.events == InterpretAll(parse, blocks) && (p.error.None? <==> NoneFails(parse, blocks))
  }

  /** So on text without carriage returns `parseSse` delivers the events of the page's blocks. */
  lemma ClientReadsThePagesBlocks(parse: JsonParser, chunks: seq<string>)
    requires forall i :: 0 <= i < |chunks| ==> NoCarriageReturn(chunks[i])
    ensures ReadsBlocks(parse, Feed(parse, "", chunks), CanvasBlocks(chunks, "").0)
  {
    FramingsAgree(chunks, "");
    FeedInterpretsBlocks(parse, "", chunks);
  }

  // The page's loop

  /** What the page does with a block: nothing, an event handled, or an exception. */
  function Handle(parse: JsonParser, block: string): Outcome {
    if !StartsWith(block, "data: ") then Skipped
    else match parse(block[6..])
      case None => Failed(InvalidJson)
      case Some(v) => if Get(v, "type").Str? then Yielded(v) else Failed(InvalidJson)
  }

  /** Handled events, and whether the loop is still running after them. */
  function HandleAll(parse: JsonParser, blocks: seq<string>): (seq<Value>, bool) {
    if blocks == [] then ([], true)
    else match Handle(parse, blocks[0])
      case Skipped => HandleAll(parse, blocks[1..])
      case Failed(_) => ([], false)
      case Yielded(event) => ([event] + HandleAll(parse, blocks[1..]).0, HandleAll(parse, blocks[1..]).1)
  }

  lemma {:induction false} HandleAllAppend(parse: JsonParser, a: seq<string>, b: seq<string>)
    ensures HandleAll(parse, a + b).1 == (HandleAll(parse, a).1 && HandleAll(parse, b).1)
    ensures HandleAll(parse, a + b).0
         == HandleAll(parse, a).0 + if HandleAll(parse, a).1 then HandleAll(parse, b).0 else []
  {
    if a == [] {
      assert a + b == b;
    } else {
      assert (a + b)[1..] == a[1..] + b;
      HandleAllAppend(parse, a[1..], b);
    }
  }

  method ReadStream(parse: JsonParser, chunks: seq<string>) returns (events: seq<Value>, ok: bool)
    ensures events == HandleAll(parse, CanvasBlocks(chunks, "").0).0
    ensures ok == HandleAll(parse, CanvasBlocks(chunks, "").0).1
  {
    events, ok := [], true;
    var buffer := "";
    ghost var seen := [];
    for i := 0 to |chunks|
      invariant events == HandleAll(parse, seen).0 && HandleAll(parse, seen).1
      invariant CanvasBlocks(chunks, "").0 == seen + CanvasBlocks(chunks[i..], buffer).0
    {
      assert chunks[i..][1..] == chunks[i + 1..];
      var pieces := Split(buffer + chunks[i]);
      var frames := pieces[..|pieces| - 1];
      buffer := pieces[|pieces| - 1];
      ghost var more := CanvasBlocks(chunks[i + 1..], buffer).0;
      assert seen + (frames + more) == (seen + frames) + more;
      HandleAllAppend(parse, seen, frames);
      seen := seen + frames;
      var found, running := HandleFrames(parse, frames);
      events := events + found;
      if !running {
        HandleAllAppend(parse, seen, more);
        return events, false;
      }
    }
    assert seen + [] == seen;
  }

  method HandleFrames(parse: JsonParser, frames: seq<string>) returns (events: seq<Value>, ok: bool)
    ensures events == HandleAll(parse, frames).0 && ok == HandleAll(parse, frames).1
  {
    events := [];
    for i := 0 to |frames|
      invariant HandleAll(parse, frames).0 == events + HandleAll(parse, frames[i..]).0
      invariant HandleAll(parse, frames).1 == HandleAll(parse, frames[i..]).1
    {
      assert frames[i..][1..] == frames[i + 1..];
      var outcome := Handle(parse, frames[i]);
      if outcome.Failed? {
        return events, false;
      }
      if outcome.Yielded? {
        events := events + [outcome.event];
      }
    }
    ok := true;
  }

  /** A block is handled if it is "data: " and JSON with a textual type; any other data stops the page's loop. */
  lemma BlockDecides(parse: JsonParser, block: string, event: Value)
    ensures Handle(parse, block) == Yielded(event) <==>
            exists text: string :: block == "data: " + text && parse(text) == Some(event) && Get(event, "type").Str?
    ensures Handle(parse, block).Skipped? <==> !exists text: string :: block == "data: " + text
  {
    if StartsWith(block, "data: ") {
      assert block == "data: " + block[6..];
    }
    forall text: string | block == "data: " + text ensures StartsWith(block, "data: ") && block[6..] == text {
    }
  }

  /** The page handles what it can of the blocks up to the first that stops its loop, and stops there. */
  lemma {:induction false} PageStopsAtFirstFailure(parse: JsonParser, blocks: seq<string>, k: nat)
    requires k <= |blocks| && forall i :: 0 <= i < k ==> !Handle(parse, blocks[i]).Failed?
    requires k < |blocks| ==> Handle(parse, blocks[k]).Failed?
    ensures HandleAll(parse, blocks).1 <==> k == |blocks|
    ensures HandleAll(parse, blocks).0 == HandledEvents(parse, blocks[..k])
  {
    if blocks != [] {
      if k > 0 {
        PageStopsAtFirstFailure(parse, blocks[1..], k - 1);
        assert blocks[1..][..k - 1] == blocks[..k][1..];
      }
    }
  }

  /** The events of the blocks that are handled. */
  function HandledEvents(parse: JsonParser, blocks: seq<string>): seq<Value> {
    if blocks == [] then []
    else
      (if Handle(parse, blocks[0]).Yielded? then [Handle(parse, blocks[0]).event] else [])
      + HandledEvents(parse, blocks[1..])
  }

  // On the server's output

  lemma {:induction false} ExtractInTwoParts(a: string, b: string)
    ensures Blocks(a + b) == Blocks(a) + Blocks(Residual(a) + b)
    ensures Residual(a + b) == Residual(Residual(a) + b)
    decreases |a|
  {
    match Boundary(a)
    case None =>
    case Some(k) =>
      BoundaryInPrefix(a, b);
      var rest := a[k + 2..];
      assert (a + b)[..k] == a[..k] && (a + b)[k + 2..] == rest + b;
      ExtractInTwoParts(rest, b);
      BlocksStep(a, k);
      BlocksStep(a + b, k);
      Associative([a[..k]], Blocks(rest), Blocks(Residual(rest) + b));
  }

  lemma SplitOff(s: string)
    ensures var pieces := Split(s);
            pieces[..|pieces| - 1] == Blocks(s) && pieces[|pieces| - 1] == Residual(s)
  {
    SplitIsExtract(s);
  }

  lemma CanvasStep(chunks: seq<string>, buffer: string)
    requires chunks != []
    ensures var text := buffer + chunks[0];
            && CanvasBlocks(chunks, buffer).0 == Blocks(text) + CanvasBlocks(chunks[1..], Residual(text)).0
            && CanvasBlocks(chunks, buffer).1 == CanvasBlocks(chunks[1..], Residual(text)).1
  {
    SplitOff(buffer + chunks[0]);
  }

  lemma {:induction false} CanvasReadsOneText(chunks: seq<string>, buffer: string)
    requires Boundary(buffer).None?
    ensures CanvasBlocks(chunks, buffer).0 == Blocks(buffer + Concat(chunks))
    ensures CanvasBlocks(chunks, buffer).1 == Residual(buffer + Concat(chunks))
    decreases |chunks|
  {
    if chunks == [] {
      assert buffer + Concat(chunks) == buffer;
    } else {
      var text, rest := buffer + chunks[0], Concat(chunks[1..]);
      assert buffer + Concat(chunks) == text + rest;
      ExtractInTwoParts(text, rest);
      CanvasStep(chunks, buffer);
      CanvasReadsOneText(chunks[1..], Residual(text));
    }
  }

  ghost predicate AllTyped(frames: seq<Frame>) {
    forall i :: 0 <= i < |frames| && frames[i].Event? ==> Get(frames[i].event, "type").Str?
  }

  lemma BlockIsHandled(parse: JsonParser, frame: Frame)
    requires Inverts(parse) && Sendable(frame)
    requires frame.Event? ==> Get(frame.event, "type").Str?
    ensures Handle(parse, Block(frame)) == if frame.Event? then Yielded(Carried(frame.event)) else Skipped
  {
    match frame
    case Heartbeat =>
      assert Block(frame)[0] != "data: "[0];
    case Event(event) =>
      InvertedText(parse, event);
      CarriedLookup(event.members, "type");
      assert Block(frame)[..6] == "data: " && Block(frame)[6..] == Stringify(event);
  }

  ghost predicate HandledSoFar(parse: JsonParser, frames: seq<Frame>, text: string) {
    && HandleAll(parse, Blocks(text)).0 == Received(frames[..FramesWithin(frames, |text|)])
    && HandleAll(parse, Blocks(text)).1
  }

  lemma SpokenFrame(frame: Frame)
    requires FrameText(frame) != ""
    ensures !Silent(frame) && FrameText(frame) == Block(frame) + "\n" + "\n"
  {
  }

  lemma {:induction false} PrefixIsHandled(parse: JsonParser, frames: seq<Frame>, text: string)
    requires Inverts(parse) && AllSendable(frames) && AllTyped(frames) && text <= StreamText(frames)
    ensures HandledSoFar(parse, frames, text)
  {
    if frames == [] {
      assert Boundary(text).None?;
    } else {
      var first := FrameText(frames[0]);
      if |text| < |first| {
        SpokenFrame(frames[0]);
        PartialFrame(parse, frames[0], text);
        assert frames[..0] == [];
      } else {
        var rest := text[|first|..];
        assert text == first + rest;
        PrefixIsHandled(parse, frames[1..], rest);
        HandlesFirstFrame(parse, frames, rest);
      }
    }
  }

  lemma FirstBlock(frame: Frame, rest: string)
    requires Boundary(FrameText(frame) + rest) == Some(|Block(frame)|) && !Silent(frame)
    ensures Blocks(FrameText(frame) + rest) == [Block(frame)] + Blocks(rest)
  {
    var text, k := FrameText(frame) + rest, |Block(frame)|;
    assert text[..k] == Block(frame) && text[k + 2..] == rest;
  }

  lemma HandlesFirstFrame(parse: JsonParser, frames: seq<Frame>, rest: string)
    requires Inverts(parse) && AllSendable(frames) && AllTyped(frames) && frames != []
    requires HandledSoFar(parse, frames[1..], rest)
    ensures HandledSoFar(parse, frames, FrameText(frames[0]) + rest)
  {
    ReceivedWithin(frames, |FrameText(frames[0]) + rest|);
    if Silent(frames[0]) {
      assert FrameText(frames[0]) + rest == rest;
    } else {
      WholeFrame(parse, frames[0], rest);
      FirstBlock(frames[0], rest);
      BlockIsHandled(parse, frames[0]);
      assert ([Block(frames[0])] + Blocks(rest))[1..] == Blocks(rest);
    }
  }

  /** On the server's output both readers deliver the same events, wherever the text is cut or stops. */
  lemma ReadersAgreeOnServerOutput(parse: JsonParser, frames: seq<Frame>, chunks: seq<string>)
    requires Inverts(parse) && AllSendable(frames) && AllTyped(frames)
    requires Concat(chunks) <= StreamText(frames)
    ensures HandleAll(parse, CanvasBlocks(chunks, "").0).0 == Feed(parse, "", chunks).events
    ensures HandleAll(parse, CanvasBlocks(chunks, "").0).1
    ensures Feed(parse, "", chunks).error.None?
  {
    StreamPrefixRoundTrip(parse, frames, chunks);
    CanvasReadsOneText(chunks, "");
    assert "" + Concat(chunks) == Concat(chunks);
    PrefixIsHandled(parse, frames, Concat(chunks));
  }
}
