/** What the server writes is what the client reads, however the bytes are cut and wherever they stop. */
module StreamLaws {
  import opened Wrappers
  import opened Text
  import opened Json
  import opened JsonLaws
  import opened Sse
  import opened SseLaws
  import opened EventWriter

  // Compact JSON has no control characters

  predicate NoControl(s: string) {
    forall i :: 0 <= i < |s| ==> s[i] >= ' '
  }

  lemma {:induction false} JoinHasNoControl(parts: seq<string>)
    requires forall i :: 0 <= i < |parts| ==> NoControl(parts[i])
    ensures NoControl(Join(parts, ","))
  {
    if |parts| > 1 {
      JoinHasNoControl(parts[1..]);
    }
  }

  lemma RowHasNoControl(open: char, close: char, parts: seq<string>)
    requires open >= ' ' && close >= ' ' && forall i :: 0 <= i < |parts| ==> NoControl(parts[i])
    ensures NoControl(Bracket(open, close, parts, "", ""))
  {
    JoinHasNoControl(parts);
    assert "," + "" == ",";
  }

  lemma EscapedCharHasNoControl(c: char)
    ensures NoControl(EscapeChar(c))
  {
    if c < ' ' {
      HexDigitsRead(c as nat / 16);
      assert HexDigit(c as nat / 16) >= ' ' && HexDigit(c as nat % 16) >= ' ';
    }
  }

  lemma {:induction false} EscapeHasNoControl(s: string)
    ensures NoControl(Escape(s))
  {
    if s != "" {
      EscapeHasNoControl(s[1..]);
      EscapedCharHasNoControl(s[0]);
    }
  }

  lemma CompactLayout(v: Value)
    ensures v.Arr? ==> Stringify(v) == Bracket('[', ']', PrintItems(v.items, "", ""), "", "")
    ensures v.Obj? ==> Stringify(v) == Bracket('{', '}', PrintMembers(v.members, "", ""), "", "")
  {
    assert "" + "" == "";
  }

  lemma IntHasNoControl(n: int)
    ensures NoControl(PrintInt(n))
  {
    DigitsRead(if n < 0 then -n else n);
  }

  lemma TextHasNoControl(s: string)
    ensures NoControl(Quote(s))
  {
    EscapeHasNoControl(s);
  }

  lemma ScalarHasNoControl(v: Value)
    requires !v.Arr? && !v.Obj?
    ensures NoControl(Stringify(v))
  {
    match v {
      case Int(n) => IntHasNoControl(n);
      case Str(s) => TextHasNoControl(s);
      case _ =>
    }
  }

  lemma {:induction false} CompactHasNoControl(v: Value)
    ensures NoControl(Stringify(v))
    decreases v, 1
  {
    match v {
      case Arr(items) =>
        ItemsHaveNoControl(items);
        RowHasNoControl('[', ']', PrintItems(items, "", ""));
        CompactLayout(v);
      case Obj(members) =>
        MembersHaveNoControl(members);
        RowHasNoControl('{', '}', PrintMembers(members, "", ""));
        CompactLayout(v);
      case _ =>
        ScalarHasNoControl(v);
    }
  }

  lemma {:induction false} ItemsHaveNoControl(items: seq<Value>)
    ensures forall i :: 0 <= i < |items| ==> NoControl(PrintItems(items, "", "")[i])
    decreases items, 0
  {
    if items != [] {
      CompactHasNoControl(items[0]);
      ItemsHaveNoControl(items[1..]);
    }
  }

  lemma {:induction false} MembersHaveNoControl(members: seq<(string, Value)>)
    ensures forall i :: 0 <= i < |PrintMembers(members, "", "")| ==> NoControl(PrintMembers(members, "", "")[i])
    decreases members, 0
  {
    if members != [] {
      MemberHasNoControl(members[0]);
      MembersHaveNoControl(members[1..]);
    }
  }

  lemma {:induction false} MemberHasNoControl(member: (string, Value))
    ensures NoControl(PrintMember(member, "", ""))
    decreases member, 0
  {
    EscapeHasNoControl(member.0);
    CompactHasNoControl(member.1);
  }

  // One frame

  /** `JSON.parse` undoes `JSON.stringify`. */
  ghost predicate Inverts(parse: JsonParser) {
    forall v :: Plain(v) ==> parse(Stringify(v)) == Some(v)
  }

  /** The parser of module Json does. */
  lemma ParseInverts()
    ensures Inverts(Parse)
  {
    forall v | Plain(v) ensures Parse(Stringify(v)) == Some(v) {
      ParseUndoesPrint(v, "", "");
      assert Stringify(v) + "" == Stringify(v);
    }
  }

  lemma InvertedText(parse: JsonParser, v: Value)
    requires Inverts(parse) && WellNamed(v)
    ensures parse(Stringify(v)) == Some(Carried(v))
  {
    CarriedIsPlain(v);
    CarriedPrintsAlike(v, "", "");
  }

  /** What a reader makes of the public events: each as its JSON text carries it. */
  function Received(frames: seq<Frame>): seq<Value> {
    CarriedItems(Visible(frames))
  }

  /** An event the engine can publish, small enough for the client's bound. */
  ghost predicate Sendable(frame: Frame) {
    frame.Event? ==>
      && frame.event.Obj? && WellNamed(frame.event)
      && (Internal(frame.event) || ByteLength(Block(frame)) + 1 <= MAX_BYTES)
  }

  ghost predicate AllSendable(frames: seq<Frame>) {
    forall i :: 0 <= i < |frames| ==> Sendable(frames[i])
  }

  lemma BlockIsOneLine(frame: Frame)
    ensures NoControl(Block(frame))
  {
    if frame.Event? {
      CompactHasNoControl(frame.event);
    }
  }

  lemma BlockIsRead(parse: JsonParser, frame: Frame)
    requires Inverts(parse) && Sendable(frame) && !Silent(frame)
    ensures Interpret(parse, Block(frame)) == if frame.Event? then Yielded(Carried(frame.event)) else Skipped
  {
    BlockIsOneLine(frame);
    OneLine(Block(frame));
    match frame
    case Heartbeat =>
      assert DataLines([Block(frame)]) == [];
    case Event(event) =>
      InvertedText(parse, event);
      DataLineOf(Stringify(event));
      ByteLengthAdds("data: ", Stringify(event));
  }

  lemma DataLineOf(json: string)
    requires json != "" && json[0] == '{'
    ensures DataLines(["data: " + json]) == [json]
  {
    var line := "data: " + json;
    assert line[..5] == "data:" && line[5..] == " " + json;
    assert (" " + json)[1..] == json;
    assert TrimStart(" " + json) == json;
  }

  lemma HeartbeatFits()
    ensures ByteLength(Block(Heartbeat)) <= 20
  {
    SmallBytes(": heart");
    SmallBytes("beat");
    ByteLengthAdds(": heart", "beat");
    assert ": heart" + "beat" == ": heartbeat";
  }

  lemma {:induction false} SmallBytes(s: string)
    requires forall i :: 0 <= i < |s| ==> s[i] < '\U{80}'
    ensures ByteLength(s) == |s|
  {
    if s != "" {
      SmallBytes(s[1..]);
    }
  }

  // The stream

  /** How many frames lie wholly within the first `length` characters. */
  function FramesWithin(frames: seq<Frame>, length: nat): (n: nat)
    ensures n <= |frames|
  {
    if frames == [] || length < |FrameText(frames[0])| then 0
    else 1 + FramesWithin(frames[1..], length - |FrameText(frames[0])|)
  }

  lemma {:induction false} AllFramesWithin(frames: seq<Frame>)
    ensures FramesWithin(frames, |StreamText(frames)|) == |frames|
  {
    if frames != [] {
      AllFramesWithin(frames[1..]);
    }
  }

  lemma {:induction false} StreamHasNoCr(frames: seq<Frame>)
    ensures NoCarriageReturn(StreamText(frames))
  {
    if frames != [] {
      BlockIsOneLine(frames[0]);
      StreamHasNoCr(frames[1..]);
    }
  }

  lemma FrameIsBounded(frame: Frame)
    requires Sendable(frame) && !Silent(frame)
    ensures ByteLength(Block(frame) + "\n") <= MAX_BYTES
  {
    ByteLengthAdds(Block(frame), "\n");
    assert ByteLength("\n") == 1;
    if frame.Heartbeat? { HeartbeatFits(); }
  }

  lemma PrefixIsShorter(text: string, line: string)
    requires text <= line
    ensures ByteLength(text) <= ByteLength(line)
  {
    assert line == text + line[|text|..];
    ByteLengthAdds(text, line[|text|..]);
  }

  /** A frame cut short is left in the buffer. */
  lemma PartialFrame(parse: JsonParser, frame: Frame, text: string)
    requires Sendable(frame) && !Silent(frame) && text <= Block(frame) + "\n"
    ensures Boundary(text).None? && Fits(parse, text)
  {
    BlockIsOneLine(frame);
    NoBoundary(text);
    FrameIsBounded(frame);
    PrefixIsShorter(text, Block(frame) + "\n");
  }

  lemma WholeFrame(parse: JsonParser, frame: Frame, rest: string)
    requires Inverts(parse) && Sendable(frame) && !Silent(frame)
    ensures Drain(parse, FrameText(frame) + rest)
         == if frame.Event? then Prepend([Carried(frame.event)], Drain(parse, rest)) else Drain(parse, rest)
    ensures Fits(parse, rest) ==> Fits(parse, FrameText(frame) + rest)
    ensures Boundary(FrameText(frame) + rest) == Some(|Block(frame)|)
  {
    BlockIsOneLine(frame);
    BlockIsRead(parse, frame);
    var text := FrameText(frame) + rest;
    var k := |Block(frame)|;
    BoundaryIs(text, k);
    assert text[..k] == Block(frame) && text[k + 2..] == rest;
    DrainStep(parse, text, k);
    if frame.Heartbeat? { HeartbeatFits(); }
  }

  lemma ReceivedWithin(frames: seq<Frame>, length: nat)
    requires frames != [] && |FrameText(frames[0])| <= length
    ensures var rest := Received(frames[1..][..FramesWithin(frames[1..], length - |FrameText(frames[0])|)]);
            Received(frames[..FramesWithin(frames, length)])
            == if frames[0].Event? && !Silent(frames[0]) then [Carried(frames[0].event)] + rest else rest
  {
    var n := FramesWithin(frames[1..], length - |FrameText(frames[0])|);
    assert frames[..1 + n][1..] == frames[1..][..n];
  }

  /** The reader is through with `text`, a part of what `frames` write, and all of it fitted. */
  ghost predicate ReadSoFar(parse: JsonParser, frames: seq<Frame>, text: string) {
    && Whole(parse, text) == Parsed(Received(frames[..FramesWithin(frames, |text|)]), None)
    && Fits(parse, text)
  }

  lemma ReadsFirstFrame(parse: JsonParser, frames: seq<Frame>, rest: string)
    requires Inverts(parse) && AllSendable(frames) && frames != []
    requires ReadSoFar(parse, frames[1..], rest)
    ensures ReadSoFar(parse, frames, FrameText(frames[0]) + rest)
  {
    ReceivedWithin(frames, |FrameText(frames[0]) + rest|);
    if Silent(frames[0]) {
      assert FrameText(frames[0]) + rest == rest;
    } else {
      WholeFrame(parse, frames[0], rest);
    }
  }

  lemma ReadsPartOfFirstFrame(parse: JsonParser, frames: seq<Frame>, text: string)
    requires AllSendable(frames) && frames != []
    requires text <= FrameText(frames[0]) && |text| < |FrameText(frames[0])|
    ensures ReadSoFar(parse, frames, text)
  {
    assert FrameText(frames[0]) == Block(frames[0]) + "\n" + "\n";
    PartialFrame(parse, frames[0], text);
    assert frames[..0] == [];
  }

  lemma {:induction false} PrefixIsRead(parse: JsonParser, frames: seq<Frame>, text: string)
    requires Inverts(parse) && AllSendable(frames) && text <= StreamText(frames)
    ensures ReadSoFar(parse, frames, text)
  {
    if frames == [] {
      assert Boundary(text).None?;
    } else {
      var first := FrameText(frames[0]);
      if |text| < |first| {
        ReadsPartOfFirstFrame(parse, frames, text);
      } else {
        var rest := text[|first|..];
        assert text == first + rest;
        PrefixIsRead(parse, frames[1..], rest);
        ReadsFirstFrame(parse, frames, rest);
      }
    }
  }

  /**
   A connection that carries the start of a stream, cut into chunks anywhere, delivers exactly the
   public events of the frames that arrived whole, in order, and no error.
   */
  lemma StreamPrefixRoundTrip(parse: JsonParser, frames: seq<Frame>, chunks: seq<string>)
    requires Inverts(parse) && AllSendable(frames) && Concat(chunks) <= StreamText(frames)
    ensures Feed(parse, "", chunks) == Parsed(Received(frames[..FramesWithin(frames, |Concat(chunks)|)]), None)
  {
    var text := Concat(chunks);
    StreamHasNoCr(frames);
    PrefixIsRead(parse, frames, text);
    assert NoCarriageReturn(text) by {
      forall i | 0 <= i < |text| ensures text[i] != '\r' {
        assert text[i] == StreamText(frames)[i];
      }
    }
    ReadsAsUnboundedExactlyWhenItFits(parse, text);
  }

  /** A stream read to its end delivers exactly its public events, under any chunking. */
  lemma StreamRoundTrip(parse: JsonParser, frames: seq<Frame>, chunks: seq<string>)
    requires Inverts(parse) && AllSendable(frames) && Concat(chunks) == StreamText(frames)
    ensures Feed(parse, "", chunks) == Parsed(Received(frames), None)
  {
    StreamPrefixRoundTrip(parse, frames, chunks);
    AllFramesWithin(frames);
    assert frames[..|frames|] == frames;
  }

  // Events that are lost

  function Blanks(n: nat): string {
    seq(n, _ => ' ')
  }

  /** A block that carries an empty object behind any number of blanks. */
  function PaddedBlock(n: nat): string {
    "data:" + (Blanks(n) + "{}")
  }

  lemma {:induction false} BlanksAreTrimmed(n: nat)
    ensures TrimStart(Blanks(n) + "{}") == "{}"
  {
    if n > 0 {
      assert (Blanks(n) + "{}")[1..] == Blanks(n - 1) + "{}";
      BlanksAreTrimmed(n - 1);
    }
  }

  lemma EmptyObjectIsRead()
    ensures Parse("{}") == Some(Obj([])) && ByteLength("{}") == 2
  {
    assert Stringify(Obj([])) == "{}" && "{}" + "" == "{}";
    ParseUndoesPrint(Obj([]), "", "");
    SmallBytes("{}");
  }

  lemma PaddedBlockIsRead(n: nat)
    ensures NoCarriageReturn(PaddedBlock(n)) && '\n' !in PaddedBlock(n)
    ensures ByteLength(PaddedBlock(n)) == n + 7
    ensures Interpret(Parse, PaddedBlock(n)) == Yielded(Obj([]))
  {
    var block := PaddedBlock(n);
    SmallBytes(block);
    OneLine(block);
    assert block[..5] == "data:" && block[5..] == Blanks(n) + "{}";
    BlanksAreTrimmed(n);
    EmptyObjectIsRead();
    assert [block][1..] == [];
    assert DataLines([block]) == ["{}"];
  }

  /** So there is an event at the limit that one piece delivers and two lose. */
  lemma AnEventAtTheLimitIsLost()
    ensures !CutsReadAlike(Parse, PaddedBlock(MAX_BYTES - 7) + "\n\n")
  {
    PaddedBlockIsRead(MAX_BYTES - 7);
    FrameAtTheLimitIsLost(Parse, PaddedBlock(MAX_BYTES - 7), Obj([]));
  }

  /** And events that a cut inside their last CRLF loses. */
  lemma ACutCrlfLosesAnEvent(n: nat)
    ensures Feed(Parse, "", [PaddedBlock(n) + "\r\n\r\n"]).events == [Obj([])]
    ensures Feed(Parse, "", [PaddedBlock(n) + "\r\n\r"] + ["\n"]).events == []
  {
    PaddedBlockIsRead(n);
    SplitCrlfLosesAnEvent(Parse, PaddedBlock(n), Obj([]));
    var whole := [PaddedBlock(n) + "\r\n\r\n"];
    assert whole + [] == whole;
  }
}
