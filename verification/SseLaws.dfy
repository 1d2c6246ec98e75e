/** How far the way a stream is cut into chunks can be seen by its reader. */
module SseLaws {
  import opened Wrappers
  import opened Text
  import opened Json
  import opened Sse

  // Text lengths and boundaries

  lemma {:induction false} ByteLengthAdds(a: string, b: string)
    ensures ByteLength(a + b) == ByteLength(a) + ByteLength(b)
  {
    if a == "" {
      assert a + b == b;
    } else {
      assert (a + b)[1..] == a[1..] + b;
      ByteLengthAdds(a[1..], b);
    }
  }

  /** The first blank line is where a blank line is and none comes before it. */
  lemma {:induction false} BoundaryIs(s: string, k: nat)
    requires BlankLineAt(s, k) && forall j :: j < k ==> !BlankLineAt(s, j)
    ensures Boundary(s) == Some(k)
  {
  }

  lemma BlankLinesOfPrefix(text: string, n: nat)
    requires n <= |text|
    ensures forall j :: BlankLineAt(text[..n], j) <==> j + 1 < n && BlankLineAt(text, j)
  {
  }

  lemma {:induction false} BoundaryInPrefix(a: string, b: string)
    requires Boundary(a).Some?
    ensures Boundary(a + b) == Boundary(a)
  {
    var k := Boundary(a).value;
    assert BlankLineAt(a + b, k);
    forall j | j < k ensures !BlankLineAt(a + b, j) {
      assert !BlankLineAt(a, j);
    }
    BoundaryIs(a + b, k);
  }

  lemma {:induction false} NoBoundary(s: string)
    requires forall j :: !BlankLineAt(s, j)
    ensures Boundary(s).None?
  {
  }

  lemma DrainStep(parse: JsonParser, s: string, k: nat)
    requires Boundary(s) == Some(k)
    ensures Drain(parse, s) == After(Interpret(parse, s[..k]), s[k + 2..], Drain(parse, s[k + 2..]))
  {
  }

  // The blocks of a text

  /** The blocks the `indexOf` loop takes off the buffer. */
  function Blocks(s: string): seq<string>
    decreases |s|
  {
    match Boundary(s)
    case None => []
    case Some(k) => [s[..k]] + Blocks(s[k + 2..])
  }

  /** What it leaves. */
  function Residual(s: string): (r: string)
    ensures Boundary(r).None?
    decreases |s|
  {
    match Boundary(s)
    case None => s
    case Some(k) => Residual(s[k + 2..])
  }

  lemma BlocksStep(s: string, k: nat)
    requires Boundary(s) == Some(k)
    ensures Blocks(s) == [s[..k]] + Blocks(s[k + 2..])
    ensures Residual(s) == Residual(s[k + 2..])
  {
  }

  /** The events of a run of blocks, up to the first that fails. */
  function InterpretAll(parse: JsonParser, blocks: seq<string>): seq<Value> {
    if blocks == [] then []
    else match Interpret(parse, blocks[0])
      case Skipped => InterpretAll(parse, blocks[1..])
      case Failed(_) => []
      case Yielded(event) => [event] + InterpretAll(parse, blocks[1..])
  }

  ghost predicate NoneFails(parse: JsonParser, blocks: seq<string>) {
    forall b :: b in blocks ==> !Interpret(parse, b).Failed?
  }

  lemma {:induction false} InterpretAllAppend(parse: JsonParser, a: seq<string>, b: seq<string>)
    ensures InterpretAll(parse, a + b)
         == InterpretAll(parse, a) + if NoneFails(parse, a) then InterpretAll(parse, b) else []
    decreases |a|
  {
    if a == [] {
      assert a + b == b;
    } else {
      HeadAndRest(a, b);
      InterpretAllAppend(parse, a[1..], b);
      InterpretAllStep(parse, a[0], a[1..]);
      InterpretAllStep(parse, a[0], a[1..] + b);
      EventsBehind(Interpret(parse, a[0]), InterpretAll(parse, a[1..]),
                   if NoneFails(parse, a[1..]) then InterpretAll(parse, b) else []);
    }
  }

  /** What a block makes of the events behind it. */
  function Led(outcome: Outcome, more: seq<Value>): seq<Value> {
    if outcome.Failed? then [] else if outcome.Yielded? then [outcome.event] + more else more
  }

  lemma EventsBehind(outcome: Outcome, a: seq<Value>, b: seq<Value>)
    ensures Led(outcome, a + b) == Led(outcome, a) + if outcome.Failed? then [] else b
  {
    if outcome.Yielded? {
      Associative([outcome.event], a, b);
    }
  }

  lemma NoneFailsAppend(parse: JsonParser, a: seq<string>, b: seq<string>)
    ensures NoneFails(parse, a + b) <==> NoneFails(parse, a) && NoneFails(parse, b)
  {
    assert forall x :: x in a + b <==> x in a || x in b;
  }

  lemma InterpretAllStep(parse: JsonParser, block: string, blocks: seq<string>)
    ensures InterpretAll(parse, [block] + blocks) == Led(Interpret(parse, block), InterpretAll(parse, blocks))
    ensures NoneFails(parse, [block] + blocks)
        <==> !Interpret(parse, block).Failed? && NoneFails(parse, blocks)
  {
    assert ([block] + blocks)[1..] == blocks;
    assert forall b :: b in [block] + blocks <==> b == block || b in blocks;
  }

  /** Draining a buffer is interpreting its blocks. */
  lemma {:induction false} DrainInterpretsBlocks(parse: JsonParser, s: string)
    ensures Drain(parse, s).error.None? ==> Drain(parse, s).residual == Residual(s)
    ensures Drain(parse, s).error.None? <==> NoneFails(parse, Blocks(s))
    ensures Drain(parse, s).events == InterpretAll(parse, Blocks(s))
    decreases |s|
  {
    match Boundary(s)
    case None =>
    case Some(k) =>
      DrainStep(parse, s, k);
      BlocksStep(s, k);
      DrainInterpretsBlocks(parse, s[k + 2..]);
      InterpretAllStep(parse, s[..k], Blocks(s[k + 2..]));
  }

  // Draining in two parts

  ghost predicate InTwoParts(parse: JsonParser, d: Drained, b: string, d': Drained) {
    if d.error.Some? then d'.error == d.error && d'.events == d.events
    else d' == Prepend(d.events, Drain(parse, d.residual + b))
  }

  /** Draining a text is draining its first part and then what that left, with the second behind it. */
  lemma {:induction false} DrainInTwoParts(parse: JsonParser, a: string, b: string)
    ensures InTwoParts(parse, Drain(parse, a), b, Drain(parse, a + b))
    decreases |a|
  {
    match Boundary(a)
    case None =>
      assert Prepend([], Drain(parse, a + b)) == Drain(parse, a + b);
    case Some(k) =>
      BoundaryInPrefix(a, b);
      var rest := a[k + 2..];
      assert (a + b)[..k] == a[..k] && (a + b)[k + 2..] == rest + b;
      DrainStep(parse, a, k);
      DrainStep(parse, a + b, k);
      DrainInTwoParts(parse, rest, b);
      AfterInTwoParts(parse, Interpret(parse, a[..k]), rest, b, Drain(parse, rest), Drain(parse, rest + b));
  }

  lemma AfterInTwoParts(parse: JsonParser, outcome: Outcome, rest: string, b: string, d: Drained, d': Drained)
    requires InTwoParts(parse, d, b, d')
    ensures InTwoParts(parse, After(outcome, rest, d), b, After(outcome, rest + b, d'))
  {
    if outcome.Yielded? && d.error.None? {
      PrependTwice([outcome.event], d.events, Drain(parse, d.residual + b));
    }
  }

  // Byte bounds

  /** Every frame the reader gets to, with the first newline of its terminator, is within the bound. */
  predicate Fits(parse: JsonParser, text: string)
    decreases |text|
  {
    match Boundary(text)
    case None => ByteLength(text) <= MAX_BYTES
    case Some(k) =>
      && ByteLength(text[..k]) + 1 <= MAX_BYTES
      && (Interpret(parse, text[..k]).Failed? || Fits(parse, text[k + 2..]))
  }

  lemma CutBefore(a: string, b: string, k: nat, n: nat)
    requires k <= n <= |a|
    ensures (a + b)[..k] == a[..k] && (a + b)[n..] == a[n..] + b
  {
  }

  lemma {:induction false} FitsAfterDrain(parse: JsonParser, a: string, b: string)
    requires Fits(parse, a + b) && Drain(parse, a).error.None?
    ensures Fits(parse, Drain(parse, a).residual + b)
    decreases |a|
  {
    match Boundary(a)
    case None =>
    case Some(k) =>
      DrainStep(parse, a, k);
      BoundaryInPrefix(a, b);
      CutBefore(a, b, k, k + 2);
      FitsStep(parse, a + b, k);
      FitsAfterDrain(parse, a[k + 2..], b);
  }

  lemma FitsStep(parse: JsonParser, text: string, k: nat)
    requires Boundary(text) == Some(k) && Fits(parse, text) && !Interpret(parse, text[..k]).Failed?
    ensures Fits(parse, text[k + 2..])
  {
  }

  lemma LineBytes(text: string, k: nat)
    requires k < |text| && text[k] == '\n'
    ensures ByteLength(text[..k + 1]) == ByteLength(text[..k]) + 1
  {
    assert text[..k + 1] == text[..k] + "\n";
    ByteLengthAdds(text[..k], "\n");
    assert ByteLength("\n") == 1;
  }

  lemma PrefixBytes(text: string, n: nat)
    requires n <= |text|
    ensures ByteLength(text[..n]) <= ByteLength(text)
  {
    assert text[..n] + text[n..] == text;
    ByteLengthAdds(text[..n], text[n..]);
  }

  lemma {:induction false} ResidualFits(parse: JsonParser, residual: string, b: string)
    requires Fits(parse, residual + b) && Boundary(residual).None?
    ensures ByteLength(residual) <= MAX_BYTES
  {
    var text := residual + b;
    match Boundary(text)
    case None =>
      ByteLengthAdds(residual, b);
    case Some(k) =>
      BlankLinesOfPrefix(text, |residual|);
      assert text[..|residual|] == residual;
      assert !BlankLineAt(residual, k);
      LineBytes(text, k);
      PrefixBytes(text[..k + 1], |residual|);
      assert text[..k + 1][..|residual|] == residual;
  }

  // Chunks

  function NormaliseAll(chunks: seq<string>): (r: seq<string>)
    ensures |r| == |chunks|
    ensures forall i :: 0 <= i < |r| ==> r[i] == Normalise(chunks[i])
  {
    seq(|chunks|, i requires 0 <= i < |chunks| => Normalise(chunks[i]))
  }

  /** The text the framing loop sees. */
  function Fed(chunks: seq<string>): string {
    Concat(NormaliseAll(chunks))
  }

  lemma FedSplits(chunks: seq<string>)
    requires chunks != []
    ensures Fed(chunks) == Normalise(chunks[0]) + Fed(chunks[1..])
  {
    assert NormaliseAll(chunks)[1..] == NormaliseAll(chunks[1..]);
  }

  /** While the frames fit, reading chunk by chunk is reading the text at once. */
  lemma {:induction false} ChunksReadAsOneText(parse: JsonParser, buffer: string, chunks: seq<string>)
    requires Boundary(buffer).None? && Fits(parse, buffer + Fed(chunks))
    ensures Feed(parse, buffer, chunks) == Whole(parse, buffer + Fed(chunks))
    decreases |chunks|
  {
    if chunks == [] {
      assert buffer + Fed(chunks) == buffer;
    } else {
      FedSplits(chunks);
      var a, b := buffer + Normalise(chunks[0]), Fed(chunks[1..]);
      assert buffer + Fed(chunks) == a + b;
      DrainInTwoParts(parse, a, b);
      var d := Drain(parse, a);
      if d.error.None? {
        FitsAfterDrain(parse, a, b);
        ResidualFits(parse, d.residual, b);
        ChunksReadAsOneText(parse, d.residual, chunks[1..]);
      }
    }
  }

  /** Read so far, the text leaves more in the buffer than is allowed. */
  ghost predicate Overflows(parse: JsonParser, text: string) {
    Drain(parse, text).error.None? && ByteLength(Drain(parse, text).residual) > MAX_BYTES
  }

  /** A text that does not fit can be cut so that the reader gives up on its buffer. */
  lemma {:induction false} CutThatOverflows(parse: JsonParser, text: string) returns (cut: nat)
    requires !Fits(parse, text)
    ensures cut <= |text| && Overflows(parse, text[..cut])
    decreases |text|
  {
    match Boundary(text)
    case None =>
      cut := |text|;
      assert text[..cut] == text;
    case Some(k) =>
      if ByteLength(text[..k]) + 1 > MAX_BYTES {
        cut := k + 1;
        CutInTerminator(text, k);
      } else {
        var cut' := CutThatOverflows(parse, text[k + 2..]);
        cut := FrameAhead(text, k, cut');
        OverflowsBehindBlock(parse, text[..cut], k);
      }
  }

  lemma OverflowsBehindBlock(parse: JsonParser, a: string, k: nat)
    requires Boundary(a) == Some(k) && !Interpret(parse, a[..k]).Failed? && Overflows(parse, a[k + 2..])
    ensures Overflows(parse, a)
  {
    DrainStep(parse, a, k);
  }

  ghost predicate ReadsAsUnbounded(parse: JsonParser, text: string) {
    forall chunks :: Concat(chunks) == text ==> Feed(parse, "", chunks) == Whole(parse, text)
  }

  predicate NoCarriageReturn(s: string) {
    forall i :: 0 <= i < |s| ==> s[i] != '\r'
  }

  lemma {:induction false} NormaliseLeaves(s: string)
    requires NoCarriageReturn(s)
    ensures Normalise(s) == s
  {
    if |s| >= 2 {
      NormaliseLeaves(s[1..]);
      assert s == [s[0]] + s[1..];
    }
  }

  lemma {:induction false} FedLeaves(chunks: seq<string>)
    requires NoCarriageReturn(Concat(chunks))
    ensures Fed(chunks) == Concat(chunks)
    decreases |chunks|
  {
    if chunks != [] {
      assert forall i :: 0 <= i < |chunks[0]| ==> Concat(chunks)[i] == chunks[0][i];
      NormaliseLeaves(chunks[0]);
      var rest := Concat(chunks[1..]);
      assert forall i :: 0 <= i < |rest| ==> Concat(chunks)[|chunks[0]| + i] == rest[i];
      FedLeaves(chunks[1..]);
      FedSplits(chunks);
    }
  }

  /** Text without carriage returns reads as if there were no bound, in every cut, exactly when it fits. */
  lemma ReadsAsUnboundedExactlyWhenItFits(parse: JsonParser, text: string)
    requires NoCarriageReturn(text)
    ensures ReadsAsUnbounded(parse, text) <==> Fits(parse, text)
  {
    if Fits(parse, text) {
      forall chunks | Concat(chunks) == text ensures Feed(parse, "", chunks) == Whole(parse, text) {
        FittingCutIsHidden(parse, chunks);
      }
    } else {
      var cut := CutThatOverflows(parse, text);
      CutShows(parse, text, cut);
      assert Concat([text[..cut], text[cut..]]) == text;
    }
  }

  lemma FittingCutIsHidden(parse: JsonParser, chunks: seq<string>)
    requires NoCarriageReturn(Concat(chunks)) && Fits(parse, Concat(chunks))
    ensures Feed(parse, "", chunks) == Whole(parse, Concat(chunks))
  {
    FedLeaves(chunks);
    assert "" + Fed(chunks) == Fed(chunks);
    ChunksReadAsOneText(parse, "", chunks);
  }

  lemma OverflowingRead(parse: JsonParser, chunks: seq<string>)
    requires chunks != [] && NoCarriageReturn(chunks[0])
    requires Drain(parse, chunks[0]).error.None? && ByteLength(Drain(parse, chunks[0]).residual) > MAX_BYTES
    ensures Feed(parse, "", chunks).error == Some(BufferOversized)
  {
    NormaliseLeaves(chunks[0]);
    assert "" + chunks[0] == chunks[0];
  }

  lemma CutShows(parse: JsonParser, text: string, cut: nat)
    requires NoCarriageReturn(text) && cut <= |text| && Drain(parse, text[..cut]).error.None?
    requires ByteLength(Drain(parse, text[..cut]).residual) > MAX_BYTES
    ensures Concat([text[..cut], text[cut..]]) == text
    ensures Feed(parse, "", [text[..cut], text[cut..]]) != Whole(parse, text)
  {
    TwoPieces(text, cut);
    OverflowingRead(parse, [text[..cut], text[cut..]]);
    DrainNeverOverflows(parse, text);
  }

  lemma TwoPieces(text: string, cut: nat)
    requires cut <= |text|
    ensures Concat([text[..cut], text[cut..]]) == text
  {
    var chunks := [text[..cut], text[cut..]];
    assert chunks[1..] == [text[cut..]] && chunks[1..][1..] == [];
    assert Concat(chunks[1..]) == text[cut..] + "" == text[cut..];
  }

  lemma {:induction false} DrainNeverOverflows(parse: JsonParser, text: string)
    ensures Drain(parse, text).error != Some(BufferOversized)
    decreases |text|
  {
    match Boundary(text)
    case None =>
    case Some(k) =>
      DrainStep(parse, text, k);
      DrainNeverOverflows(parse, text[k + 2..]);
  }

  // When the reader cannot tell one cut from another

  /** The text read in one piece. */
  function AtOnce(parse: JsonParser, text: string): Parsed {
    var d := Drain(parse, text);
    if d.error.None? && ByteLength(d.residual) > MAX_BYTES then Parsed(d.events, Some(BufferOversized))
    else Parsed(d.events, d.error)
  }

  /** Every complete frame is skipped, and what is left behind the last exceeds the bound. */
  ghost predicate OverflowsSilently(parse: JsonParser, text: string) {
    && (forall block :: block in Blocks(text) ==> Interpret(parse, block).Skipped?)
    && ByteLength(Residual(text)) > MAX_BYTES
  }

  /** So nothing is delivered and the reader complains of the buffer. */
  lemma {:induction false} SilentExactly(parse: JsonParser, text: string)
    ensures OverflowsSilently(parse, text) <==> AtOnce(parse, text) == Parsed([], Some(BufferOversized))
    decreases |text|
  {
    match Boundary(text)
    case None =>
    case Some(k) =>
      var rest := text[k + 2..];
      DrainStep(parse, text, k);
      DrainNeverOverflows(parse, text);
      SilentExactly(parse, rest);
      SilentBlocks(parse, text, k);
  }

  lemma SilentBlocks(parse: JsonParser, text: string, k: nat)
    requires Boundary(text) == Some(k)
    ensures OverflowsSilently(parse, text)
        <==> Interpret(parse, text[..k]).Skipped? && OverflowsSilently(parse, text[k + 2..])
  {
    BlocksStep(text, k);
    var rest := Blocks(text[k + 2..]);
    assert forall b :: b in [text[..k]] + rest <==> b == text[..k] || b in rest;
  }

  /**
   Every complete frame up to the first failing one, with the first newline of its terminator, is
   within the bound; what is left behind the last frame may be of any size.  A frame that is not
   within the bound is allowed only where the text overflows silently from that frame on.
   */
  ghost predicate Blind(parse: JsonParser, text: string)
    decreases |text|
  {
    match Boundary(text)
    case None => true
    case Some(k) =>
      if ByteLength(text[..k]) + 1 > MAX_BYTES then OverflowsSilently(parse, text)
      else Interpret(parse, text[..k]).Failed? || Blind(parse, text[k + 2..])
  }

  lemma SilentStep(parse: JsonParser, text: string, k: nat)
    requires Boundary(text) == Some(k) && OverflowsSilently(parse, text)
    ensures !Interpret(parse, text[..k]).Failed? && OverflowsSilently(parse, text[k + 2..])
  {
    SilentBlocks(parse, text, k);
  }

  lemma {:induction false} SilentIsBlind(parse: JsonParser, text: string)
    requires OverflowsSilently(parse, text)
    ensures Blind(parse, text)
    decreases |text|
  {
    match Boundary(text)
    case None =>
    case Some(k) =>
      SilentStep(parse, text, k);
      SilentIsBlind(parse, text[k + 2..]);
  }

  lemma BlindStep(parse: JsonParser, text: string, k: nat)
    requires Boundary(text) == Some(k) && Blind(parse, text) && !Interpret(parse, text[..k]).Failed?
    ensures Blind(parse, text[k + 2..])
  {
    if ByteLength(text[..k]) + 1 > MAX_BYTES {
      SilentStep(parse, text, k);
      SilentIsBlind(parse, text[k + 2..]);
    }
  }

  lemma {:induction false} BlindAfterDrain(parse: JsonParser, a: string, b: string)
    requires Blind(parse, a + b) && Drain(parse, a).error.None?
    ensures Blind(parse, Drain(parse, a).residual + b)
    decreases |a|
  {
    match Boundary(a)
    case None =>
    case Some(k) =>
      DrainStep(parse, a, k);
      BoundaryInPrefix(a, b);
      CutBefore(a, b, k, k + 2);
      BlindStep(parse, a + b, k);
      BlindAfterDrain(parse, a[k + 2..], b);
  }

  /** Where a residual overflows, blind text has nothing more to offer. */
  lemma OverflowIsFinal(parse: JsonParser, residual: string, b: string)
    requires Boundary(residual).None? && ByteLength(residual) > MAX_BYTES && Blind(parse, residual + b)
    ensures OverflowsSilently(parse, residual + b)
  {
    match Boundary(residual + b)
    case None => ByteLengthAdds(residual, b);
    case Some(k) => FrameAroundResidual(residual, b, k);
  }

  lemma FrameAroundResidual(residual: string, b: string, k: nat)
    requires Boundary(residual).None? && Boundary(residual + b) == Some(k)
    ensures ByteLength((residual + b)[..k]) + 1 >= ByteLength(residual)
  {
    var text := residual + b;
    BlankLinesOfPrefix(text, |residual|);
    assert text[..|residual|] == residual;
    assert !BlankLineAt(residual, k);
    LineBytes(text, k);
    PrefixBytes(text[..k + 1], |residual|);
    assert text[..k + 1][..|residual|] == residual;
  }

  /** In blind text every cut reads as the whole does at once. */
  lemma {:induction false} BlindCutsReadAtOnce(parse: JsonParser, buffer: string, chunks: seq<string>)
    requires Boundary(buffer).None? && ByteLength(buffer) <= MAX_BYTES && Blind(parse, buffer + Fed(chunks))
    ensures Feed(parse, buffer, chunks) == AtOnce(parse, buffer + Fed(chunks))
    decreases |chunks|
  {
    if chunks == [] {
      assert buffer + Fed(chunks) == buffer;
    } else {
      FedSplits(chunks);
      var a, b := buffer + Normalise(chunks[0]), Fed(chunks[1..]);
      Associative(buffer, Normalise(chunks[0]), b);
      DrainInTwoParts(parse, a, b);
      var d := Drain(parse, a);
      if d.error.None? {
        BlindAfterDrain(parse, a, b);
        if ByteLength(d.residual) > MAX_BYTES {
          OverflowIsFinal(parse, d.residual, b);
          SilentExactly(parse, d.residual + b);
        } else {
          BlindCutsReadAtOnce(parse, d.residual, chunks[1..]);
        }
        AtOnceInTwoParts(parse, a, b);
      }
    }
  }

  lemma AtOnceInTwoParts(parse: JsonParser, a: string, b: string)
    requires Drain(parse, a).error.None?
    ensures var rest := AtOnce(parse, Drain(parse, a).residual + b);
            AtOnce(parse, a + b) == Parsed(Drain(parse, a).events + rest.events, rest.error)
  {
    DrainInTwoParts(parse, a, b);
  }

  /** Where text is not blind, some cut makes the reader give up although there was more to come. */
  lemma {:induction false} CutThatShows(parse: JsonParser, text: string) returns (cut: nat)
    requires !Blind(parse, text)
    ensures cut <= |text| && GivesUpEarly(parse, text[..cut], text[cut..])
    decreases |text|
  {
    var k := Boundary(text).value;
    if ByteLength(text[..k]) + 1 > MAX_BYTES {
      cut := GivesUpAtFrame(parse, text, k);
    } else {
      var cut' := CutThatShows(parse, text[k + 2..]);
      cut := GivesUpBehindFrame(parse, text, k, cut');
    }
  }

  /** After the first piece the buffer has overflowed, and the text has more to offer than that. */
  ghost predicate GivesUpEarly(parse: JsonParser, a: string, b: string) {
    && Overflows(parse, a)
    && !OverflowsSilently(parse, Drain(parse, a).residual + b)
  }

  lemma GivesUpAtFrame(parse: JsonParser, text: string, k: nat) returns (cut: nat)
    requires Boundary(text) == Some(k) && ByteLength(text[..k]) + 1 > MAX_BYTES && !OverflowsSilently(parse, text)
    ensures cut <= |text| && GivesUpEarly(parse, text[..cut], text[cut..])
  {
    cut := k + 1;
    CutInTerminator(text, k);
    Halves(text, k + 1);
  }

  lemma CutInTerminator(text: string, k: nat)
    requires Boundary(text) == Some(k)
    ensures Boundary(text[..k + 1]).None? && ByteLength(text[..k + 1]) == ByteLength(text[..k]) + 1
  {
    BlankLinesOfPrefix(text, k + 1);
    NoBoundary(text[..k + 1]);
    LineBytes(text, k);
  }

  lemma GivesUpBehindFrame(parse: JsonParser, text: string, k: nat, n: nat) returns (cut: nat)
    requires Boundary(text) == Some(k) && n <= |text| - k - 2 && !Interpret(parse, text[..k]).Failed?
    requires GivesUpEarly(parse, text[k + 2..][..n], text[k + 2..][n..])
    ensures cut <= |text| && GivesUpEarly(parse, text[..cut], text[cut..])
  {
    cut := FrameAhead(text, k, n);
    GivesUpBehindBlock(parse, text[..cut], text[cut..], k);
  }

  lemma GivesUpBehindBlock(parse: JsonParser, a: string, b: string, k: nat)
    requires Boundary(a) == Some(k) && !Interpret(parse, a[..k]).Failed? && GivesUpEarly(parse, a[k + 2..], b)
    ensures GivesUpEarly(parse, a, b)
  {
    DrainStep(parse, a, k);
  }

  lemma FrameAhead(text: string, k: nat, n: nat) returns (cut: nat)
    requires Boundary(text) == Some(k) && n <= |text| - k - 2
    ensures cut <= |text| && Boundary(text[..cut]) == Some(k)
    ensures text[..cut][..k] == text[..k] && text[..cut][k + 2..] == text[k + 2..][..n]
    ensures text[k + 2..][n..] == text[cut..]
  {
    cut := k + 2 + n;
    BoundaryOfPrefix(text, k, k + 2 + n);
    Slices(text, k, k + 2, n);
  }

  lemma Slices(text: string, k: nat, m: nat, n: nat)
    requires k <= m && m + n <= |text|
    ensures text[..m + n][..k] == text[..k] && text[..m + n][m..] == text[m..][..n] && text[m..][n..] == text[m + n..]
  {
  }

  lemma BoundaryOfPrefix(text: string, k: nat, n: nat)
    requires Boundary(text) == Some(k) && k + 2 <= n <= |text|
    ensures Boundary(text[..n]) == Some(k)
  {
    BlankLinesOfPrefix(text, n);
    BoundaryIs(text[..n], k);
  }

  ghost predicate CutsReadAlike(parse: JsonParser, text: string) {
    forall c1, c2 :: Concat(c1) == text && Concat(c2) == text ==> Feed(parse, "", c1) == Feed(parse, "", c2)
  }

  /** For text without carriage returns, any two cuts read alike exactly when the text is blind. */
  lemma CutsReadAlikeExactlyWhenBlind(parse: JsonParser, text: string)
    requires NoCarriageReturn(text)
    ensures CutsReadAlike(parse, text) <==> Blind(parse, text)
  {
    if Blind(parse, text) {
      forall c1, c2 | Concat(c1) == text && Concat(c2) == text ensures Feed(parse, "", c1) == Feed(parse, "", c2) {
        BlindCutIsHidden(parse, c1);
        BlindCutIsHidden(parse, c2);
      }
    } else {
      var cut := CutThatShows(parse, text);
      TwoPieces(text, cut);
      TwoPieces(text, |text|);
      TwoCutsDiffer(parse, text, cut);
      ShownByTwoCuts(parse, text, [text[..cut], text[cut..]], [text[..|text|], text[|text|..]]);
    }
  }

  lemma ShownByTwoCuts(parse: JsonParser, text: string, c1: seq<string>, c2: seq<string>)
    requires Concat(c1) == text == Concat(c2) && Feed(parse, "", c1) != Feed(parse, "", c2)
    ensures !CutsReadAlike(parse, text)
  {
  }

  lemma BlindCutIsHidden(parse: JsonParser, chunks: seq<string>)
    requires NoCarriageReturn(Concat(chunks)) && Blind(parse, Concat(chunks))
    ensures Feed(parse, "", chunks) == AtOnce(parse, Concat(chunks))
  {
    FedLeaves(chunks);
    assert "" + Fed(chunks) == Fed(chunks);
    BlindCutsReadAtOnce(parse, "", chunks);
  }

  /** What the first of two pieces is read as when it makes the buffer overflow. */
  lemma OverflowingStart(parse: JsonParser, text: string, cut: nat)
    requires NoCarriageReturn(text) && cut <= |text| && Drain(parse, text[..cut]).error.None?
    requires ByteLength(Drain(parse, text[..cut]).residual) > MAX_BYTES
    ensures Feed(parse, "", [text[..cut], text[cut..]])
        == Parsed(Drain(parse, text[..cut]).events, Some(BufferOversized))
  {
    NormaliseLeaves(text[..cut]);
    assert "" + text[..cut] == text[..cut];
  }

  lemma ReadAtOnce(parse: JsonParser, text: string)
    requires NoCarriageReturn(text)
    ensures Feed(parse, "", [text[..|text|], text[|text|..]]) == AtOnce(parse, text)
  {
    assert text[..|text|] == text && text[|text|..] == "";
    ReadBeforeNothing(parse, text);
  }

  lemma ReadBeforeNothing(parse: JsonParser, text: string)
    requires NoCarriageReturn(text)
    ensures Feed(parse, "", [text, ""]) == AtOnce(parse, text)
  {
    var d := Drain(parse, text);
    NormaliseLeaves(text);
    assert "" + text == text && [text, ""][1..] == [""];
    if d.error.None? && ByteLength(d.residual) <= MAX_BYTES {
      FeedEmpty(parse, d.residual);
    }
  }

  lemma FeedEmpty(parse: JsonParser, buffer: string)
    requires Boundary(buffer).None? && ByteLength(buffer) <= MAX_BYTES
    ensures Feed(parse, buffer, [""]) == Parsed([], None)
  {
    assert buffer + "" == buffer;
    assert [""][1..] == [];
  }

  lemma TwoCutsDiffer(parse: JsonParser, text: string, cut: nat)
    requires NoCarriageReturn(text) && cut <= |text| && GivesUpEarly(parse, text[..cut], text[cut..])
    ensures Feed(parse, "", [text[..cut], text[cut..]]) != Feed(parse, "", [text[..|text|], text[|text|..]])
  {
    OverflowingStart(parse, text, cut);
    ReadAtOnce(parse, text);
    Halves(text, cut);
    AtOnceInTwoParts(parse, text[..cut], text[cut..]);
    SilentExactly(parse, Drain(parse, text[..cut]).residual + text[cut..]);
    MoreShows(Drain(parse, text[..cut]).events, AtOnce(parse, Drain(parse, text[..cut]).residual + text[cut..]));
  }

  lemma MoreShows(events: seq<Value>, rest: Parsed)
    requires rest != Parsed([], Some(BufferOversized))
    ensures Parsed(events, Some(BufferOversized)) != Parsed(events + rest.events, rest.error)
  {
    assert rest.events != [] ==> |events + rest.events| != |events|;
  }

  /** A frame at the limit is read in one piece and lost in two. */
  lemma FrameAtTheLimitIsLost(parse: JsonParser, block: string, event: Value)
    requires NoCarriageReturn(block) && '\n' !in block && ByteLength(block) == MAX_BYTES
    requires Interpret(parse, block) == Yielded(event)
    ensures !Blind(parse, block + "\n\n")
    ensures !CutsReadAlike(parse, block + "\n\n")
  {
    var text := block + "\n\n";
    BoundaryIs(text, |block|);
    assert text[..|block|] == block;
    TerminatedBlock(parse, block, event);
    CutsReadAlikeExactlyWhenBlind(parse, text);
  }

  // Line endings

  predicate EndsInCr(s: string) {
    s != "" && s[|s| - 1] == '\r'
  }

  predicate StartsWithLf(s: string) {
    s != "" && s[0] == '\n'
  }

  /** Some cut falls between a carriage return and its line feed. */
  ghost predicate SplitsCrlf(chunks: seq<string>) {
    exists i :: 0 <= i < |chunks| && EndsInCr(Concat(chunks[..i])) && StartsWithLf(Concat(chunks[i..]))
  }

  function CountCrlf(s: string): nat {
    if |s| < 2 then 0
    else (if s[0] == '\r' && s[1] == '\n' then 1 else 0) + CountCrlf(s[1..])
  }

  lemma {:induction false} NormaliseShortens(s: string)
    ensures |Normalise(s)| == |s| - CountCrlf(s)
    decreases |s|
  {
    if |s| >= 2 {
      NormaliseShortens(s[1..]);
      if s[0] == '\r' && s[1] == '\n' {
        NormaliseShortens(s[2..]);
        assert s[1..][1..] == s[2..];
        assert CountCrlf(s[1..]) == CountCrlf(s[2..]);
      }
    }
  }

  predicate CutsCrlf(a: string, b: string) {
    EndsInCr(a) && StartsWithLf(b)
  }

  lemma NormaliseSteps(s: string)
    requires |s| >= 2
    ensures s[0] == '\r' && s[1] == '\n' ==> Normalise(s) == "\n" + Normalise(s[2..])
    ensures !(s[0] == '\r' && s[1] == '\n') ==> Normalise(s) == [s[0]] + Normalise(s[1..])
  {
  }

  lemma {:induction false} NormaliseAcrossCut(a: string, b: string)
    requires !CutsCrlf(a, b)
    ensures Normalise(a + b) == Normalise(a) + Normalise(b)
    decreases |a|
  {
    if a == "" {
      assert a + b == b;
    } else if |a| == 1 {
      if b == "" {
        assert a + b == a;
      } else {
        assert (a + b)[1..] == b;
        NormaliseSteps(a + b);
      }
    } else {
      NormaliseSteps(a);
      NormaliseSteps(a + b);
      var skip := if a[0] == '\r' && a[1] == '\n' then 2 else 1;
      CutBefore(a, b, 0, skip);
      NormaliseAcrossCut(a[skip..], b);
    }
  }

  lemma {:induction false} CountAcrossCut(a: string, b: string)
    ensures CountCrlf(a + b) == CountCrlf(a) + CountCrlf(b) + if CutsCrlf(a, b) then 1 else 0
    decreases |a|
  {
    if a == "" {
      assert a + b == b;
    } else {
      assert (a + b)[1..] == a[1..] + b;
      CountAcrossCut(a[1..], b);
    }
  }

  lemma {:induction false} FedLength(chunks: seq<string>)
    ensures |Fed(chunks)| >= |Normalise(Concat(chunks))|
    ensures |Fed(chunks)| == |Normalise(Concat(chunks))| ==> !SplitsCrlf(chunks)
    decreases |chunks|
  {
    if chunks != [] {
      FedSplits(chunks);
      var a, b := chunks[0], Concat(chunks[1..]);
      FedLength(chunks[1..]);
      NormaliseShortens(a);
      NormaliseShortens(b);
      NormaliseShortens(a + b);
      CountAcrossCut(a, b);
      if |Fed(chunks)| == |Normalise(a + b)| {
        assert !CutsCrlf(a, b) && !SplitsCrlf(chunks[1..]);
        NoSplitFrom(chunks);
      }
    }
  }

  lemma NoSplitFrom(chunks: seq<string>)
    requires chunks != [] && !CutsCrlf(chunks[0], Concat(chunks[1..])) && !SplitsCrlf(chunks[1..])
    ensures !SplitsCrlf(chunks)
  {
    if i :| 0 <= i < |chunks| && EndsInCr(Concat(chunks[..i])) && StartsWithLf(Concat(chunks[i..])) {
      SplitComesFrom(chunks, i);
    }
  }

  lemma SplitComesFrom(chunks: seq<string>, i: nat)
    requires i < |chunks| && EndsInCr(Concat(chunks[..i])) && StartsWithLf(Concat(chunks[i..]))
    ensures CutsCrlf(chunks[0], Concat(chunks[1..])) || SplitsCrlf(chunks[1..])
  {
    var tail := chunks[1..];
    var a, b := tail[..i - 1], tail[i - 1..];
    assert chunks[..i][1..] == a && chunks[i..] == b;
    assert Concat(chunks[..i]) == chunks[0] + Concat(a);
    if Concat(a) == "" {
      assert tail == a + b;
      ConcatAppend(a, b);
      assert Concat(tail) == Concat(b);
    } else {
      assert EndsInCr(Concat(a)) && StartsWithLf(Concat(b));
    }
  }

  lemma SplitInTail(chunks: seq<string>)
    requires chunks != [] && SplitsCrlf(chunks[1..])
    ensures SplitsCrlf(chunks)
  {
    var tail := chunks[1..];
    var i :| 0 <= i < |tail| && EndsInCr(Concat(tail[..i])) && StartsWithLf(Concat(tail[i..]));
    ConcatOneLater(chunks, i);
    assert EndsInCr(Concat(chunks[..i + 1])) && StartsWithLf(Concat(chunks[i + 1..]));
  }

  lemma ConcatOneLater(chunks: seq<string>, i: nat)
    requires i < |chunks|
    ensures Concat(chunks[..i + 1]) == chunks[0] + Concat(chunks[1..][..i])
    ensures Concat(chunks[i + 1..]) == Concat(chunks[1..][i..])
  {
    assert chunks[..i + 1][1..] == chunks[1..][..i];
    assert chunks[i + 1..] == chunks[1..][i..];
  }

  lemma SplitAtHead(chunks: seq<string>)
    requires chunks != [] && CutsCrlf(chunks[0], Concat(chunks[1..]))
    ensures SplitsCrlf(chunks)
  {
    assert |chunks| > 1;
    assert chunks[..1] == [chunks[0]];
    assert Concat(chunks[..1]) == chunks[0] + "" == chunks[0];
    assert EndsInCr(Concat(chunks[..1])) && StartsWithLf(Concat(chunks[1..]));
  }

  lemma {:induction false} FedOfUnsplit(chunks: seq<string>)
    requires !SplitsCrlf(chunks)
    ensures Fed(chunks) == Normalise(Concat(chunks))
    decreases |chunks|
  {
    if chunks != [] {
      if SplitsCrlf(chunks[1..]) { SplitInTail(chunks); }
      if CutsCrlf(chunks[0], Concat(chunks[1..])) { SplitAtHead(chunks); }
      FedSplits(chunks);
      FedOfUnsplit(chunks[1..]);
      NormaliseAcrossCut(chunks[0], Concat(chunks[1..]));
    }
  }

  /**
   Normalising line endings chunk by chunk gives the normalised text exactly when no cut falls
   inside a CRLF.
   */
  lemma LineEndingsSurviveExactlyUnsplit(chunks: seq<string>)
    ensures Fed(chunks) == Normalise(Concat(chunks)) <==> !SplitsCrlf(chunks)
  {
    FedLength(chunks);
    if !SplitsCrlf(chunks) {
      FedOfUnsplit(chunks);
    }
  }

  /** With no split CRLF and fitting frames, only the concatenation matters. */
  lemma UnsplitChunksReadAsOneText(parse: JsonParser, chunks: seq<string>)
    requires !SplitsCrlf(chunks) && Fits(parse, Normalise(Concat(chunks)))
    ensures Feed(parse, "", chunks) == Whole(parse, Normalise(Concat(chunks)))
  {
    FedOfUnsplit(chunks);
    assert "" + Fed(chunks) == Fed(chunks);
    ChunksReadAsOneText(parse, "", chunks);
  }

  lemma OneLine(s: string)
    requires '\n' !in s
    ensures Lines(s) == [s]
  {
    SplitWhole(s, '\n');
  }

  /** A CRLF-terminated event read whole is delivered; cut inside its last CRLF it is not. */
  lemma SplitCrlfLosesAnEvent(parse: JsonParser, block: string, event: Value)
    requires NoCarriageReturn(block) && block != "" && '\n' !in block
    requires Interpret(parse, block) == Yielded(event)
    ensures Feed(parse, "", [block + "\r\n\r\n"] + []).events == [event]
    ensures Feed(parse, "", [block + "\r\n\r"] + ["\n"]).events == []
  {
    NormaliseTerminators(block);
    TerminatedBlock(parse, block, event);
    assert "" + (block + "\n\n") == block + "\n\n";
    FeedOne(parse, "", block + "\r\n\r\n", []);
    SplitTerminator(parse, block);
  }

  lemma TerminatedBlock(parse: JsonParser, block: string, event: Value)
    requires '\n' !in block
    requires Interpret(parse, block) == Yielded(event)
    ensures Drain(parse, block + "\n\n") == Drained([event], "", None)
  {
    var whole := block + "\n\n";
    BoundaryIs(whole, |block|);
    assert whole[..|block|] == block && whole[|block| + 2..] == "";
    DrainStep(parse, whole, |block|);
  }

  lemma SplitTerminator(parse: JsonParser, block: string)
    requires NoCarriageReturn(block) && block != "" && '\n' !in block
    ensures Feed(parse, "", [block + "\r\n\r"] + ["\n"]).events == []
  {
    NormaliseTerminators(block);
    var part := block + "\n\r";
    NoBoundary(part);
    NoBoundary(part + "\n");
    assert "" + part == part && ["\n"] + [] == ["\n"];
    FeedNothing(parse, "", block + "\r\n\r", ["\n"]);
    FeedNothing(parse, part, "\n", []);
  }

  /** A chunk that completes no block delivers nothing. */
  lemma FeedNothing(parse: JsonParser, buffer: string, chunk: string, more: seq<string>)
    requires Boundary(buffer + Normalise(chunk)).None?
    ensures Feed(parse, buffer, [chunk] + more).events == []
         || Feed(parse, buffer, [chunk] + more).events == Feed(parse, buffer + Normalise(chunk), more).events
  {
    FeedOne(parse, buffer, chunk, more);
    assert Drain(parse, buffer + Normalise(chunk)) == Drained([], buffer + Normalise(chunk), None);
  }

  lemma FeedOne(parse: JsonParser, buffer: string, chunk: string, more: seq<string>)
    ensures var d := Drain(parse, buffer + Normalise(chunk));
            Feed(parse, buffer, [chunk] + more).events ==
            if d.error.Some? || ByteLength(d.residual) > MAX_BYTES then d.events
            else d.events + Feed(parse, d.residual, more).events
  {
    assert ([chunk] + more)[1..] == more;
  }

  lemma NormaliseTerminators(block: string)
    requires NoCarriageReturn(block)
    ensures Normalise(block + "\r\n\r\n") == block + "\n\n"
    ensures Normalise(block + "\r\n\r") == block + "\n\r"
    ensures Normalise("\n") == "\n"
  {
    NormaliseLeaves(block);
    NormaliseAcrossCut(block, "\r\n\r\n");
    NormaliseAcrossCut(block, "\r\n\r");
    assert "\r\n\r\n"[2..] == "\r\n" && "\r\n"[2..] == "" && "\r\n\r"[2..] == "\r";
  }
}
