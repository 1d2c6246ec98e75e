/** What a block of an event stream means, and that the first bad one ends the stream. */
module SseContents {
  import opened Wrappers
  import opened Text
  import opened Sorting
  import opened Json
  import opened Sse
  import opened SseLaws

  // The data of a block

  /** The white space `trimStart` takes away. */
  predicate IsSpace(c: char) {
    || c in "\t\n\U{B}\U{C}\r \U{A0}\U{1680}\U{2000}\U{2001}\U{2002}\U{2003}\U{2004}\U{2005}\U{2006}"
    || c in "\U{2007}\U{2008}\U{2009}\U{200A}\U{2028}\U{2029}\U{202F}\U{205F}\U{3000}\U{FEFF}"
  }

  ghost predicate AllSpace(s: string) {
    forall i :: 0 <= i < |s| ==> IsSpace(s[i])
  }

  /** A line that carries `part`: "data:", any white space, and the part, which begins with none. */
  ghost predicate Carries(line: string, part: string) {
    && (part == "" || !IsSpace(part[0]))
    && exists blanks: string :: AllSpace(blanks) && line == "data:" + blanks + part
  }

  /** The parts are what the data lines among these carry, in order; other lines carry nothing. */
  ghost predicate AreParts(lines: seq<string>, p: seq<nat>, parts: seq<string>) {
    && |parts| == |p| && (forall i, j :: 0 <= i < j < |p| ==> p[i] < p[j])
    && (forall k :: 0 <= k < |p| ==> p[k] < |lines| && Carries(lines[p[k]], parts[k]))
    && (forall i: nat, part :: i < |lines| && Carries(lines[i], part) ==> i in p)
  }

  /** The data of a block joins what its lines carry. */
  ghost predicate IsDataOf(block: string, data: string) {
    exists p: seq<nat>, parts: seq<string> :: AreParts(SplitOn(block, '\n'), p, parts) && data == Join(parts, "\n")
  }

  lemma SpaceIs(c: char)
    ensures IsJsSpace(c) <==> IsSpace(c)
  {
  }

  lemma {:induction false} Trimmed(s: string) returns (blanks: string)
    ensures AllSpace(blanks) && s == blanks + TrimStart(s)
    ensures TrimStart(s) == "" || !IsSpace(TrimStart(s)[0])
  {
    blanks := "";
    if s != "" && IsJsSpace(s[0]) {
      var rest := Trimmed(s[1..]);
      blanks := OneMoreSpace(s, rest);
    } else if s != "" {
      SpaceIs(s[0]);
    }
  }

  lemma OneMoreSpace(s: string, rest: string) returns (blanks: string)
    requires s != "" && IsJsSpace(s[0]) && AllSpace(rest) && s[1..] == rest + TrimStart(s[1..])
    ensures AllSpace(blanks) && s == blanks + TrimStart(s)
  {
    blanks := [s[0]] + rest;
    SpaceIs(s[0]);
    HeadAndRest(s, []);
    Associative([s[0]], rest, TrimStart(s[1..]));
  }

  lemma DataLineCarries(line: string)
    requires StartsWith(line, "data:")
    ensures Carries(line, TrimStart(line[5..]))
  {
    var blanks := Trimmed(line[5..]);
    assert line == "data:" + line[5..];
    assert "data:" + (blanks + TrimStart(line[5..])) == "data:" + blanks + TrimStart(line[5..]);
  }

  lemma OtherLinesCarryNothing(line: string, part: string)
    requires Carries(line, part)
    ensures StartsWith(line, "data:")
  {
    var blanks: string :| AllSpace(blanks) && line == "data:" + blanks + part;
    assert line[..5] == "data:";
  }

  lemma {:induction false} DataLinesAreParts(lines: seq<string>) returns (p: seq<nat>)
    ensures AreParts(lines, p, DataLines(lines))
  {
    if lines == [] {
      p := [];
    } else {
      var q := DataLinesAreParts(lines[1..]);
      p := OneMoreLine(lines, q);
    }
  }

  /** Where the `k`th part and its line come from. */
  lemma LineAt(lines: seq<string>, q: seq<nat>, k: nat)
    requires lines != [] && |q| == |DataLines(lines[1..])| && forall i :: 0 <= i < |q| ==> q[i] < |lines| - 1
    requires k < |Shifted(q, StartsWith(lines[0], "data:"))|
    ensures var first, parts := StartsWith(lines[0], "data:"), DataLines(lines);
            var p, k' := Shifted(q, first), if first then k - 1 else k;
            && |parts| == |p| && p[k] < |lines|
            && if k' < 0 then lines[p[k]] == lines[0] && parts[k] == TrimStart(lines[0][5..])
               else lines[p[k]] == lines[1..][q[k']] && parts[k] == DataLines(lines[1..])[k']
  {
    ShiftedAt(q, StartsWith(lines[0], "data:"), k);
  }

  lemma CarriesTheSame(line: string, part: string, line': string, part': string)
    requires Carries(line, part) && line == line' && part == part'
    ensures Carries(line', part')
  {
  }

  lemma PartAt(lines: seq<string>, q: seq<nat>, k: nat)
    requires lines != [] && AreParts(lines[1..], q, DataLines(lines[1..]))
    requires k < |Shifted(q, StartsWith(lines[0], "data:"))|
    ensures var p := Shifted(q, StartsWith(lines[0], "data:"));
            |DataLines(lines)| == |p| && p[k] < |lines| && Carries(lines[p[k]], DataLines(lines)[k])
  {
    var first, parts := StartsWith(lines[0], "data:"), DataLines(lines);
    var p, k' := Shifted(q, first), if first then k - 1 else k;
    LineAt(lines, q, k);
    if k' < 0 {
      DataLineCarries(lines[0]);
      CarriesTheSame(lines[0], TrimStart(lines[0][5..]), lines[p[k]], parts[k]);
    } else {
      CarriesTheSame(lines[1..][q[k']], DataLines(lines[1..])[k'], lines[p[k]], parts[k]);
    }
  }

  lemma OneMoreLine(lines: seq<string>, q: seq<nat>) returns (p: seq<nat>)
    requires lines != [] && AreParts(lines[1..], q, DataLines(lines[1..]))
    ensures AreParts(lines, p, DataLines(lines))
  {
    var first := StartsWith(lines[0], "data:");
    p := Shifted(q, first);
    forall k | 0 <= k < |p| ensures p[k] < |lines| && Carries(lines[p[k]], DataLines(lines)[k]) {
      PartAt(lines, q, k);
    }
    forall i, j | 0 <= i < j < |p| ensures p[i] < p[j] {
      ShiftedAt(q, first, i);
      ShiftedAt(q, first, j);
    }
    forall i: nat, part | i < |lines| && Carries(lines[i], part) ensures i in p {
      ShiftedIn(q, first, i);
      OtherLinesCarryNothing(lines[i], part);
      if i > 0 {
        assert lines[1..][i - 1] == lines[i];
      }
    }
  }

  // What the data makes of the block

  /**
   A block without data is passed over.  Data of more than 4 MiB is an error, and so is data that is
   not JSON; JSON objects are delivered, and any other JSON is passed over.
   */
  lemma BlockMeans(parse: JsonParser, block: string) returns (data: string)
    ensures IsDataOf(block, data)
    ensures Interpret(parse, block) ==
            if data == "" then Skipped
            else if ByteLength(data) > 4 * 1024 * 1024 then Failed(EventOversized)
            else if parse(data).None? then Failed(InvalidJson)
            else if parse(data).value.Obj? then Yielded(parse(data).value)
            else Skipped
  {
    var p := DataLinesAreParts(SplitOn(block, '\n'));
    data := Join(DataLines(SplitOn(block, '\n')), "\n");
  }

  /** The bytes of a text are those of its characters in UTF-8, section 3 of RFC 3629. */
  lemma Utf8Length(a: string, c: char)
    ensures ByteLength(a + [c])
         == ByteLength(a) + if c as int < 128 then 1 else if c as int < 2048 then 2
                            else if c as int < 65536 then 3 else 4
  {
    ByteLengthAdds(a, [c]);
    assert ByteLength([c]) == CharBytes(c) + ByteLength([c][1..]);
  }

  // The first bad block

  lemma {:induction false} DrainStopsAtFirstFailure(parse: JsonParser, text: string, k: nat, error: StreamError)
    requires k < |Blocks(text)| && NoneFails(parse, Blocks(text)[..k])
    requires Interpret(parse, Blocks(text)[k]) == Failed(error)
    ensures Drain(parse, text).error == Some(error)
    ensures Drain(parse, text).events == InterpretAll(parse, Blocks(text)[..k])
    decreases |text|
  {
    var n := Boundary(text).value;
    var rest := text[n + 2..];
    DrainStep(parse, text, n);
    BlocksStep(text, n);
    if k > 0 {
      Behind(text[..n], Blocks(rest), k);
      InterpretAllStep(parse, text[..n], Blocks(rest)[..k - 1]);
      DrainStopsAtFirstFailure(parse, rest, k - 1, error);
    }
  }

  lemma Behind<T>(first: T, rest: seq<T>, k: nat)
    requires 0 < k <= |rest|
    ensures ([first] + rest)[..k] == [first] + rest[..k - 1] && ([first] + rest)[k] == rest[k - 1]
  {
  }

  /**
   Of text that fits, however it is cut, the reader delivers the events before the first block that
   fails, and ends with the error of that block.
   */
  lemma FirstBadBlockEnds(parse: JsonParser, text: string, chunks: seq<string>, k: nat, error: StreamError)
    requires NoCarriageReturn(text) && Fits(parse, text) && Concat(chunks) == text
    requires k < |Blocks(text)| && NoneFails(parse, Blocks(text)[..k])
    requires Interpret(parse, Blocks(text)[k]) == Failed(error)
    ensures Feed(parse, "", chunks) == Parsed(InterpretAll(parse, Blocks(text)[..k]), Some(error))
  {
    ReadsAsUnboundedExactlyWhenItFits(parse, text);
    DrainStopsAtFirstFailure(parse, text, k, error);
  }
}
