/** The parser undoes the printer, whatever the indentation. */
module JsonLaws {
  import opened Wrappers
  import opened Text
  import opened Sorting
  import opened Json

  // Strings

  lemma HexDigitsRead(k: nat)
    requires k < 16
    ensures HexValue(HexDigit(k)) == Some(k)
    ensures HexDigit(k) != '\\'
    ensures k < 10 ==> IsDigit(HexDigit(k)) && DigitValue(HexDigit(k)) == k
    ensures k > 0 ==> HexDigit(k) != '0'
  {
  }

  lemma ControlEscapeReads(c: char, rest: string)
    requires c < ' '
    ensures ParseHex4("00" + [HexDigit(c as nat / 16), HexDigit(c as nat % 16)] + rest) == Some(c)
  {
    HexDigitsRead(c as nat / 16);
    HexDigitsRead(c as nat % 16);
    var s := "00" + [HexDigit(c as nat / 16), HexDigit(c as nat % 16)] + rest;
    assert s[0] == '0' && s[1] == '0' && s[2] == HexDigit(c as nat / 16) && s[3] == HexDigit(c as nat % 16);
  }

  lemma EscapedCharReads(c: char, rest: string)
    ensures ParseChar(EscapeChar(c) + rest) == Some((c, rest))
    ensures EscapeChar(c)[0] != '"'
  {
    var e := EscapeChar(c);
    if e[0] == '\\' && e[1] == 'u' {
      HexEscapeReads(c, rest);
    } else if e[0] == '\\' {
      ShortEscapeReads(c, rest);
    } else {
      assert (e + rest)[1..] == rest;
    }
  }

  lemma HexEscapeReads(c: char, rest: string)
    requires EscapeChar(c)[0] == '\\' && EscapeChar(c)[1] == 'u'
    ensures ParseChar(EscapeChar(c) + rest) == Some((c, rest))
  {
    var s := EscapeChar(c) + rest;
    var hex := "00" + [HexDigit(c as nat / 16), HexDigit(c as nat % 16)];
    assert s == "\\u" + hex + rest;
    assert s[2..] == hex + rest && s[6..] == rest;
    ControlEscapeReads(c, rest);
  }

  lemma ShortEscapeReads(c: char, rest: string)
    requires EscapeChar(c)[0] == '\\' && EscapeChar(c)[1] != 'u'
    ensures ParseChar(EscapeChar(c) + rest) == Some((c, rest))
  {
    assert (EscapeChar(c) + rest)[2..] == rest;
  }

  lemma {:induction false} EscapedTextReads(s: string, rest: string)
    ensures ParseChars(Escape(s) + "\"" + rest) == Some((s, rest))
  {
    var text := Escape(s) + "\"" + rest;
    if s == "" {
      assert text == "\"" + rest;
      assert text[1..] == rest;
    } else {
      var tail := Escape(s[1..]) + "\"" + rest;
      RegroupText(EscapeChar(s[0]), Escape(s[1..]), "\"", rest);
      EscapedCharReads(s[0], tail);
      EscapedTextReads(s[1..], rest);
      ReadsAnotherChar(text, s[0], tail, s[1..], rest);
      HeadAndRest(s, []);
    }
  }

  lemma RegroupText(a: string, b: string, quote: string, rest: string)
    ensures (a + b) + quote + rest == a + (b + quote + rest)
  {
  }

  lemma ReadsAnotherChar(text: string, c: char, tail: string, s: string, rest: string)
    requires text != "" && text[0] != '"' && ParseChar(text) == Some((c, tail)) && ParseChars(tail) == Some((s, rest))
    ensures ParseChars(text) == Some(([c] + s, rest))
  {
  }

  // Integers

  lemma {:induction false} DigitsRead(n: nat)
    ensures Digits(n) != ""
    ensures forall i :: 0 <= i < |Digits(n)| ==> IsDigit(Digits(n)[i])
    ensures DigitsValue(Digits(n)) == n
    ensures n > 0 ==> Digits(n)[0] != '0'
    ensures n < 10 ==> |Digits(n)| == 1
  {
    HexDigitsRead(n % 10);
    if n < 10 {
      var s := Digits(n);
      assert s[..|s| - 1] == "";
    } else {
      DigitsRead(n / 10);
      var s := Digits(n);
      assert s[..|s| - 1] == Digits(n / 10) && s[|s| - 1] == HexDigit(n % 10);
    }
  }

  /** What may follow a number without running into it. */
  predicate Follows(rest: string) {
    rest == "" || !IsDigit(rest[0])
  }

  lemma {:induction false} DigitsPrefixStops(s: string, rest: string)
    requires forall i :: 0 <= i < |s| ==> IsDigit(s[i])
    requires Follows(rest)
    ensures DigitsPrefix(s + rest) == |s|
  {
    if s == "" {
      assert s + rest == rest;
    } else {
      assert (s + rest)[1..] == s[1..] + rest;
      DigitsPrefixStops(s[1..], rest);
    }
  }

  lemma DigitsAhead(k: nat, rest: string)
    requires Follows(rest)
    ensures var t := Digits(k) + rest;
            DigitsPrefix(t) == |Digits(k)| > 0 && (|Digits(k)| > 1 ==> t[0] != '0') &&
            DigitsValue(t[..|Digits(k)|]) == k && t[|Digits(k)|..] == rest && t[0] != '-'
  {
    DigitsRead(k);
    DigitsPrefixStops(Digits(k), rest);
    var t := Digits(k) + rest;
    assert t[..|Digits(k)|] == Digits(k) && t[|Digits(k)|..] == rest;
    assert t[0] == Digits(k)[0];
  }

  lemma SignedDigitsRead(negative: bool, t: string, k: nat, n: int, rest: string)
    requires DigitsPrefix(t) == k > 0 && k <= |t| && (k > 1 ==> t[0] != '0') && t[0] != '-'
    requires DigitsValue(t[..k]) == n && t[k..] == rest
    ensures ParseInt(if negative then "-" + t else t) == Some((Int(if negative then -n else n), rest))
  {
    assert ("-" + t)[1..] == t;
  }

  lemma PrintedIntReads(n: int, rest: string)
    requires Follows(rest)
    ensures ParseInt(PrintInt(n) + rest) == Some((Int(n), rest))
  {
    var k: nat := if n < 0 then -n else n;
    DigitsAhead(k, rest);
    SignedDigitsRead(n < 0, Digits(k) + rest, |Digits(k)|, k, rest);
    Associative("-", Digits(k), rest);
  }

  // Layout

  lemma {:induction false} SkipsBlanks(blanks: string, s: string)
    requires Blank(blanks)
    ensures SkipBlanks(blanks + s) == SkipBlanks(s)
  {
    if blanks == "" {
      assert blanks + s == s;
    } else {
      assert (blanks + s)[1..] == blanks[1..] + s;
      SkipsBlanks(blanks[1..], s);
    }
  }

  lemma SkipsTo(blanks: string, s: string)
    requires Blank(blanks) && s != "" && !IsBlank(s[0])
    ensures SkipBlanks(blanks + s) == s
  {
    SkipsBlanks(blanks, s);
  }

  lemma BreakIsBlank(gap: string, indent: string)
    requires Blank(indent)
    ensures Blank(Break(gap, indent))
  {
  }

  lemma PrintedHead(v: Value, gap: string, indent: string)
    ensures Print(v, gap, indent) != ""
    ensures !IsBlank(Print(v, gap, indent)[0]) && Print(v, gap, indent)[0] !in {']', '}', ',', ':'}
  {
    if v.Int? {
      DigitsRead(if v.n < 0 then -v.n else v.n);
    }
  }

  // Values

  // How the parser takes apart each kind of text

  lemma ReadsPastBlanks(s: string, t: string)
    requires SkipBlanks(s) == SkipBlanks(t)
    ensures ParseValue(s) == ParseValue(t)
  {
  }

  lemma ReadsWord(v: Value, rest: string)
    requires v.Null? || v.Bool?
    ensures ParseValue(Print(v, "", "") + rest) == Some((v, rest))
  {
    var word := Print(v, "", "");
    var t := word + rest;
    assert SkipBlanks(t) == t;
    assert t[|word|..] == rest;
  }

  /** A text that starts like a number is read as one. */
  lemma ReadsAsInt(t: string)
    requires t != "" && (t[0] == '-' || IsDigit(t[0]))
    ensures ParseValue(t) == ParseInt(t)
  {
    NothingToSkip(t);
    var c := t[0];
    assert c != 'n' && c != 't' && c != 'f' && c != '"' && c != '[' && c != '{';
  }

  lemma NothingToSkip(t: string)
    requires t != "" && !IsBlank(t[0])
    ensures SkipBlanks(t) == t
  {
  }

  lemma ReadsInt(n: int, rest: string)
    requires Follows(rest)
    ensures ParseValue(PrintInt(n) + rest) == Some((Int(n), rest))
  {
    DigitsRead(if n < 0 then -n else n);
    ReadsAsInt(PrintInt(n) + rest);
    PrintedIntReads(n, rest);
  }

  lemma ReadsText(text: string, rest: string)
    ensures ParseValue(Quote(text) + rest) == Some((Str(text), rest))
  {
    var t := Quote(text) + rest;
    assert t[1..] == Escape(text) + "\"" + rest;
    EscapedTextReads(text, rest);
    assert SkipBlanks(t) == t;
  }

  lemma ReadsArray(t: string, items: seq<Value>, rest: string)
    requires t != "" && t[0] == '['
    requires SkipBlanks(t[1..]) != "" && SkipBlanks(t[1..])[0] != ']'
    requires ParseItems(t[1..]) == Some((items, rest))
    ensures ParseValue(t) == Some((Arr(items), rest))
  {
    assert SkipBlanks(t) == t;
  }

  lemma ReadsObject(t: string, members: seq<(string, Value)>, rest: string)
    requires t != "" && t[0] == '{'
    requires SkipBlanks(t[1..]) != "" && SkipBlanks(t[1..])[0] != '}'
    requires ParseMembers(t[1..]) == Some((members, rest))
    ensures ParseValue(t) == Some((Obj(members), rest))
  {
    assert SkipBlanks(t) == t;
  }

  lemma ReadsEmpty(rest: string)
    ensures ParseValue("[]" + rest) == Some((Arr([]), rest))
    ensures ParseValue("{}" + rest) == Some((Obj([]), rest))
  {
    var a, o := "[]" + rest, "{}" + rest;
    assert SkipBlanks(a) == a && SkipBlanks(o) == o;
    assert a[1..] == "]" + rest && o[1..] == "}" + rest;
    assert a[1..][1..] == rest && o[1..][1..] == rest;
  }

  /** Printing and then parsing gives the value back and leaves what follows it. */
  lemma {:induction false} PrintedValueParses(v: Value, gap: string, indent: string, blanks: string, rest: string)
    requires Plain(v) && Blank(gap) && Blank(indent) && Blank(blanks) && Follows(rest)
    ensures ParseValue(blanks + Print(v, gap, indent) + rest) == Some((v, rest))
    decreases v, 1
  {
    var t := Print(v, gap, indent) + rest;
    var s := blanks + Print(v, gap, indent) + rest;
    assert s == blanks + t;
    PrintedHead(v, gap, indent);
    SkipsBlanks(blanks, t);
    ReadsPastBlanks(s, t);
    match v {
      case Int(n) => ReadsInt(n, rest);
      case Str(text) => ReadsText(text, rest);
      case Arr(items) => PrintedArrayParses(items, gap, indent, t, rest);
      case Obj(members) => PrintedObjectParses(members, gap, indent, t, rest);
      case _ => ReadsWord(v, rest);
    }
  }

  lemma BracketLayout(open: char, close: char, parts: seq<string>, gap: string, indent: string, rest: string)
    requires parts != []
    ensures var t := Bracket(open, close, parts, gap, indent) + rest;
            && t[0] == open
            && t[1..] == Row(parts, Break(gap, indent + gap), Break(gap, indent), close, rest)
  {
    var lead := Break(gap, indent + gap);
    RegroupRow(open, lead, Join(parts, "," + lead), Break(gap, indent), [close], rest);
  }

  lemma RegroupRow(open: char, lead: string, parts: string, tail: string, close: string, rest: string)
    ensures var t := [open] + lead + parts + tail + close + rest;
            t[0] == open && t[1..] == lead + (parts + (tail + (close + rest)))
  {
  }

  /** The parts of an array or object from its first line break to its closing bracket. */
  function Row(parts: seq<string>, lead: string, tail: string, close: char, rest: string): string {
    lead + (Join(parts, "," + lead) + (tail + ([close] + rest)))
  }

  lemma RowSplits(parts: seq<string>, lead: string, tail: string, close: char, rest: string)
    requires parts != []
    ensures Row(parts, lead, tail, close, rest) ==
            if |parts| == 1 then lead + parts[0] + (tail + ([close] + rest))
            else lead + parts[0] + ("," + Row(parts[1..], lead, tail, close, rest))
  {
  }

  lemma RowHead(parts: seq<string>, lead: string, tail: string, close: char, rest: string)
    requires parts != [] && parts[0] != "" && !IsBlank(parts[0][0]) && Blank(lead)
    ensures SkipBlanks(Row(parts, lead, tail, close, rest)) != ""
    ensures SkipBlanks(Row(parts, lead, tail, close, rest))[0] == parts[0][0]
  {
    var text := Join(parts, "," + lead) + (tail + ([close] + rest));
    assert text[0] == parts[0][0];
    SkipsTo(lead, text);
  }

  lemma TailSkips(tail: string, close: char, rest: string)
    requires Blank(tail) && !IsBlank(close)
    ensures SkipBlanks(tail + ([close] + rest)) == [close] + rest
    ensures ([close] + rest)[1..] == rest
  {
    SkipsTo(tail, [close] + rest);
  }

  lemma {:induction false} PrintedArrayParses(items: seq<Value>, gap: string, indent: string, t: string, rest: string)
    requires forall i :: 0 <= i < |items| ==> Plain(items[i])
    requires Blank(gap) && Blank(indent)
    requires t == Print(Arr(items), gap, indent) + rest
    ensures ParseValue(t) == Some((Arr(items), rest))
    decreases items, 1
  {
    if items == [] {
      ReadsEmpty(rest);
    } else {
      var parts := PrintItems(items, gap, indent + gap);
      BracketLayout('[', ']', parts, gap, indent, rest);
      PrintedHead(items[0], gap, indent + gap);
      RowHead(parts, Break(gap, indent + gap), Break(gap, indent), ']', rest);
      PrintedItemsParse(items, gap, indent + gap, Break(gap, indent), rest);
      ReadsArray(t, items, rest);
    }
  }

  lemma ReadsLastItem(s: string, v: Value, after: string, rest: string)
    requires ParseValue(s) == Some((v, after)) && SkipBlanks(after) == "]" + rest
    ensures ParseItems(s) == Some(([v], rest))
  {
    assert ("]" + rest)[1..] == rest;
  }

  lemma ReadsItem(s: string, v: Value, more: string, items: seq<Value>, rest: string)
    requires ParseValue(s) == Some((v, "," + more)) && ParseItems(more) == Some((items, rest))
    ensures ParseItems(s) == Some(([v] + items, rest))
  {
    var after := "," + more;
    assert SkipBlanks(after) == after;
    assert after[1..] == more;
  }

  lemma {:induction false} PrintedItemsParse(items: seq<Value>, gap: string, indent: string, tail: string, rest: string)
    requires items != [] && forall i :: 0 <= i < |items| ==> Plain(items[i])
    requires Blank(gap) && Blank(indent) && Blank(tail)
    ensures ParseItems(Row(PrintItems(items, gap, indent), Break(gap, indent), tail, ']', rest)) == Some((items, rest))
    decreases items, 0
  {
    var parts := PrintItems(items, gap, indent);
    BreakIsBlank(gap, indent);
    var s := Row(parts, Break(gap, indent), tail, ']', rest);
    RowSplits(parts, Break(gap, indent), tail, ']', rest);
    if |items| == 1 {
      var after := tail + ("]" + rest);
      PrintedValueParses(items[0], gap, indent, Break(gap, indent), after);
      TailSkips(tail, ']', rest);
      ReadsLastItem(s, items[0], after, rest);
      assert items == [items[0]];
    } else {
      var more := Row(parts[1..], Break(gap, indent), tail, ']', rest);
      PrintedValueParses(items[0], gap, indent, Break(gap, indent), "," + more);
      assert parts[1..] == PrintItems(items[1..], gap, indent);
      PrintedItemsParse(items[1..], gap, indent, tail, rest);
      ReadsItem(s, items[0], more, items[1..], rest);
      assert items == [items[0]] + items[1..];
    }
  }

  lemma PrintsMember(members: seq<(string, Value)>, gap: string, indent: string)
    requires members != [] && Plain(members[0].1)
    ensures PrintMembers(members, gap, indent)
         == [PrintMember(members[0], gap, indent)] + PrintMembers(members[1..], gap, indent)
    ensures PrintMember(members[0], gap, indent) != "" && PrintMember(members[0], gap, indent)[0] == '"'
  {
  }

  lemma {:induction false} PrintedObjectParses(members: seq<(string, Value)>, gap: string, indent: string, t: string,
                                               rest: string)
    requires forall i :: 0 <= i < |members| ==> Plain(members[i].1)
    requires Blank(gap) && Blank(indent)
    requires t == Print(Obj(members), gap, indent) + rest
    ensures ParseValue(t) == Some((Obj(members), rest))
    decreases members, 2
  {
    if members == [] {
      ReadsEmpty(rest);
    } else {
      var parts := PrintMembers(members, gap, indent + gap);
      PrintsMember(members, gap, indent + gap);
      BracketLayout('{', '}', parts, gap, indent, rest);
      RowHead(parts, Break(gap, indent + gap), Break(gap, indent), '}', rest);
      PrintedMembersParse(members, gap, indent + gap, Break(gap, indent), rest);
      ReadsObject(t, members, rest);
    }
  }

  lemma {:induction false} PrintedMembersParse(members: seq<(string, Value)>, gap: string, indent: string,
                                               tail: string, rest: string)
    requires members != [] && forall i :: 0 <= i < |members| ==> Plain(members[i].1)
    requires Blank(gap) && Blank(indent) && Blank(tail)
    ensures ParseMembers(Row(PrintMembers(members, gap, indent), Break(gap, indent), tail, '}', rest))
        == Some((members, rest))
    decreases members, 1
  {
    var parts := PrintMembers(members, gap, indent);
    PrintsMember(members, gap, indent);
    RowSplits(parts, Break(gap, indent), tail, '}', rest);
    var s := Row(parts, Break(gap, indent), tail, '}', rest);
    HeadAndRest(members, []);
    if |members| == 1 {
      PrintedMemberParses(members[0], gap, indent, s, tail + (['}'] + rest));
      TailSkips(tail, '}', rest);
      LastMember(s, members[0], tail, rest);
    } else {
      PrintsMember(members[1..], gap, indent);
      var more := Row(parts[1..], Break(gap, indent), tail, '}', rest);
      PrintedMemberParses(members[0], gap, indent, s, "," + more);
      PrintedMembersParse(members[1..], gap, indent, tail, rest);
      AnotherMember(s, members[0], members[1..], more, rest);
    }
  }

  lemma LastMember(s: string, member: (string, Value), tail: string, rest: string)
    requires ReadsMember(s, member, tail + (['}'] + rest)) && Blank(tail)
    ensures ParseMembers(s) == Some(([member], rest))
  {
    TailSkips(tail, '}', rest);
  }

  lemma AnotherMember(s: string, member: (string, Value), members: seq<(string, Value)>, more: string, rest: string)
    requires ReadsMember(s, member, "," + more) && ParseMembers(more) == Some((members, rest))
    ensures ParseMembers(s) == Some(([member] + members, rest))
  {
    TailSkips("", ',', more);
    assert "" + ("," + more) == "," + more;
  }

  lemma RegroupMember(open: string, name: string, close: string, colon: string, blanks: string, value: string,
                      after: string)
    ensures (((open + name + close) + (colon + blanks)) + value) + after
        == open + (name + close + (colon + (blanks + value + after)))
  {
  }

  lemma MemberLayout(member: (string, Value), gap: string, indent: string, after: string) returns (blanks: string)
    ensures Blank(blanks)
    ensures PrintMember(member, gap, indent) + after
         == "\"" + (Escape(member.0) + "\"" + (":" + (blanks + Print(member.1, gap, indent) + after)))
  {
    blanks := if gap == "" then "" else " ";
    assert Colon(gap) == ":" + blanks;
    RegroupMember("\"", Escape(member.0), "\"", ":", blanks, Print(member.1, gap, indent), after);
    assert Quote(member.0) == "\"" + Escape(member.0) + "\"";
  }

  lemma ReadsNameAndValue(s: string, member: (string, Value), c: string, after: string)
    requires SkipBlanks(s) == "\"" + (Escape(member.0) + "\"" + (":" + c))
    requires ParseValue(c) == Some((member.1, after))
    ensures ReadsMember(s, member, after)
  {
    var b := ":" + c;
    assert b[1..] == c && SkipBlanks(b) == b;
    EscapedTextReads(member.0, b);
    assert SkipBlanks(s)[1..] == Escape(member.0) + "\"" + b;
  }

  /** The reading steps `ParseMembers` takes for one property. */
  lemma {:induction false} PrintedMemberParses(member: (string, Value), gap: string, indent: string, s: string,
                                               after: string)
    requires Plain(member.1) && Blank(gap) && Blank(indent) && Follows(after)
    requires s == Break(gap, indent) + PrintMember(member, gap, indent) + after
    ensures ReadsMember(s, member, after)
    decreases member, 0
  {
    var blanks := MemberLayout(member, gap, indent, after);
    var c := blanks + Print(member.1, gap, indent) + after;
    PrintedValueParses(member.1, gap, indent, blanks, after);
    var a := PrintMember(member, gap, indent) + after;
    Associative(Break(gap, indent), PrintMember(member, gap, indent), after);
    BreakIsBlank(gap, indent);
    SkipsTo(Break(gap, indent), a);
    ReadsNameAndValue(s, member, c, after);
  }

  ghost predicate ReadsMember(s: string, member: (string, Value), after: string) {
    var a := SkipBlanks(s);
    && a != "" && a[0] == '"'
    && var name := ParseChars(a[1..]);
    && name.Some? && name.value.0 == member.0
    && var c := SkipBlanks(name.value.1);
    && c != "" && c[0] == ':'
    && ParseValue(c[1..]) == Some((member.1, after))
  }

  /** `JSON.parse(JSON.stringify(v, null, gap) + blanks)` is `v`. */
  lemma ParseUndoesPrint(v: Value, gap: string, trailing: string)
    requires Plain(v) && Blank(gap) && Blank(trailing)
    ensures Parse(Print(v, gap, "") + trailing) == Some(v)
  {
    PrintedValueParses(v, gap, "", "", trailing);
    assert "" + Print(v, gap, "") == Print(v, gap, "");
    ReadsWhole(Print(v, gap, "") + trailing, v, trailing);
  }

  lemma ReadsWhole(s: string, v: Value, trailing: string)
    requires ParseValue(s) == Some((v, trailing)) && Blank(trailing)
    ensures Parse(s) == Some(v)
  {
    assert trailing + "" == trailing;
    SkipsBlanks(trailing, "");
  }

  // Undefined parts

  lemma {:induction false} CarriedPrintsAlike(v: Value, gap: string, indent: string)
    ensures Print(Carried(v), gap, indent) == Print(v, gap, indent)
    decreases v, 1
  {
    match v {
      case Arr(items) => CarriedItemsPrintAlike(items, gap, indent + gap);
      case Obj(members) => CarriedMembersPrintAlike(members, gap, indent + gap);
      case _ =>
    }
  }

  lemma {:induction false} CarriedItemsPrintAlike(items: seq<Value>, gap: string, indent: string)
    ensures PrintItems(CarriedItems(items), gap, indent) == PrintItems(items, gap, indent)
    decreases items, 0
  {
    if items != [] {
      CarriedPrintsAlike(items[0], gap, indent);
      CarriedItemsPrintAlike(items[1..], gap, indent);
      assert CarriedItems(items)[1..] == CarriedItems(items[1..]);
    }
  }

  lemma {:induction false} CarriedMembersPrintAlike(members: seq<(string, Value)>, gap: string, indent: string)
    ensures PrintMembers(CarriedMembers(members), gap, indent) == PrintMembers(members, gap, indent)
    decreases members, 0
  {
    if members != [] {
      CarriedMemberPrintsAlike(members[0], gap, indent);
      CarriedMembersPrintAlike(members[1..], gap, indent);
      if !members[0].1.Undefined? {
        PrintMembersStep(CarriedMember(members[0]), CarriedMembers(members[1..]), gap, indent);
      }
    }
  }

  lemma PrintMembersStep(member: (string, Value), members: seq<(string, Value)>, gap: string, indent: string)
    requires !member.1.Undefined?
    ensures PrintMembers([member] + members, gap, indent)
         == [PrintMember(member, gap, indent)] + PrintMembers(members, gap, indent)
  {
    assert ([member] + members)[1..] == members;
  }

  lemma {:induction false} CarriedMemberPrintsAlike(member: (string, Value), gap: string, indent: string)
    ensures PrintMember(CarriedMember(member), gap, indent) == PrintMember(member, gap, indent)
    decreases member, 0
  {
    CarriedPrintsAlike(member.1, gap, indent);
  }

  lemma {:induction false} CarriedNames(members: seq<(string, Value)>)
    ensures forall name :: name in Keys(CarriedMembers(members)) ==> name in Keys(members)
    ensures Distinct(Keys(members)) ==> Distinct(Keys(CarriedMembers(members)))
  {
    if members != [] {
      CarriedNames(members[1..]);
      KeysStep(members[0], members[1..]);
      HeadAndRest(members, []);
      KeysStep(CarriedMember(members[0]), CarriedMembers(members[1..]));
    }
  }

  lemma {:induction false} CarriedIsPlain(v: Value)
    requires WellNamed(v)
    ensures Plain(Carried(v))
    decreases v, 1
  {
    match v {
      case Arr(items) => CarriedItemsArePlain(items);
      case Obj(members) =>
        CarriedNames(members);
        CarriedMembersArePlain(members);
      case _ =>
    }
  }

  lemma {:induction false} CarriedItemsArePlain(items: seq<Value>)
    requires forall i :: 0 <= i < |items| ==> WellNamed(items[i])
    ensures forall i :: 0 <= i < |items| ==> Plain(CarriedItems(items)[i])
    decreases items, 0
  {
    if items != [] {
      CarriedIsPlain(items[0]);
      CarriedItemsArePlain(items[1..]);
    }
  }

  lemma {:induction false} CarriedMembersArePlain(members: seq<(string, Value)>)
    requires forall i :: 0 <= i < |members| ==> WellNamed(members[i].1)
    ensures forall i :: 0 <= i < |CarriedMembers(members)| ==> Plain(CarriedMembers(members)[i].1)
    decreases members, 0
  {
    if members != [] {
      CarriedMemberIsPlain(members[0]);
      CarriedMembersArePlain(members[1..]);
    }
  }

  lemma {:induction false} CarriedMemberIsPlain(member: (string, Value))
    requires WellNamed(member.1)
    ensures Plain(CarriedMember(member).1)
    decreases member, 0
  {
    CarriedIsPlain(member.1);
  }

  /** With undefined anywhere in it, what comes back is what the text carries. */
  lemma ParseGivesWhatTextCarries(v: Value, gap: string, trailing: string)
    requires WellNamed(v) && !v.Undefined? && Blank(gap) && Blank(trailing)
    ensures Parse(Print(v, gap, "") + trailing) == Some(Carried(v))
    ensures Plain(v) ==> Carried(v) == v
  {
    if Plain(v) {
      PlainIsCarried(v);
    }
    CarriedIsPlain(v);
    CarriedPrintsAlike(v, gap, "");
    ParseUndoesPrint(Carried(v), gap, trailing);
  }

  /** Which is the value itself when nothing in it is undefined. */
  lemma {:induction false} PlainIsCarried(v: Value)
    requires Plain(v)
    ensures Carried(v) == v
  {
    CarriedPrintsAlike(v, "", "");
    PlainIsWellNamed(v);
    CarriedIsPlain(v);
    StringifyIsInjective(Carried(v), v);
  }

  lemma {:induction false} PlainIsWellNamed(v: Value)
    requires Plain(v)
    ensures WellNamed(v)
    decreases v
  {
    match v {
      case Arr(items) => forall i | 0 <= i < |items| ensures WellNamed(items[i]) { PlainIsWellNamed(items[i]); }
      case Obj(members) =>
        forall i | 0 <= i < |members| ensures WellNamed(members[i].1) { PlainIsWellNamed(members[i].1); }
      case _ =>
    }
  }

  /** Looking a property up before and after. */
  lemma {:induction false} CarriedLookup(members: seq<(string, Value)>, name: string)
    requires Distinct(Keys(members))
    ensures Lookup(CarriedMembers(members), name)
         == if Lookup(members, name).Undefined? then Undefined else Carried(Lookup(members, name))
  {
    if members != [] {
      HeadAndRest(members, []);
      KeysStep(members[0], members[1..]);
      CarriedLookup(members[1..], name);
      if members[0].1.Undefined? && members[0].0 == name {
        NotLookedUp(members[1..], name);
      }
      LookupStep(CarriedMember(members[0]), CarriedMembers(members[1..]), name);
    }
  }

  lemma LookupStep(member: (string, Value), members: seq<(string, Value)>, name: string)
    ensures Lookup([member] + members, name) == if member.0 == name then member.1 else Lookup(members, name)
  {
    assert ([member] + members)[1..] == members;
  }

  lemma {:induction false} NotLookedUp(members: seq<(string, Value)>, name: string)
    requires name !in Keys(members)
    ensures Lookup(members, name) == Undefined
  {
    if members != [] {
      assert Keys(members)[0] == members[0].0;
      HeadAndRest(members, []);
      KeysStep(members[0], members[1..]);
      NotLookedUp(members[1..], name);
    }
  }

  /** Compact JSON text is unambiguous. */
  lemma StringifyIsInjective(v: Value, w: Value)
    requires Plain(v) && Plain(w) && Stringify(v) == Stringify(w)
    ensures v == w
  {
    ParseUndoesPrint(v, "", "");
    ParseUndoesPrint(w, "", "");
    assert Stringify(v) + "" == Stringify(v);
  }
}
