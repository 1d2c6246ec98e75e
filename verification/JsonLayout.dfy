/** How `JSON.stringify` lays a value out: escapes, separators and indentation. */
module JsonLayout {
  import opened Text
  import opened Json

  // Strings

  /** A lower-case hex digit. */
  function HexOf(k: nat): char
    requires k < 16
  {
    if k < 10 then ('0' as int + k) as char else ('a' as int + k - 10) as char
  }

  lemma HexDigitIs(k: nat)
    requires k < 16
    ensures HexDigit(k) == HexOf(k)
  {
  }

  /** The short escapes, `\u` with four digits for other control characters, and nothing else is escaped. */
  lemma EscapesAre(c: char)
    ensures c == '\"' || c == '\\' ==> EscapeChar(c) == ['\\', c]
    ensures c == '\U{8}' ==> EscapeChar(c) == "\\b"
    ensures c == '\t' ==> EscapeChar(c) == "\\t"
    ensures c == '\n' ==> EscapeChar(c) == "\\n"
    ensures c == '\U{C}' ==> EscapeChar(c) == "\\f"
    ensures c == '\r' ==> EscapeChar(c) == "\\r"
    ensures c < ' ' && c !in "\U{8}\t\n\U{C}\r" ==>
              EscapeChar(c) == ['\\', 'u', '0', '0', HexOf(c as nat / 16), HexOf(c as nat % 16)]
    ensures c >= ' ' && c != '\"' && c != '\\' ==> EscapeChar(c) == [c]
  {
    if c < ' ' {
      HexDigitIs(c as nat / 16);
      HexDigitIs(c as nat % 16);
    }
  }

  /** Quotes around the escaped characters, in order. */
  lemma {:induction false} QuotedIs(s: string) returns (parts: seq<string>)
    ensures |parts| == |s| && forall i :: 0 <= i < |s| ==> parts[i] == EscapeChar(s[i])
    ensures Quote(s) == "\"" + Concat(parts) + "\""
  {
    parts := EscapedIs(s);
  }

  lemma {:induction false} EscapedIs(s: string) returns (parts: seq<string>)
    ensures |parts| == |s| && forall i :: 0 <= i < |s| ==> parts[i] == EscapeChar(s[i])
    ensures Escape(s) == Concat(parts)
  {
    if s == "" {
      parts := [];
    } else {
      var rest := EscapedIs(s[1..]);
      parts := [EscapeChar(s[0])] + rest;
      assert parts[1..] == rest;
    }
  }

  // Arrays and objects

  /** What goes before each part: with a gap a line of its own, one gap further in. */
  function Lead(gap: string, indent: string): string {
    if gap == "" then "" else "\n" + (indent + gap)
  }

  function Led(parts: seq<string>, lead: string): (r: seq<string>)
    ensures |r| == |parts| && forall i :: 0 <= i < |r| ==> r[i] == lead + parts[i]
  {
    seq(|parts|, i requires 0 <= i < |parts| => lead + parts[i])
  }

  lemma LedStep(parts: seq<string>, lead: string)
    requires parts != []
    ensures Led(parts, lead) == [lead + parts[0]] + Led(parts[1..], lead)
  {
  }

  lemma JoinStep(part: string, rest: seq<string>, separator: string)
    ensures Join([part] + rest, separator) == part + if rest == [] then "" else separator + Join(rest, separator)
  {
    assert ([part] + rest)[1..] == rest;
    assert part + "" == part;
    Associative(part, separator, Join(rest, separator));
  }

  /** The lead before the first part and behind each comma is the lead before every part. */
  lemma {:induction false} LeadsJoin(parts: seq<string>, lead: string)
    requires parts != []
    ensures lead + Join(parts, "," + lead) == Join(Led(parts, lead), ",")
    decreases |parts|
  {
    var first, rest := parts[0], parts[1..];
    assert parts == [first] + rest;
    LedStep(parts, lead);
    JoinStep(first, rest, "," + lead);
    JoinStep(lead + first, Led(rest, lead), ",");
    if rest == [] {
      Associative(lead, first, "");
    } else {
      LeadsJoin(rest, lead);
      Regroup(lead, first, ",", Join(rest, "," + lead));
    }
  }

  lemma Regroup(lead: string, first: string, comma: string, more: string)
    ensures lead + (first + ((comma + lead) + more)) == (lead + first) + (comma + (lead + more))
  {
    Associative(comma, lead, more);
    Associative(lead, first, comma + (lead + more));
  }

  lemma BracketIs(open: char, close: char, parts: seq<string>, gap: string, indent: string)
    requires parts != []
    ensures Bracket(open, close, parts, gap, indent)
         == [open] + Join(Led(parts, Lead(gap, indent)), ",") + (if gap == "" then "" else "\n" + indent) + [close]
  {
    LeadsJoin(parts, Lead(gap, indent));
    Associative([open], Lead(gap, indent), Join(parts, "," + Lead(gap, indent)));
  }

  lemma {:induction false} ItemTexts(items: seq<Value>, gap: string, indent: string)
    ensures forall i :: 0 <= i < |items| ==> PrintItems(items, gap, indent)[i] == Print(items[i], gap, indent)
  {
    if items != [] {
      ItemTexts(items[1..], gap, indent);
    }
  }

  /**
   An array: its items in order with commas in between, without blanks or, with a gap, each on a line
   of its own that is one gap further in; the empty array is a pair of brackets.
   */
  lemma ArrayText(items: seq<Value>, gap: string, indent: string) returns (parts: seq<string>)
    ensures |parts| == |items|
    ensures forall i :: 0 <= i < |items| ==>
              parts[i] == (if gap == "" then "" else "\n" + (indent + gap)) + Print(items[i], gap, indent + gap)
    ensures Print(Arr(items), gap, indent) ==
            if items == [] then "[]" else "[" + Join(parts, ",") + (if gap == "" then "" else "\n" + indent) + "]"
  {
    parts := Led(PrintItems(items, gap, indent + gap), Lead(gap, indent));
    ItemTexts(items, gap, indent + gap);
    if items != [] {
      BracketIs('[', ']', PrintItems(items, gap, indent + gap), gap, indent);
    }
  }

  lemma {:induction false} MemberTexts(members: seq<(string, Value)>, gap: string, indent: string)
    requires forall i :: 0 <= i < |members| ==> !members[i].1.Undefined?
    ensures |PrintMembers(members, gap, indent)| == |members|
    ensures forall i :: 0 <= i < |members| ==>
              PrintMembers(members, gap, indent)[i] == PrintMember(members[i], gap, indent)
  {
    if members != [] {
      MemberTexts(members[1..], gap, indent);
    }
  }

  /** An object: likewise, each property as its quoted name, a colon, with a gap a blank, and its value. */
  lemma ObjectText(members: seq<(string, Value)>, gap: string, indent: string) returns (parts: seq<string>)
    requires forall i :: 0 <= i < |members| ==> !members[i].1.Undefined?
    ensures |parts| == |members|
    ensures forall i :: 0 <= i < |members| ==>
              parts[i] == (if gap == "" then "" else "\n" + (indent + gap))
                          + (Quote(members[i].0) + (if gap == "" then ":" else ": ")
                             + Print(members[i].1, gap, indent + gap))
    ensures Print(Obj(members), gap, indent) ==
            if members == [] then "{}" else "{" + Join(parts, ",") + (if gap == "" then "" else "\n" + indent) + "}"
  {
    parts := Led(PrintMembers(members, gap, indent + gap), Lead(gap, indent));
    MemberTexts(members, gap, indent + gap);
    if members != [] {
      BracketIs('{', '}', PrintMembers(members, gap, indent + gap), gap, indent);
    }
  }
}
