/**
 JSON text: `JSON.stringify` with and without an indent, and a parser that undoes it.

 A JavaScript object is the list of its own properties in insertion order.  Only integers are
 numbers here.
 */
module Json {
  import opened Wrappers
  import opened Text
  import opened Sorting

  datatype Value =
    | Undefined
    | Null
    | Bool(b: bool)
    | Int(n: int)
    | Str(s: string)
    | Arr(items: seq<Value>)
    | Obj(members: seq<(string, Value)>)

  /** A value JSON text can carry: nothing undefined anywhere, property names distinct. */
  ghost predicate Plain(v: Value) {
    match v
    case Undefined => false
    case Arr(items) => forall i :: 0 <= i < |items| ==> Plain(items[i])
    case Obj(members) =>
      && Distinct(Keys(members))
      && forall i :: 0 <= i < |members| ==> Plain(members[i].1)
    case _ => true
  }

  /** Every object in the value has distinct names; undefined may occur anywhere. */
  ghost predicate WellNamed(v: Value) {
    match v
    case Arr(items) => forall i :: 0 <= i < |items| ==> WellNamed(items[i])
    case Obj(members) => Distinct(Keys(members)) && forall i :: 0 <= i < |members| ==> WellNamed(members[i].1)
    case _ => true
  }

  /** `value?.name`. */
  function Get(v: Value, name: string): Value {
    if v.Obj? then Lookup(v.members, name) else Undefined
  }

  function Lookup(members: seq<(string, Value)>, name: string): Value {
    if members == [] then Undefined
    else if members[0].0 == name then members[0].1
    else Lookup(members[1..], name)
  }

  // Printing

  const HEX_DIGITS := "0123456789abcdef"

  function HexDigit(k: nat): char
    requires k < 16
  {
    HEX_DIGITS[k]
  }

  /** The escapes of section 7 of RFC 8259 that `JSON.stringify` writes. */
  function EscapeChar(c: char): string {
    if c == '"' then "\\\""
    else if c == '\\' then "\\\\"
    else if c == '\U{8}' then "\\b"
    else if c == '\U{C}' then "\\f"
    else if c == '\n' then "\\n"
    else if c == '\r' then "\\r"
    else if c == '\t' then "\\t"
    else if c < ' ' then "\\u00" + [HexDigit(c as nat / 16), HexDigit(c as nat % 16)]
    else [c]
  }

  function Escape(s: string): string {
    if s == "" then "" else EscapeChar(s[0]) + Escape(s[1..])
  }

  function Quote(s: string): string {
    "\"" + Escape(s) + "\""
  }

  function Digits(n: nat): string {
    if n < 10 then [HexDigit(n)] else Digits(n / 10) + [HexDigit(n % 10)]
  }

  function PrintInt(n: int): string {
    if n < 0 then "-" + Digits(-n) else Digits(n)
  }

  function Break(gap: string, indent: string): string {
    if gap == "" then "" else "\n" + indent
  }

  function Colon(gap: string): string {
    if gap == "" then ":" else ": "
  }

  /** `JSON.stringify(v, null, gap)` at nesting `indent`; with an empty gap the compact form. */
  function Print(v: Value, gap: string, indent: string): string
    decreases v, 1
  {
    match v
    case Undefined => "null"
    case Null => "null"
    case Bool(b) => if b then "true" else "false"
    case Int(n) => PrintInt(n)
    case Str(s) => Quote(s)
    case Arr(items) =>
      var inner := indent + gap;
      Bracket('[', ']', PrintItems(items, gap, inner), gap, indent)
    case Obj(members) =>
      var inner := indent + gap;
      Bracket('{', '}', PrintMembers(members, gap, inner), gap, indent)
  }

  function PrintItems(items: seq<Value>, gap: string, indent: string): (r: seq<string>)
    ensures |r| == |items|
    decreases items, 0
  {
    if items == [] then [] else [Print(items[0], gap, indent)] + PrintItems(items[1..], gap, indent)
  }

  function PrintMembers(members: seq<(string, Value)>, gap: string, indent: string): seq<string>
    decreases members, 0
  {
    if members == [] then [] else
      var rest := PrintMembers(members[1..], gap, indent);
      if members[0].1.Undefined? then rest else [PrintMember(members[0], gap, indent)] + rest
  }

  function PrintMember(member: (string, Value), gap: string, indent: string): string
    decreases member, 0
  {
    Quote(member.0) + Colon(gap) + Print(member.1, gap, indent)
  }

  function Bracket(open: char, close: char, parts: seq<string>, gap: string, indent: string): string {
    if parts == [] then [open, close] else
      var inner := Break(gap, indent + gap);
      [open] + inner + Join(parts, "," + inner) + Break(gap, indent) + [close]
  }

  function Stringify(v: Value): string {
    Print(v, "", "")
  }

  // What the text carries

  /** The value without undefined properties, and with null for undefined items. */
  function Carried(v: Value): Value
    decreases v, 1
  {
    match v
    case Undefined => Null
    case Arr(items) => Arr(CarriedItems(items))
    case Obj(members) => Obj(CarriedMembers(members))
    case _ => v
  }

  function CarriedItems(items: seq<Value>): (r: seq<Value>)
    ensures |r| == |items|
    decreases items, 0
  {
    if items == [] then [] else [Carried(items[0])] + CarriedItems(items[1..])
  }

  function CarriedMembers(members: seq<(string, Value)>): seq<(string, Value)>
    decreases members, 0
  {
    if members == [] then [] else
      var rest := CarriedMembers(members[1..]);
      if members[0].1.Undefined? then rest else [CarriedMember(members[0])] + rest
  }

  function CarriedMember(member: (string, Value)): (string, Value)
    decreases member, 0
  {
    (member.0, Carried(member.1))
  }

  // Parsing

  predicate IsBlank(c: char) {
    c == ' ' || c == '\n' || c == '\r' || c == '\t'
  }

  predicate IsDigit(c: char) {
    '0' <= c <= '9'
  }

  predicate Blank(s: string) {
    forall i :: 0 <= i < |s| ==> IsBlank(s[i])
  }

  function SkipBlanks(s: string): (r: string)
    ensures |r| <= |s|
    ensures r != "" ==> !IsBlank(r[0])
  {
    if s != "" && IsBlank(s[0]) then SkipBlanks(s[1..]) else s
  }

  function DigitsPrefix(s: string): (k: nat)
    ensures k <= |s|
    ensures forall i :: 0 <= i < k ==> IsDigit(s[i])
    ensures k < |s| ==> !IsDigit(s[k])
  {
    if s != "" && IsDigit(s[0]) then 1 + DigitsPrefix(s[1..]) else 0
  }

  function DigitValue(c: char): nat
    requires IsDigit(c)
  {
    c as nat - '0' as nat
  }

  function DigitsValue(s: string): nat
    requires forall i :: 0 <= i < |s| ==> IsDigit(s[i])
  {
    if s == "" then 0 else DigitsValue(s[..|s| - 1]) * 10 + DigitValue(s[|s| - 1])
  }

  function ParseInt(s: string): (r: Option<(Value, string)>)
    ensures r.Some? ==> |r.value.1| < |s|
  {
    var negative := s != "" && s[0] == '-';
    var t := if negative then s[1..] else s;
    var k := DigitsPrefix(t);
    if k == 0 || (k > 1 && t[0] == '0') then None
    else
      var n: int := DigitsValue(t[..k]);
      Some((Int(if negative then -n else n), t[k..]))
  }

  function HexValue(c: char): Option<nat> {
    if '0' <= c <= '9' then Some(c as nat - '0' as nat)
    else if 'a' <= c <= 'f' then Some(c as nat - 'a' as nat + 10)
    else if 'A' <= c <= 'F' then Some(c as nat - 'A' as nat + 10)
    else None
  }

  function ParseHex4(s: string): Option<char>
    requires |s| >= 4
  {
    var a :- HexValue(s[0]);
    var b :- HexValue(s[1]);
    var c :- HexValue(s[2]);
    var d :- HexValue(s[3]);
    var code := ((a * 16 + b) * 16 + c) * 16 + d;
    if code < 0xD800 || 0xE000 <= code < 0x11_0000 then Some(code as char) else None
  }

  /** One character of a string literal, with what follows it. */
  function ParseChar(s: string): (r: Option<(char, string)>)
    ensures r.Some? ==> |r.value.1| < |s|
  {
    if s == "" || s[0] == '"' || s[0] < ' ' then None
    else if s[0] != '\\' then Some((s[0], s[1..]))
    else if |s| < 2 then None
    else match s[1]
      case '"' => Some(('"', s[2..]))
      case '\\' => Some(('\\', s[2..]))
      case '/' => Some(('/', s[2..]))
      case 'b' => Some(('\U{8}', s[2..]))
      case 'f' => Some(('\U{C}', s[2..]))
      case 'n' => Some(('\n', s[2..]))
      case 'r' => Some(('\r', s[2..]))
      case 't' => Some(('\t', s[2..]))
      case 'u' =>
        if |s| < 6 then None else
          var c :- ParseHex4(s[2..]);
          Some((c, s[6..]))
      case _ => None
  }

  /** The rest of a string literal after its opening quote. */
  function ParseChars(s: string): (r: Option<(string, string)>)
    ensures r.Some? ==> |r.value.1| < |s|
    decreases |s|
  {
    if s != "" && s[0] == '"' then Some(("", s[1..])) else
      var (c, rest) :- ParseChar(s);
      var (tail, rest') :- ParseChars(rest);
      Some(([c] + tail, rest'))
  }

  function ParseValue(s: string): (r: Option<(Value, string)>)
    ensures r.Some? ==> |r.value.1| < |s|
    decreases |s|, 1
  {
    var t := SkipBlanks(s);
    if t == "" then None
    else match t[0]
      case 'n' => if StartsWith(t, "null") then Some((Null, t[4..])) else None
      case 't' => if StartsWith(t, "true") then Some((Bool(true), t[4..])) else None
      case 'f' => if StartsWith(t, "false") then Some((Bool(false), t[5..])) else None
      case '"' =>
        var (text, rest) :- ParseChars(t[1..]);
        Some((Str(text), rest))
      case '[' =>
        var u := SkipBlanks(t[1..]);
        if u != "" && u[0] == ']' then Some((Arr([]), u[1..])) else
          var (items, rest) :- ParseItems(t[1..]);
          Some((Arr(items), rest))
      case '{' =>
        var u := SkipBlanks(t[1..]);
        if u != "" && u[0] == '}' then Some((Obj([]), u[1..])) else
          var (members, rest) :- ParseMembers(t[1..]);
          Some((Obj(members), rest))
      case _ => ParseInt(t)
  }

  function ParseItems(s: string): (r: Option<(seq<Value>, string)>)
    ensures r.Some? ==> |r.value.1| < |s|
    decreases |s|, 2
  {
    var (v, rest) :- ParseValue(s);
    var t := SkipBlanks(rest);
    if t == "" then None
    else if t[0] == ']' then Some(([v], t[1..]))
    else if t[0] != ',' then None
    else
      var (items, rest') :- ParseItems(t[1..]);
      Some(([v] + items, rest'))
  }

  function ParseMembers(s: string): (r: Option<(seq<(string, Value)>, string)>)
    ensures r.Some? ==> |r.value.1| < |s|
    decreases |s|, 2
  {
    var a := SkipBlanks(s);
    if a == "" || a[0] != '"' then None else
      var (name, b) :- ParseChars(a[1..]);
      var c := SkipBlanks(b);
      if c == "" || c[0] != ':' then None else
        var (v, rest) :- ParseValue(c[1..]);
        var t := SkipBlanks(rest);
        if t == "" then None
        else if t[0] == '}' then Some(([(name, v)], t[1..]))
        else if t[0] != ',' then None
        else
          var (members, rest') :- ParseMembers(t[1..]);
          Some(([(name, v)] + members, rest'))
  }

  /** `JSON.parse`: one value with nothing but blanks around it. */
  function Parse(s: string): Option<Value> {
    var (v, rest) :- ParseValue(s);
    if SkipBlanks(rest) == "" then Some(v) else None
  }
}
