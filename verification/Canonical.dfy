/**
 `canonicalJson`: the text release signatures are computed over.

 Two JSON values have the same canonical text exactly when they are the same up to the order of
 object properties and up to properties whose value is undefined, as long as the collation
 behind `localeCompare` tells the property names of each object apart.
 */
module Canonical {
  import opened Text
  import opened Sorting
  import opened Json

  // The printer

  /** Properties are rendered before they are sorted, by name alone; the sort is stable. */
  function CanonicalJson(le: Order<string>, v: Value): string
    decreases v, 1
  {
    match v
    case Undefined => ""
    case Arr(items) => "[" + Join(CanonicalItems(le, items), ",") + "]"
    case Obj(members) => "{" + Join(Fields(SortBy(ByKey<string>(le), CanonicalMembers(le, members))), ",") + "}"
    case _ => Stringify(v)
  }

  function CanonicalItems(le: Order<string>, items: seq<Value>): (r: seq<string>)
    ensures |r| == |items|
    decreases items, 0
  {
    if items == [] then [] else [CanonicalJson(le, items[0])] + CanonicalItems(le, items[1..])
  }

  function CanonicalMembers(le: Order<string>, members: seq<(string, Value)>): seq<(string, string)>
    decreases members, 0
  {
    if members == [] then [] else
      var rest := CanonicalMembers(le, members[1..]);
      if members[0].1.Undefined? then rest else [CanonicalMember(le, members[0])] + rest
  }

  function CanonicalMember(le: Order<string>, member: (string, Value)): (string, string)
    decreases member, 0
  {
    (member.0, CanonicalJson(le, member.1))
  }

  function Fields(entries: seq<(string, string)>): (r: seq<string>)
    ensures |r| == |entries|
    ensures forall i :: 0 <= i < |r| ==> r[i] == Quote(entries[i].0) + ":" + entries[i].1
  {
    seq(|entries|, i requires 0 <= i < |entries| => Quote(entries[i].0) + ":" + entries[i].1)
  }

  // What the text means

  /** A value `canonicalJson` is meant for: undefined occurs only as a property's value. */
  ghost predicate Printable(v: Value) {
    match v
    case Undefined => false
    case Arr(items) => forall i :: 0 <= i < |items| ==> Printable(items[i])
    case Obj(members) =>
      && Distinct(Keys(members))
      && forall i :: 0 <= i < |members| ==> members[i].1.Undefined? || Printable(members[i].1)
    case _ => true
  }

  lemma {:induction false} PrintableIsWellNamed(v: Value)
    requires Printable(v)
    ensures WellNamed(v)
    decreases v
  {
    match v {
      case Arr(items) => forall i | 0 <= i < |items| ensures WellNamed(items[i]) { PrintableIsWellNamed(items[i]); }
      case Obj(members) =>
        forall i | 0 <= i < |members| ensures WellNamed(members[i].1) {
          if !members[i].1.Undefined? { PrintableIsWellNamed(members[i].1); }
        }
      case _ =>
    }
  }

  predicate Has(members: seq<(string, Value)>, name: string) {
    exists i :: 0 <= i < |members| && members[i].0 == name && !members[i].1.Undefined?
  }

  /** Equal up to the order of properties and up to undefined properties. */
  ghost predicate Same(v: Value, w: Value) {
    match v
    case Arr(items) =>
      && w.Arr? && |items| == |w.items|
      && forall i :: 0 <= i < |items| ==> Same(items[i], w.items[i])
    case Obj(members) =>
      && w.Obj?
      && (forall name :: Has(members, name) <==> Has(w.members, name))
      && (forall i, j :: 0 <= i < |members| && 0 <= j < |w.members| &&
            members[i].0 == w.members[j].0 && !members[i].1.Undefined? && !w.members[j].1.Undefined?
            ==> Same(members[i].1, w.members[j].1))
    case _ => v == w
  }

  /** The collation distinguishes the names of every object's defined properties. */
  ghost predicate NamesApart(le: Order<string>, v: Value) {
    match v
    case Arr(items) => forall i :: 0 <= i < |items| ==> NamesApart(le, items[i])
    case Obj(members) =>
      && (forall i, j :: 0 <= i < |members| && 0 <= j < |members| &&
            !members[i].1.Undefined? && !members[j].1.Undefined? &&
            le(members[i].0, members[j].0) && le(members[j].0, members[i].0)
            ==> members[i].0 == members[j].0)
      && (forall i :: 0 <= i < |members| ==> NamesApart(le, members[i].1))
    case _ => true
  }

  // The value whose compact JSON text the canonical text is

  function Normal(le: Order<string>, v: Value): Value
    decreases v, 1
  {
    match v
    case Arr(items) => Arr(NormalItems(le, items))
    case Obj(members) => Obj(SortBy(ByKey<Value>(le), NormalMembers(le, members)))
    case _ => v
  }

  function NormalItems(le: Order<string>, items: seq<Value>): (r: seq<Value>)
    ensures |r| == |items|
    decreases items, 0
  {
    if items == [] then [] else [Normal(le, items[0])] + NormalItems(le, items[1..])
  }

  function NormalMembers(le: Order<string>, members: seq<(string, Value)>): seq<(string, Value)>
    decreases members, 0
  {
    if members == [] then [] else
      var rest := NormalMembers(le, members[1..]);
      if members[0].1.Undefined? then rest else [NormalMember(le, members[0])] + rest
  }

  function NormalMember(le: Order<string>, member: (string, Value)): (string, Value)
    decreases member, 0
  {
    (member.0, Normal(le, member.1))
  }

  lemma {:induction false} NormalItemAt(le: Order<string>, items: seq<Value>, i: nat)
    requires i < |items|
    ensures NormalItems(le, items)[i] == Normal(le, items[i])
  {
    if i > 0 {
      NormalItemAt(le, items[1..], i - 1);
    }
  }

  /** The normal entries are the defined properties, normalised. */
  lemma {:induction false} NormalMembersAre(le: Order<string>, members: seq<(string, Value)>, e: (string, Value))
    ensures e in NormalMembers(le, members) <==>
            exists i :: 0 <= i < |members| && !members[i].1.Undefined? && e == NormalMember(le, members[i])
  {
    if members != [] {
      NormalMembersAre(le, members[1..], e);
      if e in NormalMembers(le, members[1..]) {
        var i :| 0 <= i < |members[1..]| && !members[1..][i].1.Undefined? && e == NormalMember(le, members[1..][i]);
        assert members[i + 1] == members[1..][i];
      } else {
        forall i | 1 <= i < |members| && !members[i].1.Undefined? ensures e != NormalMember(le, members[i]) {
          assert members[i] == members[1..][i - 1];
        }
      }
    }
  }

  lemma {:induction false} NormalKeysDistinct(le: Order<string>, members: seq<(string, Value)>)
    requires Distinct(Keys(members))
    ensures Distinct(Keys(NormalMembers(le, members)))
  {
    if members != [] {
      var tail := members[1..];
      assert Keys(members)[1..] == Keys(tail);
      NormalKeysDistinct(le, tail);
      var rest := NormalMembers(le, tail);
      forall e | e in rest ensures e.0 != members[0].0 {
        NormalMembersAre(le, tail, e);
        var i :| 0 <= i < |tail| && !tail[i].1.Undefined? && e == NormalMember(le, tail[i]);
        assert Keys(members)[i + 1] == e.0;
      }
    }
  }

  lemma DistinctIsInherited<V>(s: seq<(string, V)>, t: seq<(string, V)>)
    requires multiset(s) == multiset(t) && Distinct(Keys(s))
    ensures Distinct(Keys(t))
  {
    forall i, j | 0 <= i < j < |t| ensures Keys(t)[i] != Keys(t)[j] {
      KeysDiffer(s, t, i, j);
    }
  }

  lemma KeysDiffer<V>(s: seq<(string, V)>, t: seq<(string, V)>, i: nat, j: nat)
    requires multiset(s) == multiset(t) && Distinct(Keys(s)) && i < j < |t|
    ensures t[i].0 != t[j].0
  {
    WithoutCounts(t, j);
    assert Without(t, j)[i] == t[i];
    assert t[i] in multiset(Without(t, j));
    TwoOccurrences(s, t[i], t[j], multiset(Without(t, j)));
  }

  lemma TwoOccurrences<V>(s: seq<(string, V)>, a: (string, V), b: (string, V), rest: multiset<(string, V)>)
    requires Distinct(Keys(s)) && multiset(s) == multiset{b} + rest && a in rest
    ensures a.0 != b.0
  {
    var j := IndexOf(s, b);
    var i := OtherIndex(s, j, a, rest);
    assert Keys(s)[i] == a.0 && Keys(s)[j] == b.0;
  }

  lemma {:induction false} NormalIsPlain(le: Order<string>, v: Value)
    requires Printable(v)
    ensures Plain(Normal(le, v))
    decreases v
  {
    match v {
      case Arr(items) =>
        forall i | 0 <= i < |items| ensures Plain(NormalItems(le, items)[i]) {
          NormalItemAt(le, items, i);
          NormalIsPlain(le, items[i]);
        }
      case Obj(members) =>
        var entries := NormalMembers(le, members);
        var sorted := SortBy(ByKey<Value>(le), entries);
        NormalKeysDistinct(le, members);
        DistinctIsInherited(entries, sorted);
        forall k | 0 <= k < |sorted| ensures Plain(sorted[k].1) {
          assert sorted[k] in multiset(sorted);
          NormalMembersAre(le, members, sorted[k]);
          var i :| 0 <= i < |members| && !members[i].1.Undefined? && sorted[k] == NormalMember(le, members[i]);
          NormalIsPlain(le, members[i].1);
        }
      case _ =>
    }
  }

  // The canonical text is the compact text of the normal value

  /** Compact text, with nothing for undefined, as `join` has it. */
  function Compact(v: Value): string
    decreases v, 1
  {
    match v
    case Undefined => ""
    case Arr(items) => "[" + Join(CompactItems(items), ",") + "]"
    case Obj(members) => "{" + Join(CompactMembers(members), ",") + "}"
    case _ => Stringify(v)
  }

  function CompactItems(items: seq<Value>): (r: seq<string>)
    ensures |r| == |items|
    decreases items, 0
  {
    if items == [] then [] else [Compact(items[0])] + CompactItems(items[1..])
  }

  function CompactMembers(members: seq<(string, Value)>): (r: seq<string>)
    ensures |r| == |members|
    decreases members, 0
  {
    if members == [] then [] else [CompactMember(members[0])] + CompactMembers(members[1..])
  }

  function CompactMember(member: (string, Value)): string
    decreases member, 0
  {
    Quote(member.0) + ":" + Compact(member.1)
  }

  ghost predicate Renders(texts: seq<(string, string)>, values: seq<(string, Value)>) {
    && |texts| == |values|
    && forall i :: 0 <= i < |texts| ==> texts[i].0 == values[i].0 && texts[i].1 == Compact(values[i].1)
  }

  lemma {:induction false} InsertRenders(le: Order<string>, x: (string, string), y: (string, Value),
                                         s: seq<(string, string)>, t: seq<(string, Value)>)
    requires Renders(s, t) && Renders([x], [y])
    ensures Renders(Insert(ByKey<string>(le), x, s), Insert(ByKey<Value>(le), y, t))
  {
    if s != [] && !le(x.0, s[0].0) {
      InsertRenders(le, x, y, s[1..], t[1..]);
      RendersHead(s[0], t[0], Insert(ByKey<string>(le), x, s[1..]), Insert(ByKey<Value>(le), y, t[1..]));
    } else {
      assert x == [x][0] && y == [y][0];
      RendersHead(x, y, s, t);
    }
  }

  lemma RendersHead(x: (string, string), y: (string, Value), s: seq<(string, string)>, t: seq<(string, Value)>)
    requires Renders(s, t) && x.0 == y.0 && x.1 == Compact(y.1)
    ensures Renders([x] + s, [y] + t)
  {
  }

  lemma {:induction false} SortRenders(le: Order<string>, s: seq<(string, string)>, t: seq<(string, Value)>)
    requires Renders(s, t)
    ensures Renders(SortBy(ByKey<string>(le), s), SortBy(ByKey<Value>(le), t))
  {
    if s != [] {
      assert Renders(s[1..], t[1..]) && Renders([s[0]], [t[0]]);
      SortRenders(le, s[1..], t[1..]);
      InsertRenders(le, s[0], t[0], SortBy(ByKey<string>(le), s[1..]), SortBy(ByKey<Value>(le), t[1..]));
    }
  }

  lemma {:induction false} FieldsAreCompact(s: seq<(string, string)>, t: seq<(string, Value)>)
    requires Renders(s, t)
    ensures Fields(s) == CompactMembers(t)
  {
    if s != [] {
      assert Renders(s[1..], t[1..]);
      FieldsAreCompact(s[1..], t[1..]);
      assert Fields(s) == [Fields(s)[0]] + Fields(s[1..]);
      assert s[0].0 == t[0].0 && s[0].1 == Compact(t[0].1);
    }
  }

  lemma SortedFieldsAreCompact(le: Order<string>, s: seq<(string, string)>, t: seq<(string, Value)>)
    requires Renders(s, t)
    ensures Fields(SortBy(ByKey<string>(le), s)) == CompactMembers(SortBy(ByKey<Value>(le), t))
  {
    SortRenders(le, s, t);
    FieldsAreCompact(SortBy(ByKey<string>(le), s), SortBy(ByKey<Value>(le), t));
  }

  lemma CanonicalObjectIsCompact(le: Order<string>, members: seq<(string, Value)>)
    requires Renders(CanonicalMembers(le, members), NormalMembers(le, members))
    ensures CanonicalJson(le, Obj(members)) == Compact(Normal(le, Obj(members)))
  {
    SortedFieldsAreCompact(le, CanonicalMembers(le, members), NormalMembers(le, members));
  }

  /** `canonicalJson(v)` is the compact text of the value with its properties filtered and sorted. */
  lemma {:induction false} CanonicalIsCompact(le: Order<string>, v: Value)
    ensures CanonicalJson(le, v) == Compact(Normal(le, v))
    decreases v, 1
  {
    match v {
      case Arr(items) => CanonicalItemsAreCompact(le, items);
      case Obj(members) =>
        CanonicalMembersRender(le, members);
        CanonicalObjectIsCompact(le, members);
      case _ =>
    }
  }

  lemma {:induction false} CanonicalItemsAreCompact(le: Order<string>, items: seq<Value>)
    ensures CanonicalItems(le, items) == CompactItems(NormalItems(le, items))
    decreases items, 0
  {
    if items != [] {
      CanonicalIsCompact(le, items[0]);
      CanonicalItemsAreCompact(le, items[1..]);
      assert NormalItems(le, items)[1..] == NormalItems(le, items[1..]);
    }
  }

  lemma {:induction false} CanonicalMembersRender(le: Order<string>, members: seq<(string, Value)>)
    ensures Renders(CanonicalMembers(le, members), NormalMembers(le, members))
    decreases members, 0
  {
    if members != [] {
      CanonicalMembersRender(le, members[1..]);
      CanonicalMemberRenders(le, members[0]);
    }
  }

  lemma {:induction false} CanonicalMemberRenders(le: Order<string>, member: (string, Value))
    ensures CanonicalMember(le, member).1 == Compact(NormalMember(le, member).1)
    decreases member, 0
  {
    CanonicalIsCompact(le, member.1);
  }

  // For plain values that is the text of `JSON.stringify`

  lemma CompactBracket(open: char, close: char, parts: seq<string>)
    ensures Bracket(open, close, parts, "", "") == [open] + Join(parts, ",") + [close]
  {
    assert "," + "" == ",";
    if parts == [] {
      assert [open] + Join(parts, ",") + [close] == [open, close];
    } else {
      assert [open] + "" + Join(parts, ",") + "" + [close] == [open] + Join(parts, ",") + [close];
    }
  }

  lemma {:induction false} PlainCompactIsPrinted(v: Value)
    requires Plain(v)
    ensures Compact(v) == Stringify(v)
    decreases v, 1
  {
    match v {
      case Arr(items) =>
        PlainItemsArePrinted(items);
        CompactBracket('[', ']', CompactItems(items));
        assert "" + "" == "";
      case Obj(members) =>
        PlainMembersArePrinted(members);
        CompactBracket('{', '}', CompactMembers(members));
        assert "" + "" == "";
      case _ =>
    }
  }

  lemma {:induction false} PlainItemsArePrinted(items: seq<Value>)
    requires forall i :: 0 <= i < |items| ==> Plain(items[i])
    ensures CompactItems(items) == PrintItems(items, "", "")
    decreases items, 0
  {
    if items != [] {
      PlainCompactIsPrinted(items[0]);
      PlainItemsArePrinted(items[1..]);
    }
  }

  lemma {:induction false} PlainMembersArePrinted(members: seq<(string, Value)>)
    requires forall i :: 0 <= i < |members| ==> Plain(members[i].1)
    ensures CompactMembers(members) == PrintMembers(members, "", "")
    decreases members, 0
  {
    if members != [] {
      PlainMemberIsPrinted(members[0]);
      PlainMembersArePrinted(members[1..]);
      assert Plain(members[0].1);
    }
  }

  lemma {:induction false} PlainMemberIsPrinted(member: (string, Value))
    requires Plain(member.1)
    ensures CompactMember(member) == PrintMember(member, "", "")
    decreases member, 0
  {
    PlainCompactIsPrinted(member.1);
  }

  /** For printable values `canonicalJson(v)` is `JSON.stringify` of the filtered and sorted value. */
  lemma CanonicalIsCompactNormal(le: Order<string>, v: Value)
    requires Printable(v)
    ensures CanonicalJson(le, v) == Stringify(Normal(le, v))
  {
    CanonicalIsCompact(le, v);
    NormalIsPlain(le, v);
    PlainCompactIsPrinted(Normal(le, v));
  }
}
