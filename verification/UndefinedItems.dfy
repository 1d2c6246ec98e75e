/**
 Undefined inside an array: `join` writes nothing for it, and the text stays unambiguous but for
 one thing.  An array of nothing but one undefined has the text of the empty array.
 */
module UndefinedItems {
  import opened Wrappers
  import opened Text
  import opened Sorting
  import opened Json
  import opened JsonLaws
  import opened Canonical
  import opened CanonicalLaws

  // Compact text can be read in one way only

  predicate IsLoneUndefined(items: seq<Value>) {
    |items| == 1 && items[0].Undefined?
  }

  /** Values whose compact text can be told apart: no array is a lone undefined, no property undefined. */
  predicate Terse(v: Value) {
    match v
    case Undefined => false
    case Arr(items) =>
      !IsLoneUndefined(items) && forall i :: 0 <= i < |items| ==> items[i].Undefined? || Terse(items[i])
    case Obj(members) => forall i :: 0 <= i < |members| ==> Terse(members[i].1)
    case _ => true
  }

  /** What stands behind a value in a compact text. */
  predicate Closes(rest: string) {
    rest == "" || rest[0] in {',', ']', '}'}
  }

  predicate IsScalar(v: Value) {
    v.Null? || v.Bool? || v.Int? || v.Str?
  }

  lemma ScalarReads(v: Value, rest: string)
    requires IsScalar(v) && Closes(rest)
    ensures ParseValue(Compact(v) + rest) == Some((v, rest))
    ensures Compact(v) != "" && Compact(v)[0] !in {'[', '{', ',', ']', '}'}
  {
    PrintedHead(v, "", "");
    match v {
      case Int(n) => ReadsInt(n, rest); DigitsRead(if n < 0 then -n else n);
      case Str(s) => ReadsText(s, rest);
      case _ => ReadsWord(v, rest);
    }
  }

  lemma CompactHead(v: Value)
    requires !v.Undefined?
    ensures Compact(v) != "" && Compact(v)[0] !in {',', ']', '}'}
    ensures Compact(v)[0] == '[' <==> v.Arr?
    ensures Compact(v)[0] == '{' <==> v.Obj?
  {
    if IsScalar(v) {
      ScalarReads(v, "");
    }
  }

  /** A list of parts, its closing bracket, and what follows. */
  function Listed(parts: seq<string>, close: char, rest: string): string {
    Join(parts, ",") + [close] + rest
  }

  lemma ListedStep(parts: seq<string>, close: char, rest: string)
    requires parts != []
    ensures Listed(parts, close, rest) == parts[0] + Behind(parts, close, rest)
    ensures Behind(parts, close, rest) != ""
    ensures Behind(parts, close, rest)[0] == if |parts| == 1 then close else ','
    ensures Behind(parts, close, rest)[1..] == if |parts| == 1 then rest else Listed(parts[1..], close, rest)
  {
    if |parts| > 1 {
      assert Join(parts, ",") == parts[0] + "," + Join(parts[1..], ",");
    }
  }

  /** What follows the first part. */
  function Behind(parts: seq<string>, close: char, rest: string): string
    requires parts != []
  {
    if |parts| == 1 then [close] + rest else "," + Listed(parts[1..], close, rest)
  }

  lemma EmptyListed(close: char, rest: string)
    ensures Listed([], close, rest) == [close] + rest
    ensures Listed([], close, rest)[0] == close && Listed([], close, rest)[1..] == rest
  {
    assert ([close] + rest)[1..] == rest;
  }

  lemma BracketedText(open: char, parts: seq<string>, close: char, rest: string)
    ensures var text := [open] + Join(parts, ",") + [close] + rest;
            text != "" && text[0] == open && text[1..] == Listed(parts, close, rest)
  {
  }

  lemma ArrayText(items: seq<Value>, rest: string)
    ensures Compact(Arr(items)) + rest != ""
        && (Compact(Arr(items)) + rest)[1..] == Listed(CompactItems(items), ']', rest)
  {
    BracketedText('[', CompactItems(items), ']', rest);
    assert Compact(Arr(items)) == ['['] + Join(CompactItems(items), ",") + [']'];
  }

  lemma ObjectText(members: seq<(string, Value)>, rest: string)
    ensures Compact(Obj(members)) + rest != ""
    ensures (Compact(Obj(members)) + rest)[1..] == Listed(CompactMembers(members), '}', rest)
  {
    BracketedText('{', CompactMembers(members), '}', rest);
    assert Compact(Obj(members)) == ['{'] + Join(CompactMembers(members), ",") + ['}'];
  }

  lemma HeadOf(v: Value, rest: string)
    requires !v.Undefined?
    ensures Compact(v) + rest != "" && (Compact(v) + rest)[0] == Compact(v)[0]
  {
    CompactHead(v);
  }

  /** Two values whose texts start a common text are equal, and so is what follows them. */
  lemma {:induction false} CompactReadsOneWay(v: Value, w: Value, r: string, s: string)
    requires Terse(v) && Terse(w) && Closes(r) && Closes(s) && Compact(v) + r == Compact(w) + s
    ensures v == w && r == s
    decreases v, 2
  {
    HeadOf(v, r);
    HeadOf(w, s);
    CompactHead(v);
    CompactHead(w);
    match v {
      case Arr(items) =>
        ArrayText(items, r);
        ArrayText(w.items, s);
        ItemsReadOneWay(items, w.items, r, s);
      case Obj(members) =>
        ObjectText(members, r);
        ObjectText(w.members, s);
        MembersReadOneWay(members, w.members, r, s);
      case _ =>
        ScalarReads(v, r);
        ScalarReads(w, s);
    }
  }

  ghost predicate TerseItems(items: seq<Value>) {
    forall i :: 0 <= i < |items| ==> items[i].Undefined? || Terse(items[i])
  }

  lemma {:induction false} ItemsReadOneWay(items: seq<Value>, others: seq<Value>, r: string, s: string)
    requires TerseItems(items) && TerseItems(others) && !IsLoneUndefined(items) && !IsLoneUndefined(others)
    requires Closes(r) && Closes(s) && Listed(CompactItems(items), ']', r) == Listed(CompactItems(others), ']', s)
    ensures items == others && r == s
    decreases items, 1
  {
    EmptyListed(']', r);
    EmptyListed(']', s);
    if items == [] || others == [] {
      if items != [] { FirstItem(items, r); }
      if others != [] { FirstItem(others, s); }
    } else {
      SomeItemsReadOneWay(items, others, r, s);
    }
  }

  /** The text of a list that is neither empty nor a lone undefined does not start with its bracket. */
  lemma FirstItem(items: seq<Value>, rest: string)
    requires items != [] && !IsLoneUndefined(items)
    ensures Listed(CompactItems(items), ']', rest) != "" && Listed(CompactItems(items), ']', rest)[0] != ']'
  {
    ListedStep(CompactItems(items), ']', rest);
    if !items[0].Undefined? {
      CompactHead(items[0]);
    }
  }

  lemma {:induction false} SomeItemsReadOneWay(items: seq<Value>, others: seq<Value>, r: string, s: string)
    requires items != [] && others != [] && TerseItems(items) && TerseItems(others)
    requires Closes(r) && Closes(s) && Listed(CompactItems(items), ']', r) == Listed(CompactItems(others), ']', s)
    ensures items == others && r == s
    decreases items, 0
  {
    var parts, parts' := CompactItems(items), CompactItems(others);
    ListedStep(parts, ']', r);
    ListedStep(parts', ']', s);
    var behind, behind' := Behind(parts, ']', r), Behind(parts', ']', s);
    FirstItemsAgree(items[0], others[0], behind, behind');
    if !items[0].Undefined? {
      CompactReadsOneWay(items[0], others[0], behind, behind');
    }
    HeadAndRest(items, []);
    HeadAndRest(others, []);
    assert parts[1..] == CompactItems(items[1..]) && parts'[1..] == CompactItems(others[1..]);
    if |items| > 1 {
      SomeItemsReadOneWay(items[1..], others[1..], r, s);
    }
  }

  lemma FirstItemsAgree(v: Value, w: Value, behind: string, behind': string)
    requires Compact(v) + behind == Compact(w) + behind'
    requires behind != "" && behind[0] in {',', ']'} && behind' != "" && behind'[0] in {',', ']'}
    ensures v.Undefined? <==> w.Undefined?
    ensures v.Undefined? ==> behind == behind'
  {
    assert "" + behind == behind && "" + behind' == behind';
    if !v.Undefined? {
      CompactHead(v);
    }
    if !w.Undefined? {
      CompactHead(w);
    }
  }

  ghost predicate TerseMembers(members: seq<(string, Value)>) {
    forall i :: 0 <= i < |members| ==> Terse(members[i].1)
  }

  lemma {:induction false} MembersReadOneWay(members: seq<(string, Value)>, others: seq<(string, Value)>, r: string,
                                             s: string)
    requires TerseMembers(members) && TerseMembers(others)
    requires Closes(r) && Closes(s) && Listed(CompactMembers(members), '}', r) == Listed(CompactMembers(others), '}', s)
    ensures members == others && r == s
    decreases members, 1
  {
    EmptyListed('}', r);
    EmptyListed('}', s);
    if members == [] || others == [] {
      if members != [] { FirstMember(members, r); }
      if others != [] { FirstMember(others, s); }
    } else {
      SomeMembersReadOneWay(members, others, r, s);
    }
  }

  lemma FirstMember(members: seq<(string, Value)>, rest: string)
    requires members != []
    ensures Listed(CompactMembers(members), '}', rest) != "" && Listed(CompactMembers(members), '}', rest)[0] == '"'
  {
    ListedStep(CompactMembers(members), '}', rest);
  }

  lemma {:induction false} SomeMembersReadOneWay(members: seq<(string, Value)>, others: seq<(string, Value)>,
                                                 r: string, s: string)
    requires members != [] && others != [] && TerseMembers(members) && TerseMembers(others)
    requires Closes(r) && Closes(s) && Listed(CompactMembers(members), '}', r) == Listed(CompactMembers(others), '}', s)
    ensures members == others && r == s
    decreases members, 0
  {
    var parts, parts' := CompactMembers(members), CompactMembers(others);
    ListedStep(parts, '}', r);
    ListedStep(parts', '}', s);
    MemberReadsOneWay(members[0], others[0], Behind(parts, '}', r), Behind(parts', '}', s));
    HeadAndRest(members, []);
    HeadAndRest(others, []);
    assert parts[1..] == CompactMembers(members[1..]) && parts'[1..] == CompactMembers(others[1..]);
    if |members| > 1 {
      SomeMembersReadOneWay(members[1..], others[1..], r, s);
    }
  }

  lemma {:induction false} MemberReadsOneWay(m: (string, Value), n: (string, Value), r: string, s: string)
    requires Terse(m.1) && Terse(n.1) && Closes(r) && Closes(s) && CompactMember(m) + r == CompactMember(n) + s
    ensures m == n && r == s
    decreases m, 0
  {
    MemberText(m, r);
    MemberText(n, s);
    QuotedReadsOneWay(m.0, n.0, Compact(m.1) + r, Compact(n.1) + s);
    CompactReadsOneWay(m.1, n.1, r, s);
  }

  lemma QuotedReadsOneWay(name: string, name': string, a: string, b: string)
    requires Quote(name) + (":" + a) == Quote(name') + (":" + b)
    ensures name == name' && a == b
  {
    ReadsText(name, ":" + a);
    ReadsText(name', ":" + b);
    assert (":" + a)[1..] == a && (":" + b)[1..] == b;
  }

  lemma MemberText(m: (string, Value), rest: string)
    ensures CompactMember(m) + rest == Quote(m.0) + (":" + (Compact(m.1) + rest))
  {
  }

  // Collapsing lone undefined items

  /** The value with every array that is a lone undefined emptied. */
  function Collapse(v: Value): Value
    decreases v, 1
  {
    match v
    case Arr(items) => if IsLoneUndefined(items) then Arr([]) else Arr(CollapseItems(items))
    case Obj(members) => Obj(CollapseMembers(members))
    case _ => v
  }

  function CollapseItems(items: seq<Value>): (r: seq<Value>)
    ensures |r| == |items|
    decreases items, 0
  {
    if items == [] then [] else [Collapse(items[0])] + CollapseItems(items[1..])
  }

  function CollapseMembers(members: seq<(string, Value)>): (r: seq<(string, Value)>)
    ensures |r| == |members|
    decreases members, 0
  {
    if members == [] then [] else [CollapseMember(members[0])] + CollapseMembers(members[1..])
  }

  function CollapseMember(member: (string, Value)): (string, Value)
    decreases member, 0
  {
    (member.0, Collapse(member.1))
  }

  lemma {:induction false} CollapseKeepsText(le: Order<string>, v: Value)
    ensures CanonicalJson(le, Collapse(v)) == CanonicalJson(le, v)
    ensures Collapse(v).Undefined? <==> v.Undefined?
    decreases v, 1
  {
    match v {
      case Arr(items) =>
        if IsLoneUndefined(items) {
          assert CanonicalItems(le, items) == [""];
        } else {
          CollapseKeepsItems(le, items);
        }
      case Obj(members) => CollapseKeepsMembers(le, members);
      case _ =>
    }
  }

  lemma {:induction false} CollapseKeepsItems(le: Order<string>, items: seq<Value>)
    ensures CanonicalItems(le, CollapseItems(items)) == CanonicalItems(le, items)
    decreases items, 0
  {
    if items != [] {
      CollapseKeepsText(le, items[0]);
      CollapseKeepsItems(le, items[1..]);
    }
  }

  lemma {:induction false} CollapseKeepsMembers(le: Order<string>, members: seq<(string, Value)>)
    ensures CanonicalMembers(le, CollapseMembers(members)) == CanonicalMembers(le, members)
    decreases members, 0
  {
    if members != [] {
      CollapseKeepsMember(le, members[0]);
      CollapseKeepsMembers(le, members[1..]);
    }
  }

  lemma {:induction false} CollapseKeepsMember(le: Order<string>, member: (string, Value))
    ensures CanonicalMember(le, CollapseMember(member)) == CanonicalMember(le, member)
    ensures CollapseMember(member).1.Undefined? <==> member.1.Undefined?
    decreases member, 0
  {
    CollapseKeepsText(le, member.1);
  }

  lemma {:induction false} CollapsedItemAt(items: seq<Value>, i: nat)
    requires i < |items|
    ensures CollapseItems(items)[i] == Collapse(items[i])
    decreases i
  {
    if i > 0 {
      CollapsedItemAt(items[1..], i - 1);
    }
  }

  lemma {:induction false} CollapsedMemberAt(members: seq<(string, Value)>, i: nat)
    requires i < |members|
    ensures CollapseMembers(members)[i] == CollapseMember(members[i])
    decreases i
  {
    if i > 0 {
      CollapsedMemberAt(members[1..], i - 1);
    }
  }

  /** No array in the value is a lone undefined. */
  predicate Collapsed(v: Value) {
    match v
    case Arr(items) => !IsLoneUndefined(items) && forall i :: 0 <= i < |items| ==> Collapsed(items[i])
    case Obj(members) => forall i :: 0 <= i < |members| ==> Collapsed(members[i].1)
    case _ => true
  }

  lemma {:induction false} CollapseCollapses(le: Order<string>, v: Value)
    requires WellNamed(v)
    ensures WellNamed(Collapse(v)) && Collapsed(Collapse(v))
    ensures NamesApart(le, v) ==> NamesApart(le, Collapse(v))
    ensures Collapse(v).Undefined? <==> v.Undefined?
    decreases v
  {
    match v {
      case Arr(items) =>
        forall i | 0 <= i < |items|
          ensures WellNamed(CollapseItems(items)[i]) && Collapsed(CollapseItems(items)[i])
          ensures NamesApart(le, v) ==> NamesApart(le, CollapseItems(items)[i])
          ensures CollapseItems(items)[i].Undefined? <==> items[i].Undefined?
        {
          CollapsedItemAt(items, i);
          CollapseCollapses(le, items[i]);
        }
      case Obj(members) =>
        var collapsed := CollapseMembers(members);
        forall i | 0 <= i < |members|
          ensures WellNamed(collapsed[i].1) && Collapsed(collapsed[i].1) && collapsed[i].0 == members[i].0
          ensures NamesApart(le, v) ==> NamesApart(le, collapsed[i].1)
          ensures collapsed[i].1.Undefined? <==> members[i].1.Undefined?
        {
          CollapsedMemberAt(members, i);
          CollapseCollapses(le, members[i].1);
        }
        assert Keys(collapsed) == Keys(members);
      case _ =>
    }
  }

  lemma {:induction false} NormalIsTerse(le: Order<string>, v: Value)
    requires Collapsed(v) && !v.Undefined?
    ensures Terse(Normal(le, v))
    decreases v
  {
    match v {
      case Arr(items) =>
        forall i | 0 <= i < |items| ensures NormalItems(le, items)[i].Undefined? || Terse(NormalItems(le, items)[i]) {
          NormalItemAt(le, items, i);
          if !items[i].Undefined? { NormalIsTerse(le, items[i]); }
        }
        if items != [] { NormalItemAt(le, items, 0); NormalKeepsUndefined(le, items[0]); }
      case Obj(members) =>
        var entries := NormalMembers(le, members);
        var sorted := SortBy(ByKey<Value>(le), entries);
        forall k | 0 <= k < |sorted| ensures Terse(sorted[k].1) {
          assert sorted[k] in multiset(sorted);
          NormalMembersAre(le, members, sorted[k]);
          var i :| 0 <= i < |members| && !members[i].1.Undefined? && sorted[k] == NormalMember(le, members[i]);
          NormalIsTerse(le, members[i].1);
        }
      case _ =>
    }
  }

  lemma NormalKeepsUndefined(le: Order<string>, v: Value)
    ensures Normal(le, v).Undefined? <==> v.Undefined?
  {
  }

  // The law for every value with distinct names

  lemma EqualCollapsedTexts(le: Order<string>, v: Value, w: Value)
    requires WellNamed(v) && WellNamed(w) && Collapsed(v) && Collapsed(w) && !v.Undefined? && !w.Undefined?
    requires CanonicalJson(le, v) == CanonicalJson(le, w)
    ensures Same(v, w)
  {
    CanonicalIsCompact(le, v);
    CanonicalIsCompact(le, w);
    NormalIsTerse(le, v);
    NormalIsTerse(le, w);
    assert Compact(Normal(le, v)) + "" == Compact(Normal(le, w)) + "";
    CompactReadsOneWay(Normal(le, v), Normal(le, w), "", "");
    EqualNormalsAreSame(le, v, w);
  }

  /** Equal texts mean the same value once every lone undefined item is dropped; whatever the collation. */
  lemma EqualTextMeansSameCollapsed(le: Order<string>, v: Value, w: Value)
    requires WellNamed(v) && WellNamed(w) && !v.Undefined? && !w.Undefined?
    requires CanonicalJson(le, v) == CanonicalJson(le, w)
    ensures Same(Collapse(v), Collapse(w))
  {
    CollapseKeepsText(le, v);
    CollapseKeepsText(le, w);
    CollapseCollapses(le, v);
    CollapseCollapses(le, w);
    EqualCollapsedTexts(le, Collapse(v), Collapse(w));
  }

  /** With names told apart that is exact: texts are equal exactly when the collapsed values are the same. */
  lemma SameTextExactlyWhenSameCollapsed(le: Order<string>, v: Value, w: Value)
    requires TotalPreorder(le) && WellNamed(v) && WellNamed(w) && !v.Undefined? && !w.Undefined? && NamesApart(le, v)
    ensures CanonicalJson(le, v) == CanonicalJson(le, w) <==> Same(Collapse(v), Collapse(w))
  {
    if CanonicalJson(le, v) == CanonicalJson(le, w) {
      EqualTextMeansSameCollapsed(le, v, w);
    }
    if Same(Collapse(v), Collapse(w)) {
      CollapseCollapses(le, v);
      CollapseCollapses(le, w);
      SameNormalsAreEqual(le, Collapse(v), Collapse(w));
      CanonicalIsCompact(le, Collapse(v));
      CanonicalIsCompact(le, Collapse(w));
      CollapseKeepsText(le, v);
      CollapseKeepsText(le, w);
    }
  }

  /** The one collision: an array of one undefined and the empty array. */
  lemma LoneUndefinedCollides(le: Order<string>)
    ensures CanonicalJson(le, Arr([Undefined])) == CanonicalJson(le, Arr([]))
    ensures !Same(Arr([Undefined]), Arr([])) && Collapse(Arr([Undefined])) == Arr([])
  {
    CollapseKeepsText(le, Arr([Undefined]));
  }
}
