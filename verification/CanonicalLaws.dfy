/** What `canonicalJson` distinguishes, and what it does not. */
module CanonicalLaws {
  import opened Wrappers
  import opened Sorting
  import opened Json
  import opened JsonLaws
  import opened Canonical

  lemma {:induction false} SameIsReflexive(v: Value)
    requires Printable(v)
    ensures Same(v, v)
    decreases v
  {
    match v {
      case Arr(items) => forall i | 0 <= i < |items| { SameIsReflexive(items[i]); }
      case Obj(members) => PermutedPropertiesAreSame(members, members);
      case _ =>
    }
  }

  /** Reordering the properties of an object gives the same object. */
  lemma {:induction false} PermutedPropertiesAreSame(members: seq<(string, Value)>, others: seq<(string, Value)>)
    requires Printable(Obj(members)) && multiset(members) == multiset(others)
    ensures Printable(Obj(others)) && Same(Obj(members), Obj(others))
    decreases members
  {
    MembersOfPermutation(members, others);
    DistinctIsInherited(members, others);
    forall i | 0 <= i < |others| ensures others[i].1.Undefined? || Printable(others[i].1) {
      assert others[i] in members;
    }
    forall name ensures Has(members, name) <==> Has(others, name) {
      HasSomeMember(members, name);
      HasSomeMember(others, name);
    }
    forall i, j | 0 <= i < |members| && 0 <= j < |others| && members[i].0 == others[j].0 && !members[i].1.Undefined?
      ensures Same(members[i].1, others[j].1)
    {
      assert others[j] in members;
      var k :| 0 <= k < |members| && members[k] == others[j];
      assert Keys(members)[i] == Keys(members)[k];
      SameIsReflexive(members[i].1);
    }
  }

  lemma HasSomeMember(members: seq<(string, Value)>, name: string)
    ensures Has(members, name) <==> exists m :: m in members && m.0 == name && !m.1.Undefined?
  {
    if Has(members, name) {
      var i :| 0 <= i < |members| && members[i].0 == name && !members[i].1.Undefined?;
      assert members[i] in members;
    }
  }

  /** Every defined property has exactly one normal entry of its name, and conversely. */
  lemma OneIndexPerName(members: seq<(string, Value)>, i: nat, k: nat)
    requires Distinct(Keys(members)) && i < |members| && k < |members| && members[i].0 == members[k].0
    ensures i == k
  {
    assert Keys(members)[i] == Keys(members)[k];
  }

  lemma {:induction false} NormalEntryOf(le: Order<string>, members: seq<(string, Value)>, i: nat, e: (string, Value))
    requires Distinct(Keys(members)) && i < |members| && !members[i].1.Undefined?
    requires e in NormalMembers(le, members) && e.0 == members[i].0
    ensures e == NormalMember(le, members[i])
  {
    NormalMembersAre(le, members, e);
    var k :| 0 <= k < |members| && !members[k].1.Undefined? && e == NormalMember(le, members[k]);
    assert e.0 == members[k].0;
    OneIndexPerName(members, i, k);
  }

  lemma NormalEntryExists(le: Order<string>, members: seq<(string, Value)>, i: nat)
    requires i < |members| && !members[i].1.Undefined?
    ensures NormalMember(le, members[i]) in NormalMembers(le, members)
  {
    NormalMembersAre(le, members, NormalMember(le, members[i]));
  }

  lemma EqualNormalObjects(le: Order<string>, members: seq<(string, Value)>, others: seq<(string, Value)>)
    requires Normal(le, Obj(members)) == Normal(le, Obj(others))
    ensures forall e :: e in NormalMembers(le, members) <==> e in NormalMembers(le, others)
  {
    var byKey := ByKey<Value>(le);
    MembersOfPermutation(NormalMembers(le, members), SortBy(byKey, NormalMembers(le, members)));
    MembersOfPermutation(NormalMembers(le, others), SortBy(byKey, NormalMembers(le, others)));
  }

  lemma HasNormalEntry(le: Order<string>, members: seq<(string, Value)>, name: string)
    ensures Has(members, name) <==> exists e :: e in NormalMembers(le, members) && e.0 == name
  {
    if Has(members, name) {
      var i :| 0 <= i < |members| && members[i].0 == name && !members[i].1.Undefined?;
      NormalEntryExists(le, members, i);
    } else if e :| e in NormalMembers(le, members) && e.0 == name {
      NormalMembersAre(le, members, e);
    }
  }

  lemma {:induction false} EqualNormalsAreSame(le: Order<string>, v: Value, w: Value)
    requires WellNamed(v) && WellNamed(w) && Normal(le, v) == Normal(le, w)
    ensures Same(v, w)
    decreases v
  {
    match v {
      case Arr(items) =>
        assert w.Arr? && |w.items| == |items|;
        forall i | 0 <= i < |items| ensures Same(items[i], w.items[i]) {
          NormalItemAt(le, items, i);
          NormalItemAt(le, w.items, i);
          EqualNormalsAreSame(le, items[i], w.items[i]);
        }
      case Obj(members) =>
        assert w.Obj?;
        var others := w.members;
        EqualNormalObjects(le, members, others);
        forall name ensures Has(members, name) <==> Has(others, name) {
          HasNormalEntry(le, members, name);
          HasNormalEntry(le, others, name);
        }
        forall i, j | 0 <= i < |members| && 0 <= j < |others| && members[i].0 == others[j].0 &&
                      !members[i].1.Undefined? && !others[j].1.Undefined?
          ensures Same(members[i].1, others[j].1)
        {
          NormalEntryExists(le, others, j);
          NormalEntryOf(le, members, i, NormalMember(le, others[j]));
          assert Normal(le, members[i].1) == NormalMember(le, members[i]).1;
          assert Normal(le, others[j].1) == NormalMember(le, others[j]).1;
          EqualNormalsAreSame(le, members[i].1, others[j].1);
        }
      case _ =>
    }
  }

  lemma {:induction false} SameNormalsAreEqual(le: Order<string>, v: Value, w: Value)
    requires TotalPreorder(le) && WellNamed(v) && WellNamed(w) && NamesApart(le, v) && Same(v, w)
    ensures Normal(le, v) == Normal(le, w)
    decreases v
  {
    match v {
      case Arr(items) =>
        forall i | 0 <= i < |items| ensures NormalItems(le, items)[i] == NormalItems(le, w.items)[i] {
          NormalItemAt(le, items, i);
          NormalItemAt(le, w.items, i);
          SameNormalsAreEqual(le, items[i], w.items[i]);
        }
        assert NormalItems(le, items) == NormalItems(le, w.items);
      case Obj(members) =>
        forall i, j | 0 <= i < |members| && 0 <= j < |w.members| && members[i].0 == w.members[j].0 &&
                      !members[i].1.Undefined? && !w.members[j].1.Undefined?
          ensures NormalMember(le, members[i]) == NormalMember(le, w.members[j])
        {
          SameNormalsAreEqual(le, members[i].1, w.members[j].1);
        }
        SameNormalEntries(le, members, w.members);
        var s, t := NormalMembers(le, members), NormalMembers(le, w.members);
        NormalKeysDistinct(le, members);
        NormalKeysDistinct(le, w.members);
        SameElementsOnce(s, t);
        NormalKeysDoNotTie(le, members);
        SameEntriesSortAlike(le, s, t);
      case _ =>
    }
  }

  lemma SameNormalEntries(le: Order<string>, members: seq<(string, Value)>, others: seq<(string, Value)>)
    requires forall name :: Has(members, name) <==> Has(others, name)
    requires forall i, j :: 0 <= i < |members| && 0 <= j < |others| && members[i].0 == others[j].0 &&
                            !members[i].1.Undefined? && !others[j].1.Undefined?
                            ==> NormalMember(le, members[i]) == NormalMember(le, others[j])
    ensures forall e :: e in NormalMembers(le, members) <==> e in NormalMembers(le, others)
  {
    forall e ensures e in NormalMembers(le, members) <==> e in NormalMembers(le, others) {
      NormalMembersAre(le, members, e);
      NormalMembersAre(le, others, e);
      if e in NormalMembers(le, members) {
        var i :| 0 <= i < |members| && !members[i].1.Undefined? && e == NormalMember(le, members[i]);
        assert Has(members, members[i].0);
        assert Has(others, members[i].0);
      }
      if e in NormalMembers(le, others) {
        var j :| 0 <= j < |others| && !others[j].1.Undefined? && e == NormalMember(le, others[j]);
        assert Has(others, others[j].0);
        assert Has(members, others[j].0);
      }
    }
  }

  lemma {:induction false} OnceEach<V>(s: seq<(string, V)>, e: (string, V))
    requires Distinct(Keys(s))
    ensures multiset(s)[e] == if e in s then 1 else 0
  {
    if s != [] {
      assert s == [s[0]] + s[1..];
      assert Keys(s)[1..] == Keys(s[1..]);
      OnceEach(s[1..], e);
      forall i | 0 <= i < |s[1..]| ensures s[1..][i] != s[0] {
        assert Keys(s)[0] != Keys(s)[i + 1];
      }
    }
  }

  lemma SameElementsOnce<V>(s: seq<(string, V)>, t: seq<(string, V)>)
    requires Distinct(Keys(s)) && Distinct(Keys(t))
    requires forall e :: e in s <==> e in t
    ensures multiset(s) == multiset(t)
  {
    forall e ensures multiset(s)[e] == multiset(t)[e] {
      OnceEach(s, e);
      OnceEach(t, e);
    }
  }

  lemma NormalKeysDoNotTie(le: Order<string>, members: seq<(string, Value)>)
    requires NamesApart(le, Obj(members))
    ensures NoTies(le, Keys(NormalMembers(le, members)))
  {
    var entries := NormalMembers(le, members);
    forall a, b | a in Keys(entries) && b in Keys(entries) && le(a, b) && le(b, a) ensures a == b {
      var i :| 0 <= i < |entries| && Keys(entries)[i] == a;
      var j :| 0 <= j < |entries| && Keys(entries)[j] == b;
      NormalMembersAre(le, members, entries[i]);
      NormalMembersAre(le, members, entries[j]);
    }
  }

  // The two laws

  /** Canonical text tells any two different values apart; no assumption on the collation. */
  lemma EqualTextMeansSameValue(le: Order<string>, v: Value, w: Value)
    requires Printable(v) && Printable(w) && CanonicalJson(le, v) == CanonicalJson(le, w)
    ensures Same(v, w)
  {
    CanonicalIsCompactNormal(le, v);
    CanonicalIsCompactNormal(le, w);
    NormalIsPlain(le, v);
    NormalIsPlain(le, w);
    StringifyIsInjective(Normal(le, v), Normal(le, w));
    PrintableIsWellNamed(v);
    PrintableIsWellNamed(w);
    EqualNormalsAreSame(le, v, w);
  }

  lemma {:induction false} PlainIsPrintable(v: Value)
    requires Plain(v)
    ensures Printable(v)
    decreases v
  {
    match v {
      case Arr(items) => forall i | 0 <= i < |items| { PlainIsPrintable(items[i]); }
      case Obj(members) => forall i | 0 <= i < |members| { PlainIsPrintable(members[i].1); }
      case _ =>
    }
  }

  lemma {:induction false} NormalIsSame(le: Order<string>, v: Value)
    requires Printable(v)
    ensures Same(v, Normal(le, v))
    decreases v
  {
    match v {
      case Arr(items) =>
        forall i | 0 <= i < |items| ensures Same(items[i], NormalItems(le, items)[i]) {
          NormalItemAt(le, items, i);
          NormalIsSame(le, items[i]);
        }
      case Obj(members) =>
        var entries := NormalMembers(le, members);
        var sorted := SortBy(ByKey<Value>(le), entries);
        MembersOfPermutation(entries, sorted);
        NormalIsPlain(le, v);
        forall name ensures Has(members, name) <==> Has(sorted, name) {
          HasNormalEntry(le, members, name);
          HasSomeMember(sorted, name);
          DefinedEntries(le, v);
        }
        forall i, j | 0 <= i < |members| && 0 <= j < |sorted| && members[i].0 == sorted[j].0 && !members[i].1.Undefined?
          ensures Same(members[i].1, sorted[j].1)
        {
          assert sorted[j] in sorted;
          NormalEntryOf(le, members, i, sorted[j]);
          NormalIsSame(le, members[i].1);
        }
      case _ =>
    }
  }

  lemma DefinedEntries(le: Order<string>, v: Value)
    requires v.Obj? && Printable(v)
    ensures forall e :: e in Normal(le, v).members ==> !e.1.Undefined?
  {
    NormalIsPlain(le, v);
    var sorted := Normal(le, v).members;
    forall e | e in sorted ensures !e.1.Undefined? {
      var i :| 0 <= i < |sorted| && sorted[i] == e;
      assert Plain(sorted[i].1);
    }
  }

  /** A parser for canonical text returns the value with undefined members dropped and keys sorted. */
  lemma CanonicalTextParses(le: Order<string>, v: Value)
    requires Printable(v)
    ensures Parse(CanonicalJson(le, v)) == Some(Normal(le, v))
    ensures Plain(Normal(le, v)) && Same(v, Normal(le, v))
  {
    CanonicalIsCompactNormal(le, v);
    NormalIsPlain(le, v);
    NormalIsSame(le, v);
    ParseUndoesPrint(Normal(le, v), "", "");
    assert Stringify(Normal(le, v)) + "" == Stringify(Normal(le, v));
  }

  ghost predicate NamesAscend(le: Order<string>, members: seq<(string, Value)>) {
    forall i, j :: 0 <= i < j < |members| ==> le(members[i].0, members[j].0)
  }

  /** The names of every object are in ascending order. */
  ghost predicate Ascends(le: Order<string>, v: Value) {
    match v
    case Arr(items) => forall i :: 0 <= i < |items| ==> Ascends(le, items[i])
    case Obj(members) =>
      NamesAscend(le, members) && forall i :: 0 <= i < |members| ==> Ascends(le, members[i].1)
    case _ => true
  }

  lemma SortedNamesAscend(le: Order<string>, members: seq<(string, Value)>)
    requires TotalPreorder(le)
    ensures NamesAscend(le, SortBy(ByKey<Value>(le), members))
  {
    var sorted := SortBy(ByKey<Value>(le), members);
    ByKeyIsAPreorder<Value>(le);
    SortBySorts(ByKey<Value>(le), members);
    forall i, j | 0 <= i < j < |sorted| ensures le(sorted[i].0, sorted[j].0) {
      assert ByKey<Value>(le)(sorted[i], sorted[j]);
    }
  }

  /** So the canonical text shows the names of every object in ascending order. */
  lemma {:induction false} CanonicalNamesAscend(le: Order<string>, v: Value)
    requires TotalPreorder(le)
    ensures Ascends(le, Normal(le, v))
    decreases v
  {
    match v {
      case Arr(items) =>
        forall i | 0 <= i < |items| ensures Ascends(le, NormalItems(le, items)[i]) {
          NormalItemAt(le, items, i);
          CanonicalNamesAscend(le, items[i]);
        }
      case Obj(members) =>
        forall i | 0 <= i < |members| ensures Ascends(le, Normal(le, members[i].1)) {
          CanonicalNamesAscend(le, members[i].1);
        }
        ObjectAscends(le, members);
      case _ =>
    }
  }

  lemma ObjectAscends(le: Order<string>, members: seq<(string, Value)>)
    requires TotalPreorder(le) && forall i :: 0 <= i < |members| ==> Ascends(le, Normal(le, members[i].1))
    ensures Ascends(le, Normal(le, Obj(members)))
  {
    var entries := NormalMembers(le, members);
    var sorted := SortBy(ByKey<Value>(le), entries);
    SortedNamesAscend(le, entries);
    MembersOfPermutation(entries, sorted);
    forall k | 0 <= k < |sorted| ensures Ascends(le, sorted[k].1) {
      assert sorted[k] in entries;
      EntryAscends(le, members, sorted[k]);
    }
    MembersAscend(le, sorted);
  }

  lemma EntryAscends(le: Order<string>, members: seq<(string, Value)>, e: (string, Value))
    requires e in NormalMembers(le, members)
    requires forall i :: 0 <= i < |members| ==> Ascends(le, Normal(le, members[i].1))
    ensures Ascends(le, e.1)
  {
    NormalMembersAre(le, members, e);
    var i :| 0 <= i < |members| && !members[i].1.Undefined? && e == NormalMember(le, members[i]);
    assert e.1 == Normal(le, members[i].1);
  }

  lemma MembersAscend(le: Order<string>, members: seq<(string, Value)>)
    requires NamesAscend(le, members) && forall i :: 0 <= i < |members| ==> Ascends(le, members[i].1)
    ensures Ascends(le, Obj(members))
  {
  }

  /** Two values print alike exactly when they are the same up to key order. */
  lemma SameValueExactlyWhenSameText(le: Order<string>, v: Value, w: Value)
    requires TotalPreorder(le) && Printable(v) && Printable(w) && NamesApart(le, v)
    ensures CanonicalJson(le, v) == CanonicalJson(le, w) <==> Same(v, w)
  {
    if CanonicalJson(le, v) == CanonicalJson(le, w) {
      EqualTextMeansSameValue(le, v, w);
    }
    if Same(v, w) {
      PrintableIsWellNamed(v);
      PrintableIsWellNamed(w);
      SameNormalsAreEqual(le, v, w);
      CanonicalIsCompactNormal(le, v);
      CanonicalIsCompactNormal(le, w);
    }
  }

  // The condition on the collation is exact

  ghost predicate PrintsAlikeInEveryOrder(le: Order<string>, v: Value) {
    forall w :: Printable(w) && Same(v, w) ==> CanonicalJson(le, w) == CanonicalJson(le, v)
  }

  lemma KeyOrderIsHiddenExactlyWhenNamesApart(le: Order<string>, v: Value)
    requires TotalPreorder(le) && Printable(v)
    ensures PrintsAlikeInEveryOrder(le, v) <==> NamesApart(le, v)
  {
    if NamesApart(le, v) {
      forall w | Printable(w) && Same(v, w) ensures CanonicalJson(le, w) == CanonicalJson(le, v) {
        SameValueExactlyWhenSameText(le, v, w);
      }
    } else {
      var w := TiedNamesShow(le, v);
      if CanonicalJson(le, w) == CanonicalJson(le, v) {
        CanonicalIsCompactNormal(le, v);
        CanonicalIsCompactNormal(le, w);
        NormalIsPlain(le, v);
        NormalIsPlain(le, w);
        StringifyIsInjective(Normal(le, v), Normal(le, w));
      }
    }
  }

  lemma ReplacedItemShows(le: Order<string>, items: seq<Value>, i: nat, item: Value)
    requires i < |items| && Printable(Arr(items)) && Printable(item)
    requires Same(items[i], item) && Normal(le, item) != Normal(le, items[i])
    ensures var w := Arr(items[i := item]);
            Printable(w) && Same(Arr(items), w) && Normal(le, w) != Normal(le, Arr(items))
  {
    var items' := items[i := item];
    forall k | 0 <= k < |items| ensures Same(items[k], items'[k]) {
      if k != i { SameIsReflexive(items[k]); }
    }
    NormalItemAt(le, items, i);
    NormalItemAt(le, items', i);
  }

  /** When two names tie somewhere in `v`, some reordering of `v` prints differently. */
  lemma {:induction false} TiedNamesShow(le: Order<string>, v: Value) returns (w: Value)
    requires TotalPreorder(le) && Printable(v) && !NamesApart(le, v)
    ensures Printable(w) && Same(v, w) && Normal(le, w) != Normal(le, v)
    decreases v
  {
    match v {
      case Arr(items) =>
        var i :| 0 <= i < |items| && !NamesApart(le, items[i]);
        var item := TiedNamesShow(le, items[i]);
        w := Arr(items[i := item]);
        ReplacedItemShows(le, items, i, item);
      case Obj(members) =>
        if i :| 0 <= i < |members| && !NamesApart(le, members[i].1) {
          var value := TiedNamesShow(le, members[i].1);
          w := Obj(members[i := (members[i].0, value)]);
          ReplacedPropertyShows(le, members, i, value);
        } else {
          var i, j :| 0 <= i < |members| && 0 <= j < |members| &&
                      !members[i].1.Undefined? && !members[j].1.Undefined? &&
                      le(members[i].0, members[j].0) && le(members[j].0, members[i].0) &&
                      members[i].0 != members[j].0;
          w := TiedPropertiesShow(le, members, members[i], members[j]);
        }
    }
  }

  lemma ReplacedIsSame(members: seq<(string, Value)>, i: nat, value: Value)
    requires Printable(Obj(members)) && i < |members| && !members[i].1.Undefined?
    requires Printable(value) && Same(members[i].1, value)
    ensures var w := Obj(members[i := (members[i].0, value)]);
            Printable(w) && Same(Obj(members), w) && Keys(w.members) == Keys(members)
  {
    var others := members[i := (members[i].0, value)];
    assert Keys(others) == Keys(members);
    forall name ensures Has(members, name) <==> Has(others, name) {
      if Has(members, name) {
        var k :| 0 <= k < |members| && members[k].0 == name && !members[k].1.Undefined?;
        assert others[k].0 == name && !others[k].1.Undefined?;
      }
      if Has(others, name) {
        var k :| 0 <= k < |others| && others[k].0 == name && !others[k].1.Undefined?;
        assert members[k].0 == name && !members[k].1.Undefined?;
      }
    }
    forall k, j | 0 <= k < |members| && 0 <= j < |others| && members[k].0 == others[j].0 &&
                  !members[k].1.Undefined? && !others[j].1.Undefined?
      ensures Same(members[k].1, others[j].1)
    {
      assert Keys(members)[k] == Keys(members)[j];
      if k != i { SameIsReflexive(members[k].1); }
    }
  }

  lemma ReplacedPropertyShows(le: Order<string>, members: seq<(string, Value)>, i: nat, value: Value)
    requires Printable(Obj(members)) && i < |members| && !members[i].1.Undefined?
    requires Printable(value) && Same(members[i].1, value) && Normal(le, value) != Normal(le, members[i].1)
    ensures var w := Obj(members[i := (members[i].0, value)]);
            Printable(w) && Same(Obj(members), w) && Normal(le, w) != Normal(le, Obj(members))
  {
    var others := members[i := (members[i].0, value)];
    ReplacedIsSame(members, i, value);
    assert NormalMember(le, others[i]).1 == Normal(le, value);
    NormalEntryExists(le, others, i);
    if Normal(le, Obj(others)) == Normal(le, Obj(members)) {
      EqualNormalObjects(le, members, others);
      NormalEntryOf(le, members, i, NormalMember(le, others[i]));
    }
  }

  lemma TiedPropertiesShow(le: Order<string>, members: seq<(string, Value)>, a: (string, Value), b: (string, Value))
    returns (w: Value)
    requires TotalPreorder(le) && Printable(Obj(members)) && a in members && b in members
    requires !a.1.Undefined? && !b.1.Undefined? && a.0 != b.0 && le(a.0, b.0) && le(b.0, a.0)
    ensures Printable(w) && Same(Obj(members), w) && Normal(le, w) != Normal(le, Obj(members))
  {
    var rest := Rest(members, a, b);
    var s1, s2 := [a, b] + rest, [b, a] + rest;
    assert multiset(s2) == multiset(s1);
    PermutedPropertiesAreSame(members, s1);
    PermutedPropertiesAreSame(members, s2);
    var x, y := NormalMember(le, a), NormalMember(le, b);
    NormalPair(le, a, b, rest);
    NormalPair(le, b, a, rest);
    var byKey := ByKey<Value>(le);
    ByKeyIsAPreorder<Value>(le);
    SortPair(byKey, x, y, NormalMembers(le, rest));
    SortPair(byKey, y, x, NormalMembers(le, rest));
    TiesKeepTheirOrder(byKey, x, y, SortBy(byKey, NormalMembers(le, rest)));
    w := if Normal(le, Obj(s1)) != Normal(le, Obj(members)) then Obj(s1) else Obj(s2);
  }

  lemma NormalPair(le: Order<string>, a: (string, Value), b: (string, Value), rest: seq<(string, Value)>)
    requires !a.1.Undefined? && !b.1.Undefined?
    ensures NormalMembers(le, [a, b] + rest)
         == [NormalMember(le, a), NormalMember(le, b)] + NormalMembers(le, rest)
  {
    assert ([a, b] + rest)[1..] == [b] + rest;
    assert ([b] + rest)[1..] == rest;
  }
}
