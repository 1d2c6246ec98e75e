/**
 Stable sorting with a comparator, as `Array.prototype.sort` performs it.

 `localeCompare` is modelled as an unknown total preorder `le`: it may call two different
 strings equal.  The lemmas say what the release tool may rely on then: the result depends on
 the elements alone, and not on the order they came in, exactly when no two different elements
 compare as equal.
 */
module Sorting {

  type Order<!T> = (T, T) -> bool

  ghost predicate TotalPreorder<T(!new)>(le: Order<T>) {
    && (forall a, b :: le(a, b) || le(b, a))
    && (forall a, b, c :: le(a, b) && le(b, c) ==> le(a, c))
  }

  /** No two different elements of `s` compare as equal. */
  ghost predicate NoTies<T>(le: Order<T>, s: seq<T>) {
    forall a, b :: a in s && b in s && le(a, b) && le(b, a) ==> a == b
  }

  ghost predicate Sorted<T>(le: Order<T>, s: seq<T>) {
    forall i, j :: 0 <= i < j < |s| ==> le(s[i], s[j])
  }

  function Insert<T>(le: Order<T>, x: T, s: seq<T>): (r: seq<T>)
    ensures multiset(r) == multiset{x} + multiset(s)
  {
    if s == [] then [x]
    else if le(x, s[0]) then [x] + s
    else
      assert s == [s[0]] + s[1..];
      [s[0]] + Insert(le, x, s[1..])
  }

  /** Stable: an element stays before the later elements it ties with. */
  function SortBy<T>(le: Order<T>, s: seq<T>): (r: seq<T>)
    ensures multiset(r) == multiset(s)
  {
    if s == [] then [] else
      assert s == [s[0]] + s[1..];
      Insert(le, s[0], SortBy(le, s[1..]))
  }

  lemma MembersOfPermutation<T>(s: seq<T>, t: seq<T>)
    requires multiset(s) == multiset(t)
    ensures |s| == |t|
    ensures forall x :: x in s <==> x in t
  {
    assert |multiset(s)| == |s| && |multiset(t)| == |t|;
    forall x ensures x in s <==> x in t {
      assert x in s <==> x in multiset(s);
      assert x in t <==> x in multiset(t);
    }
  }

  lemma {:induction false} InsertKeepsSorted<T(!new)>(le: Order<T>, x: T, s: seq<T>)
    requires TotalPreorder(le) && Sorted(le, s)
    ensures Sorted(le, Insert(le, x, s))
  {
    if s != [] && !le(x, s[0]) {
      InsertKeepsSorted(le, x, s[1..]);
      var tail := Insert(le, x, s[1..]);
      forall y | y in tail ensures le(s[0], y) {
        assert y in multiset(tail);
        if y != x { assert y in s[1..]; }
      }
    }
  }

  lemma {:induction false} SortBySorts<T(!new)>(le: Order<T>, s: seq<T>)
    requires TotalPreorder(le)
    ensures Sorted(le, SortBy(le, s))
  {
    if s != [] {
      SortBySorts(le, s[1..]);
      InsertKeepsSorted(le, s[0], SortBy(le, s[1..]));
    }
  }

  /** Sorting what is sorted changes nothing. */
  lemma {:induction false} SortOfSorted<T(!new)>(le: Order<T>, s: seq<T>)
    requires Sorted(le, s)
    ensures SortBy(le, s) == s
  {
    if s != [] {
      SortOfSorted(le, s[1..]);
    }
  }

  lemma HeadIsLeast<T(!new)>(le: Order<T>, s: seq<T>)
    requires TotalPreorder(le) && Sorted(le, s) && s != []
    ensures forall x :: x in s ==> le(s[0], x)
  {
  }

  lemma SameHeadSameRest<T>(s: seq<T>, t: seq<T>)
    requires s != [] && t != [] && s[0] == t[0] && multiset(s) == multiset(t)
    ensures s == [s[0]] + s[1..] && t == [t[0]] + t[1..]
    ensures multiset(s[1..]) == multiset(t[1..])
  {
    assert s == [s[0]] + s[1..] && t == [t[0]] + t[1..];
    assert multiset(s[1..]) == multiset(s) - multiset{s[0]};
    assert multiset(t[1..]) == multiset(t) - multiset{s[0]};
  }

  /** With no ties, a sorted arrangement of given elements is unique. */
  lemma {:induction false} SortedIsUnique<T(!new)>(le: Order<T>, s: seq<T>, t: seq<T>)
    requires TotalPreorder(le) && Sorted(le, s) && Sorted(le, t) && multiset(s) == multiset(t)
    requires NoTies(le, s)
    ensures s == t
  {
    MembersOfPermutation(s, t);
    if s != [] {
      HeadIsLeast(le, s);
      HeadIsLeast(le, t);
      assert s[0] in t && t[0] in s;
      assert s[0] == t[0];
      SameHeadSameRest(s, t);
      SortedIsUnique(le, s[1..], t[1..]);
    }
  }

  lemma PermutationsSortAlike<T(!new)>(le: Order<T>, s: seq<T>, t: seq<T>)
    requires TotalPreorder(le) && NoTies(le, s)
    requires multiset(s) == multiset(t)
    ensures SortBy(le, s) == SortBy(le, t)
  {
    SortBySorts(le, s);
    SortBySorts(le, t);
    MembersOfPermutation(s, SortBy(le, s));
    SortedIsUnique(le, SortBy(le, s), SortBy(le, t));
  }

  lemma TiedCompareAlike<T(!new)>(le: Order<T>, a: T, b: T)
    requires TotalPreorder(le) && le(a, b) && le(b, a)
    ensures forall x :: le(a, x) <==> le(b, x)
  {
  }

  /** Two tied elements keep the order they were inserted in. */
  lemma {:induction false} TiesKeepTheirOrder<T(!new)>(le: Order<T>, a: T, b: T, s: seq<T>)
    requires TotalPreorder(le) && le(a, b) && le(b, a) && a != b
    ensures Insert(le, a, Insert(le, b, s)) != Insert(le, b, Insert(le, a, s))
  {
    TiedCompareAlike(le, a, b);
    if s != [] && !le(a, s[0]) {
      TiesKeepTheirOrder(le, a, b, s[1..]);
      var ab, ba := Insert(le, a, Insert(le, b, s[1..])), Insert(le, b, Insert(le, a, s[1..]));
      assert Insert(le, a, Insert(le, b, s)) == [s[0]] + ab;
      assert Insert(le, b, Insert(le, a, s)) == [s[0]] + ba;
      assert ([s[0]] + ab)[1..] == ab && ([s[0]] + ba)[1..] == ba;
    } else {
      assert Insert(le, b, s)[0] == b && Insert(le, a, s)[0] == a;
      assert Insert(le, a, Insert(le, b, s))[0] == a;
      assert Insert(le, b, Insert(le, a, s))[0] == b;
    }
  }

  ghost predicate SortsAlikeInEveryOrder<T(!new)>(le: Order<T>, s: seq<T>) {
    forall t :: multiset(t) == multiset(s) ==> SortBy(le, t) == SortBy(le, s)
  }

  /** The exact condition under which sorting makes the incoming order unobservable. */
  lemma SortHidesOrderExactlyWithoutTies<T(!new)>(le: Order<T>, s: seq<T>)
    requires TotalPreorder(le)
    ensures SortsAlikeInEveryOrder(le, s) <==> NoTies(le, s)
  {
    if NoTies(le, s) {
      forall t | multiset(t) == multiset(s) ensures SortBy(le, t) == SortBy(le, s) {
        PermutationsSortAlike(le, s, t);
      }
    } else {
      var a, b :| a in s && b in s && le(a, b) && le(b, a) && a != b;
      TiesShowTheOrder(le, s, a, b);
    }
  }

  lemma TiesShowTheOrder<T(!new)>(le: Order<T>, s: seq<T>, a: T, b: T)
    requires TotalPreorder(le) && a in s && b in s && le(a, b) && le(b, a) && a != b
    ensures !SortsAlikeInEveryOrder(le, s)
  {
    var rest := Rest(s, a, b);
    SwappedHead(rest, a, b);
    PairShowsTheOrder(le, a, b, rest);
    TwoArrangements(le, s, [a, b] + rest, [b, a] + rest);
  }

  lemma TwoArrangements<T(!new)>(le: Order<T>, s: seq<T>, s1: seq<T>, s2: seq<T>)
    requires multiset(s1) == multiset(s) == multiset(s2) && SortBy(le, s1) != SortBy(le, s2)
    ensures !SortsAlikeInEveryOrder(le, s)
  {
  }

  lemma SwappedHead<T>(rest: seq<T>, a: T, b: T)
    ensures multiset([a, b] + rest) == multiset([b, a] + rest)
  {
  }

  lemma PairShowsTheOrder<T(!new)>(le: Order<T>, a: T, b: T, rest: seq<T>)
    requires TotalPreorder(le) && le(a, b) && le(b, a) && a != b
    ensures SortBy(le, [a, b] + rest) != SortBy(le, [b, a] + rest)
  {
    TiesKeepTheirOrder(le, a, b, SortBy(le, rest));
    SortPair(le, a, b, rest);
    SortPair(le, b, a, rest);
  }

  lemma SortPair<T>(le: Order<T>, a: T, b: T, rest: seq<T>)
    ensures SortBy(le, [a, b] + rest) == Insert(le, a, Insert(le, b, SortBy(le, rest)))
  {
    assert ([a, b] + rest)[1..] == [b] + rest;
    assert ([b] + rest)[1..] == rest;
  }

  function Without<T>(s: seq<T>, i: nat): seq<T>
    requires i < |s|
  {
    s[..i] + s[i + 1..]
  }

  lemma WithoutCounts<T>(s: seq<T>, i: nat)
    requires i < |s|
    ensures multiset(s) == multiset{s[i]} + multiset(Without(s, i))
  {
    assert s == s[..i] + [s[i]] + s[i + 1..];
  }

  lemma IndexOf<T>(s: seq<T>, x: T) returns (i: nat)
    requires x in multiset(s)
    ensures i < |s| && s[i] == x
  {
    assert x in s;
    i :| 0 <= i < |s| && s[i] == x;
  }

  /** Where one of the elements besides the one at `j` is. */
  lemma OtherIndex<T>(s: seq<T>, j: nat, x: T, rest: multiset<T>) returns (i: nat)
    requires j < |s| && multiset(s) == multiset{s[j]} + rest && x in rest
    ensures i < |s| && i != j && s[i] == x
  {
    WithoutCounts(s, j);
    RestIs(multiset{s[j]}, multiset(Without(s, j)), rest);
    i := IndexOf(Without(s, j), x);
    if i >= j {
      i := i + 1;
    }
  }

  lemma RestIs<T>(x: multiset<T>, a: multiset<T>, b: multiset<T>)
    requires x + a == x + b
    ensures a == b
  {
    assert a == (x + a) - x && b == (x + b) - x;
  }

  /** What is left of `s` without one `a` and one `b`. */
  lemma Rest<T>(s: seq<T>, a: T, b: T) returns (rest: seq<T>)
    requires a in s && b in s && a != b
    ensures multiset([a, b] + rest) == multiset(s)
  {
    var i := IndexOf(s, a);
    WithoutCounts(s, i);
    var s' := Without(s, i);
    assert b in multiset(s');
    var j := IndexOf(s', b);
    WithoutCounts(s', j);
    rest := Without(s', j);
    assert multiset([a, b] + rest) == multiset{a} + (multiset{b} + multiset(rest));
  }

  // A selection that keeps the order

  /** `chosen` is what stands at the strictly increasing positions `p` of `all`. */
  ghost predicate Selects<T>(p: seq<nat>, all: seq<T>, chosen: seq<T>) {
    && |p| == |chosen|
    && (forall i, j :: 0 <= i < j < |p| ==> p[i] < p[j])
    && (forall k :: 0 <= k < |p| ==> p[k] < |all| && chosen[k] == all[p[k]])
  }

  /** The positions one further on, behind a first element that is chosen or not. */
  function Shifted(p: seq<nat>, first: bool): (q: seq<nat>)
    ensures |q| == |p| + (if first then 1 else 0) && (first ==> q[0] == 0)
    ensures forall k :: 0 <= k < |p| ==> q[if first then k + 1 else k] == p[k] + 1
  {
    (if first then [0] else []) + seq(|p|, k requires 0 <= k < |p| => p[k] + 1)
  }

  lemma ShiftedIn(p: seq<nat>, first: bool, i: nat)
    ensures i in Shifted(p, first) <==> if i == 0 then first else i - 1 in p
  {
    var q := Shifted(p, first);
    var d := if first then 1 else 0;
    if i > 0 && i - 1 in p {
      var k :| 0 <= k < |p| && p[k] == i - 1;
      assert q[if first then k + 1 else k] == i;
    }
    if i in q {
      var k :| 0 <= k < |q| && q[k] == i;
      if k >= d {
        assert q[if first then k - d + 1 else k - d] == p[k - d] + 1;
      }
    }
  }

  lemma ShiftedAt(p: seq<nat>, first: bool, k: nat)
    requires k < |Shifted(p, first)|
    ensures var d := if first then 1 else 0;
            Shifted(p, first)[k] == if k < d then 0 else p[k - d] + 1
  {
    var d := if first then 1 else 0;
    if k >= d {
      assert Shifted(p, first)[if first then k - d + 1 else k - d] == p[k - d] + 1;
    }
  }

  lemma SelectsOneMore<T>(p: seq<nat>, x: T, all: seq<T>, chosen: seq<T>, first: bool)
    requires Selects(p, all, chosen)
    ensures Selects(Shifted(p, first), [x] + all, (if first then [x] else []) + chosen)
  {
    var q := Shifted(p, first);
    forall k | 0 <= k < |q|
      ensures q[k] < |[x] + all| && ((if first then [x] else []) + chosen)[k] == ([x] + all)[q[k]]
    {
      ShiftedAt(p, first, k);
    }
    forall i, j | 0 <= i < j < |q| ensures q[i] < q[j] {
      ShiftedAt(p, first, i);
      ShiftedAt(p, first, j);
    }
  }

  // An element that comes last

  /** Inserted behind the elements it ties with. */
  function InsertAfter<T>(le: Order<T>, x: T, s: seq<T>): seq<T> {
    if s == [] then [x]
    else if le(s[0], x) then [s[0]] + InsertAfter(le, x, s[1..])
    else [x] + s
  }

  lemma {:induction false} InsertionsCommute<T(!new)>(le: Order<T>, x: T, m: T, s: seq<T>)
    requires TotalPreorder(le)
    ensures InsertAfter(le, m, Insert(le, x, s)) == Insert(le, x, InsertAfter(le, m, s))
    decreases |s|
  {
    if s == [] {
      InsertionsCommuteAlone(le, x, m);
    } else if le(x, s[0]) {
      InsertsBefore(le, x, m, s);
    } else {
      InsertionsCommute(le, x, m, s[1..]);
      InsertsBehind(le, x, m, s);
    }
  }

  lemma InsertionsCommuteAlone<T(!new)>(le: Order<T>, x: T, m: T)
    requires TotalPreorder(le)
    ensures InsertAfter(le, m, Insert(le, x, [])) == Insert(le, x, InsertAfter(le, m, []))
  {
    assert InsertAfter(le, m, [x]) == if le(x, m) then [x] + [m] else [m] + [x];
    assert [x][1..] == [] && [m][1..] == [];
  }

  lemma InsertsBefore<T(!new)>(le: Order<T>, x: T, m: T, s: seq<T>)
    requires TotalPreorder(le) && s != [] && le(x, s[0])
    ensures InsertAfter(le, m, Insert(le, x, s)) == Insert(le, x, InsertAfter(le, m, s))
  {
    InsertAfterStep(le, m, x, s);
    if le(s[0], m) {
      InsertStep(le, x, s[0], InsertAfter(le, m, s[1..]));
    } else {
      InsertStep(le, x, m, s);
    }
  }

  lemma InsertsBehind<T(!new)>(le: Order<T>, x: T, m: T, s: seq<T>)
    requires TotalPreorder(le) && s != [] && !le(x, s[0])
    requires InsertAfter(le, m, Insert(le, x, s[1..])) == Insert(le, x, InsertAfter(le, m, s[1..]))
    ensures InsertAfter(le, m, Insert(le, x, s)) == Insert(le, x, InsertAfter(le, m, s))
  {
    InsertAfterStep(le, m, s[0], Insert(le, x, s[1..]));
    if le(s[0], m) {
      InsertStep(le, x, s[0], InsertAfter(le, m, s[1..]));
    } else {
      InsertStep(le, x, m, s);
    }
  }

  lemma InsertStep<T>(le: Order<T>, x: T, y: T, s: seq<T>)
    ensures Insert(le, x, [y] + s) == if le(x, y) then [x] + ([y] + s) else [y] + Insert(le, x, s)
  {
    assert ([y] + s)[1..] == s;
  }

  lemma InsertAfterStep<T>(le: Order<T>, x: T, y: T, s: seq<T>)
    ensures InsertAfter(le, x, [y] + s) == if le(y, x) then [y] + InsertAfter(le, x, s) else [x] + ([y] + s)
  {
    assert ([y] + s)[1..] == s;
  }

  /** Sorting is stable: what comes last goes behind whatever it ties with. */
  lemma {:induction false} LastSortsBehindItsTies<T(!new)>(le: Order<T>, s: seq<T>, m: T)
    requires TotalPreorder(le)
    ensures SortBy(le, s + [m]) == InsertAfter(le, m, SortBy(le, s))
    decreases |s|
  {
    if s == [] {
      assert s + [m] == [m] && [m][1..] == [];
    } else {
      assert (s + [m])[1..] == s[1..] + [m];
      LastSortsBehindItsTies(le, s[1..], m);
      InsertionsCommute(le, s[0], m, SortBy(le, s[1..]));
    }
  }

  // Sorting entries of a record by their keys

  function ByKey<V>(le: Order<string>): Order<(string, V)> {
    (a: (string, V), b: (string, V)) => le(a.0, b.0)
  }

  function Keys<V>(entries: seq<(string, V)>): (r: seq<string>)
    ensures |r| == |entries| && forall i :: 0 <= i < |r| ==> r[i] == entries[i].0
  {
    seq(|entries|, i requires 0 <= i < |entries| => entries[i].0)
  }

  ghost predicate Distinct<T>(s: seq<T>) {
    forall i, j :: 0 <= i < j < |s| ==> s[i] != s[j]
  }

  lemma KeysStep<V>(member: (string, V), members: seq<(string, V)>)
    ensures Keys([member] + members) == [member.0] + Keys(members)
    ensures Distinct(Keys([member] + members)) <==> member.0 !in Keys(members) && Distinct(Keys(members))
  {
    var all, rest := Keys([member] + members), Keys(members);
    assert all == [member.0] + rest;
    if Distinct(all) {
      forall i, j | 0 <= i < j < |rest| ensures rest[i] != rest[j] {
        assert all[i + 1] != all[j + 1];
      }
      forall i | 0 <= i < |rest| ensures rest[i] != member.0 {
        assert all[0] != all[i + 1];
      }
    }
  }

  /** Entries of different keys tie exactly when their keys do. */
  lemma KeysTieAlike<V>(le: Order<string>, entries: seq<(string, V)>)
    requires Distinct(Keys(entries))
    ensures NoTies(ByKey<V>(le), entries) <==> NoTies(le, Keys(entries))
  {
    if NoTies(le, Keys(entries)) {
      forall a, b | a in entries && b in entries && ByKey<V>(le)(a, b) && ByKey<V>(le)(b, a)
        ensures a == b
      {
        var i :| 0 <= i < |entries| && entries[i] == a;
        var j :| 0 <= j < |entries| && entries[j] == b;
        assert Keys(entries)[i] in Keys(entries) && Keys(entries)[j] in Keys(entries);
      }
    }
    if NoTies(ByKey<V>(le), entries) {
      forall a, b | a in Keys(entries) && b in Keys(entries) && le(a, b) && le(b, a)
        ensures a == b
      {
        var i :| 0 <= i < |entries| && Keys(entries)[i] == a;
        var j :| 0 <= j < |entries| && Keys(entries)[j] == b;
        assert ByKey<V>(le)(entries[i], entries[j]) && ByKey<V>(le)(entries[j], entries[i]);
        assert entries[i] in entries && entries[j] in entries;
      }
    }
  }

  lemma ByKeyIsAPreorder<V(!new)>(le: Order<string>)
    requires TotalPreorder(le)
    ensures TotalPreorder(ByKey<V>(le))
  {
    var byKey := ByKey<V>(le);
    forall a, b ensures byKey(a, b) || byKey(b, a) {
      assert le(a.0, b.0) || le(b.0, a.0);
    }
    forall a, b, c | byKey(a, b) && byKey(b, c) ensures byKey(a, c) {
      assert le(a.0, b.0) && le(b.0, c.0);
    }
  }

  /** Records with the same entries, in whatever order they were built, sort alike. */
  lemma SameEntriesSortAlike<V(!new)>(le: Order<string>, s: seq<(string, V)>, t: seq<(string, V)>)
    requires TotalPreorder(le) && Distinct(Keys(s)) && NoTies(le, Keys(s))
    requires multiset(s) == multiset(t)
    ensures SortBy(ByKey<V>(le), s) == SortBy(ByKey<V>(le), t)
  {
    ByKeyIsAPreorder<V>(le);
    KeysTieAlike(le, s);
    PermutationsSortAlike(ByKey<V>(le), s, t);
  }

  /** For a record, the names alone decide whether sorting hides the order. */
  lemma RecordHidesOrderExactlyWithoutTies<V(!new)>(le: Order<string>, s: seq<(string, V)>)
    requires TotalPreorder(le) && Distinct(Keys(s))
    ensures SortsAlikeInEveryOrder(ByKey<V>(le), s) <==> NoTies(le, Keys(s))
  {
    ByKeyIsAPreorder<V>(le);
    KeysTieAlike(le, s);
    SortHidesOrderExactlyWithoutTies(ByKey<V>(le), s);
  }

  // Mapping over a permutation

  function MapSeq<A, B>(f: A -> B, s: seq<A>): (r: seq<B>)
    ensures |r| == |s| && forall i :: 0 <= i < |r| ==> r[i] == f(s[i])
  {
    seq(|s|, i requires 0 <= i < |s| => f(s[i]))
  }

  lemma {:induction false} MapPermutes<A, B>(f: A -> B, s: seq<A>, t: seq<A>)
    requires multiset(s) == multiset(t)
    ensures multiset(MapSeq(f, s)) == multiset(MapSeq(f, t))
    decreases |s|
  {
    if s == [] {
      MembersOfPermutation(s, t);
    } else {
      var j := HeadRemoved(s, t);
      MapPermutes(f, s[1..], Without(t, j));
      MapHead(f, s);
      MapWithout(f, t, j);
    }
  }

  /** Where the head of `s` is in its permutation `t`; the rest of each is the same. */
  lemma HeadRemoved<A>(s: seq<A>, t: seq<A>) returns (j: nat)
    requires s != [] && multiset(s) == multiset(t)
    ensures j < |t| && t[j] == s[0] && multiset(s[1..]) == multiset(Without(t, j))
  {
    assert s[0] in multiset(s);
    j := IndexOf(t, s[0]);
    WithoutCounts(t, j);
    WithoutCounts(s, 0);
    assert Without(s, 0) == s[1..];
    assert multiset(s[1..]) == multiset(s) - multiset{s[0]};
    assert multiset(Without(t, j)) == multiset(t) - multiset{t[j]};
  }

  lemma MapHead<A, B>(f: A -> B, s: seq<A>)
    requires s != []
    ensures multiset(MapSeq(f, s)) == multiset{f(s[0])} + multiset(MapSeq(f, s[1..]))
  {
    assert MapSeq(f, s) == [f(s[0])] + MapSeq(f, s[1..]);
  }

  lemma MapWithout<A, B>(f: A -> B, t: seq<A>, j: nat)
    requires j < |t|
    ensures multiset(MapSeq(f, t)) == multiset{f(t[j])} + multiset(MapSeq(f, Without(t, j)))
  {
    WithoutCounts(MapSeq(f, t), j);
    assert Without(MapSeq(f, t), j) == MapSeq(f, Without(t, j));
  }
}
