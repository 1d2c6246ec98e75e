/** `lockComponents`: the components of a package lock, by package URL and path. */
module Lockfile {
  import opened Wrappers
  import opened Text
  import opened Sorting
  import opened Json

  datatype Component = Component(path: string, name: string, version: string, purl: string, license: Option<string>)

  const MARKER := "node_modules/"

  /** `path.lastIndexOf(marker)`, as the text behind the last marker. */
  function PackageNameFromPath(path: string): Option<string> {
    if path == "" then None
    else
      var later := PackageNameFromPath(path[1..]);
      if later.Some? then later
      else if StartsWith(path, MARKER) then Some(path[|MARKER|..])
      else None
  }

  function EncodeParts(encode: string -> string, parts: seq<string>): seq<string> {
    if parts == [] then [] else [encode(parts[0])] + EncodeParts(encode, parts[1..])
  }

  /** A scoped name keeps its slash; `encode` is `encodeURIComponent`. */
  function EncodePurl(encode: string -> string, name: string): string {
    if StartsWith(name, "@") then "%40" + Join(EncodeParts(encode, SplitOn(name[1..], '/')), "/") else encode(name)
  }

  /** The component of one lock entry, if it is one. */
  function ComponentOf(encode: string -> string, entry: (string, Value)): Option<Component> {
    var (path, value) := entry;
    var version := Get(value, "version");
    if path == "" || !version.Str? then None
    else
      var given := Get(value, "name");
      var name := if given.Str? then Some(given.s) else PackageNameFromPath(path);
      if name.None? || name.value == "" then None
      else
        var license := Get(value, "license");
        Some(Component(path, name.value, version.s,
                       "pkg:npm/" + EncodePurl(encode, name.value) + "@" + encode(version.s),
                       if license.Str? then Some(license.s) else None))
  }

  function Kept(encode: string -> string, packages: seq<(string, Value)>): seq<Component> {
    if packages == [] then []
    else match ComponentOf(encode, packages[0])
      case None => Kept(encode, packages[1..])
      case Some(c) => [c] + Kept(encode, packages[1..])
  }

  /** `a.purl.localeCompare(b.purl) || a.path.localeCompare(b.path)`. */
  function ByPurlThenPath(le: Order<string>): Order<Component> {
    (a: Component, b: Component) =>
      if le(a.purl, b.purl) && le(b.purl, a.purl) then le(a.path, b.path) else le(a.purl, b.purl)
  }

  function Components(le: Order<string>, encode: string -> string, packages: seq<(string, Value)>): seq<Component> {
    SortBy(ByPurlThenPath(le), Kept(encode, packages))
  }

  method LockComponents(le: Order<string>, encode: string -> string, packages: seq<(string, Value)>)
    returns (output: seq<Component>)
    ensures output == Components(le, encode, packages)
  {
    output := [];
    for i := 0 to |packages|
      invariant Kept(encode, packages) == output + Kept(encode, packages[i..])
    {
      assert packages[i..][1..] == packages[i + 1..];
      match ComponentOf(encode, packages[i]) {
        case None =>
        case Some(c) => output := output + [c];
      }
    }
    assert output + [] == output;
    output := SortBy(ByPurlThenPath(le), output);
  }

  // Laws

  lemma {:induction false} KeptIs(encode: string -> string, packages: seq<(string, Value)>, c: Component)
    ensures c in Kept(encode, packages) <==> exists p :: p in packages && ComponentOf(encode, p) == Some(c)
  {
    if packages != [] {
      KeptIs(encode, packages[1..], c);
      assert forall p :: p in packages <==> p == packages[0] || p in packages[1..];
    }
  }

  lemma PurlOrderIsAPreorder(le: Order<string>)
    requires TotalPreorder(le)
    ensures TotalPreorder(ByPurlThenPath(le))
  {
    var order := ByPurlThenPath(le);
    forall a, b ensures order(a, b) || order(b, a) {
      assert le(a.purl, b.purl) || le(b.purl, a.purl);
      assert le(a.path, b.path) || le(b.path, a.path);
    }
    forall a, b, c | order(a, b) && order(b, c) ensures order(a, c) {
      assert le(a.purl, b.purl) && le(b.purl, c.purl);
      assert le(a.path, b.path) && le(b.path, c.path) ==> le(a.path, c.path);
    }
  }

  lemma {:induction false} KeptPermutes(encode: string -> string, a: seq<(string, Value)>, b: seq<(string, Value)>)
    requires multiset(a) == multiset(b)
    ensures multiset(Kept(encode, a)) == multiset(Kept(encode, b))
    decreases |a|
  {
    if a == [] {
      MembersOfPermutation(a, b);
    } else {
      var j := HeadRemoved(a, b);
      KeptPermutes(encode, a[1..], Without(b, j));
      KeptWithout(encode, a, 0);
      assert Without(a, 0) == a[1..];
      KeptWithout(encode, b, j);
    }
  }

  lemma KeptWithout(encode: string -> string, b: seq<(string, Value)>, j: nat)
    requires j < |b|
    ensures multiset(Kept(encode, b)) == multiset(Kept(encode, [b[j]])) + multiset(Kept(encode, Without(b, j)))
  {
    KeptMiddle(encode, b[..j], b[j], b[j + 1..]);
    CutAt(b, j);
  }

  lemma KeptMiddle(encode: string -> string, x: seq<(string, Value)>, e: (string, Value), y: seq<(string, Value)>)
    ensures multiset(Kept(encode, x + ([e] + y))) == multiset(Kept(encode, [e])) + multiset(Kept(encode, x + y))
  {
    KeptAppend(encode, x, [e] + y);
    KeptAppend(encode, [e], y);
    KeptAppend(encode, x, y);
  }

  lemma {:induction false} KeptAppend(encode: string -> string, a: seq<(string, Value)>, b: seq<(string, Value)>)
    ensures Kept(encode, a + b) == Kept(encode, a) + Kept(encode, b)
    decreases |a|
  {
    if a == [] {
      assert a + b == b;
    } else {
      KeptAppend(encode, a[1..], b);
      HeadAndRest(a, b);
      KeptStep(encode, a[0], a[1..] + b);
      KeptStep(encode, a[0], a[1..]);
      Associative(Kept(encode, [a[0]]), Kept(encode, a[1..]), Kept(encode, b));
    }
  }

  lemma KeptStep(encode: string -> string, e: (string, Value), rest: seq<(string, Value)>)
    ensures Kept(encode, [e] + rest) == Kept(encode, [e]) + Kept(encode, rest)
  {
    assert ([e] + rest)[1..] == rest;
  }

  lemma EntryOfComponent(encode: string -> string, packages: seq<(string, Value)>, c: Component) returns (i: nat)
    requires c in Kept(encode, packages)
    ensures i < |packages| && packages[i].0 == c.path && ComponentOf(encode, packages[i]) == Some(c)
  {
    KeptIs(encode, packages, c);
    var p :| p in packages && ComponentOf(encode, p) == Some(c);
    i :| 0 <= i < |packages| && packages[i] == p;
  }

  /** The order of a lock's package keys does not show in its components when no two of them tie. */
  lemma ComponentsIgnoreOrder(le: Order<string>, encode: string -> string, a: seq<(string, Value)>,
                              b: seq<(string, Value)>)
    requires TotalPreorder(le) && multiset(a) == multiset(b)
    requires NoTies(ByPurlThenPath(le), Kept(encode, a))
    ensures Components(le, encode, a) == Components(le, encode, b)
  {
    KeptPermutes(encode, a, b);
    PurlOrderIsAPreorder(le);
    PermutationsSortAlike(ByPurlThenPath(le), Kept(encode, a), Kept(encode, b));
  }

  lemma KeptPair(encode: string -> string, p: (string, Value), q: (string, Value), rest: seq<(string, Value)>,
                 a: Component, b: Component)
    requires ComponentOf(encode, p) == Some(a) && ComponentOf(encode, q) == Some(b)
    ensures Kept(encode, [p, q] + rest) == [a, b] + Kept(encode, rest)
  {
    assert ([p, q] + rest)[1..] == [q] + rest && ([q] + rest)[1..] == rest;
  }

  ghost predicate KeyOrderIsHidden(le: Order<string>, encode: string -> string, packages: seq<(string, Value)>) {
    forall t :: multiset(t) == multiset(packages) ==> Components(le, encode, t) == Components(le, encode, packages)
  }

  lemma TiedComponentsShow(le: Order<string>, encode: string -> string, packages: seq<(string, Value)>,
                           a: Component, b: Component)
    requires TotalPreorder(le) && a in Kept(encode, packages) && b in Kept(encode, packages) && a != b
    requires ByPurlThenPath(le)(a, b) && ByPurlThenPath(le)(b, a)
    ensures !KeyOrderIsHidden(le, encode, packages)
  {
    var i := EntryOfComponent(encode, packages, a);
    var j := EntryOfComponent(encode, packages, b);
    var p, q := packages[i], packages[j];
    var rest := Rest(packages, p, q);
    KeptPair(encode, p, q, rest, a, b);
    KeptPair(encode, q, p, rest, b, a);
    PurlOrderIsAPreorder(le);
    PairShowsTheOrder(ByPurlThenPath(le), a, b, Kept(encode, rest));
    SwappedHead(rest, p, q);
    TwoLocksDiffer(le, encode, packages, [p, q] + rest, [q, p] + rest);
  }

  lemma TwoLocksDiffer(le: Order<string>, encode: string -> string, packages: seq<(string, Value)>,
                       s: seq<(string, Value)>, t: seq<(string, Value)>)
    requires multiset(s) == multiset(packages) == multiset(t)
    requires Components(le, encode, s) != Components(le, encode, t)
    ensures !KeyOrderIsHidden(le, encode, packages)
  {
  }

  /** And exactly then. */
  lemma ComponentsHideOrderExactlyWithoutTies(le: Order<string>, encode: string -> string,
                                              packages: seq<(string, Value)>)
    requires TotalPreorder(le)
    ensures KeyOrderIsHidden(le, encode, packages) <==> NoTies(ByPurlThenPath(le), Kept(encode, packages))
  {
    var order, kept := ByPurlThenPath(le), Kept(encode, packages);
    if NoTies(order, kept) {
      forall t | multiset(t) == multiset(packages)
        ensures Components(le, encode, t) == Components(le, encode, packages)
      {
        ComponentsIgnoreOrder(le, encode, packages, t);
      }
    } else {
      var a, b :| a in kept && b in kept && order(a, b) && order(b, a) && a != b;
      TiedComponentsShow(le, encode, packages, a, b);
    }
  }

  /** Which holds when the collation tells the package keys apart: they are names of one object. */
  lemma ComponentsDoNotTie(le: Order<string>, encode: string -> string, packages: seq<(string, Value)>)
    requires Distinct(Keys(packages)) && NoTies(le, Keys(packages))
    ensures NoTies(ByPurlThenPath(le), Kept(encode, packages))
  {
    var order := ByPurlThenPath(le);
    forall a, b | a in Kept(encode, packages) && b in Kept(encode, packages) && order(a, b) && order(b, a)
      ensures a == b
    {
      var i := EntryOfComponent(encode, packages, a);
      var j := EntryOfComponent(encode, packages, b);
      assert Keys(packages)[i] == a.path && Keys(packages)[j] == b.path;
      assert i == j;
    }
  }
}
