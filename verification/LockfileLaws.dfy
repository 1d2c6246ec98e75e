/** What the components of a package lock say of its entries. */
module LockfileLaws {
  import opened Wrappers
  import opened Text
  import opened Sorting
  import opened Json
  import opened Lockfile

  // Names

  /** The name behind the last "node_modules/" of a path. */
  ghost predicate NamedByPath(path: string, name: string) {
    !Contains(name, "node_modules/") && exists above: string :: path == above + "node_modules/" + name
  }

  lemma {:induction false} ContainsLater(s: string, t: string, k: nat)
    requires k <= |s| && Contains(s[k..], t)
    ensures Contains(s, t)
  {
    if k == 0 {
      assert s[0..] == s;
    } else {
      assert s[1..][k - 1..] == s[k..];
      ContainsLater(s[1..], t, k - 1);
    }
  }

  lemma {:induction false} NoNameNoMarker(path: string)
    ensures PackageNameFromPath(path).None? ==> !Contains(path, "node_modules/")
  {
    if path != "" {
      NoNameNoMarker(path[1..]);
    }
  }

  lemma {:induction false} FoundBehindMarker(path: string)
    ensures PackageNameFromPath(path).Some? ==> NamedByPath(path, PackageNameFromPath(path).value)
  {
    if path != "" && PackageNameFromPath(path).Some? {
      FoundBehindMarker(path[1..]);
      var name := PackageNameFromPath(path).value;
      if PackageNameFromPath(path[1..]).Some? {
        var above :| path[1..] == above + "node_modules/" + name;
        assert path == ([path[0]] + above) + "node_modules/" + name;
      } else {
        NoNameNoMarker(path[1..]);
        assert path == "" + "node_modules/" + name;
        if Contains(name, "node_modules/") {
          assert path[1..][12..] == name;
          ContainsLater(path[1..], "node_modules/", 12);
        }
      }
    }
  }

  /** The marker does not begin again inside itself: it has one 'n'. */
  lemma {:induction false} NoMarkerInside(path: string, k: nat, name: string)
    requires 1 <= k <= 13 && path == "node_modules/"[k..] + name && !Contains(name, "node_modules/")
    ensures !Contains(path, "node_modules/")
    decreases 13 - k
  {
    if k == 13 {
      assert path == name;
    } else {
      assert path[0] == "node_modules/"[k] != 'n';
      assert path[1..] == "node_modules/"[k + 1..] + name;
      NoMarkerInside(path[1..], k + 1, name);
    }
  }

  lemma {:induction false} NoMarkerNoName(path: string)
    requires !Contains(path, "node_modules/")
    ensures PackageNameFromPath(path).None?
  {
    if path != "" {
      NoMarkerNoName(path[1..]);
    }
  }

  lemma {:induction false} MarkerIsFound(above: string, name: string)
    requires !Contains(name, "node_modules/")
    ensures PackageNameFromPath(above + "node_modules/" + name) == Some(name)
  {
    var path := above + "node_modules/" + name;
    if above == "" {
      assert path[1..] == "node_modules/"[1..] + name;
      NoMarkerInside(path[1..], 1, name);
      NoMarkerNoName(path[1..]);
      assert path[..13] == "node_modules/" && path[13..] == name;
    } else {
      assert path[1..] == above[1..] + "node_modules/" + name;
      MarkerIsFound(above[1..], name);
    }
  }

  lemma NameIsBehindTheLastMarker(path: string, name: string)
    ensures PackageNameFromPath(path) == Some(name) <==> NamedByPath(path, name)
  {
    FoundBehindMarker(path);
    if NamedByPath(path, name) {
      var above :| path == above + "node_modules/" + name;
      MarkerIsFound(above, name);
    }
  }

  // Package URLs

  /** A scope keeps its slash; each part is encoded on its own. */
  ghost predicate EncodesScoped(encode: string -> string, name: string, text: string) {
    exists parts: seq<string>, encoded: seq<string> ::
      && Join(parts, "/") == name && (forall i :: 0 <= i < |parts| ==> '/' !in parts[i])
      && |encoded| == |parts| && (forall i :: 0 <= i < |parts| ==> encoded[i] == encode(parts[i]))
      && text == "%40" + Join(encoded, "/")
  }

  ghost predicate EncodesName(encode: string -> string, name: string, text: string) {
    if name != "" && name[0] == '@' then EncodesScoped(encode, name[1..], text) else text == encode(name)
  }

  ghost predicate IsPurl(encode: string -> string, name: string, version: string, purl: string) {
    exists text: string :: EncodesName(encode, name, text) && purl == "pkg:npm/" + text + "@" + encode(version)
  }

  lemma {:induction false} EncodePartsAt(encode: string -> string, parts: seq<string>)
    ensures |EncodeParts(encode, parts)| == |parts|
    ensures forall i :: 0 <= i < |parts| ==> EncodeParts(encode, parts)[i] == encode(parts[i])
  {
    if parts != [] {
      EncodePartsAt(encode, parts[1..]);
    }
  }

  lemma PurlOf(encode: string -> string, name: string, version: string)
    ensures EncodesName(encode, name, EncodePurl(encode, name))
    ensures IsPurl(encode, name, version, "pkg:npm/" + EncodePurl(encode, name) + "@" + encode(version))
  {
    if StartsWith(name, "@") {
      var parts := SplitOn(name[1..], '/');
      EncodePartsAt(encode, parts);
      JoinSplit(name[1..], '/');
      assert EncodesScoped(encode, name[1..], EncodePurl(encode, name));
    }
  }

  // Components

  /** What a lock entry has to hold to be a component, and what that component says. */
  ghost predicate Gives(encode: string -> string, entry: (string, Value), c: Component) {
    var (path, value) := entry;
    && path != "" && c.path == path
    && Get(value, "version") == Str(c.version)
    && c.name != ""
    && (if Get(value, "name").Str? then Get(value, "name") == Str(c.name) else NamedByPath(path, c.name))
    && (if Get(value, "license").Str? then c.license == Some(Get(value, "license").s) else c.license == None)
  }

  lemma ComponentIsGiven(encode: string -> string, entry: (string, Value), c: Component)
    ensures ComponentOf(encode, entry) == Some(c)
        ==> Gives(encode, entry, c) && IsPurl(encode, c.name, c.version, c.purl)
    ensures Gives(encode, entry, c) ==> ComponentOf(encode, entry).Some?
  {
    NameIsBehindTheLastMarker(entry.0, c.name);
    PurlOf(encode, c.name, c.version);
  }

  /** The kept components come from the entries at `p`, in order, and no other entry gives one. */
  ghost predicate ComeFrom(encode: string -> string, packages: seq<(string, Value)>, kept: seq<Component>,
                           p: seq<nat>) {
    && |p| == |kept| && (forall i, j :: 0 <= i < j < |p| ==> p[i] < p[j])
    && (forall k :: 0 <= k < |p| ==> p[k] < |packages| && StandsFor(encode, packages[p[k]], kept[k]))
    && (forall i: nat, c :: i < |packages| && Gives(encode, packages[i], c) ==> i in p)
  }

  lemma {:induction false} KeptComeFrom(encode: string -> string, packages: seq<(string, Value)>) returns (p: seq<nat>)
    ensures ComeFrom(encode, packages, Kept(encode, packages), p)
  {
    if packages == [] {
      p := [];
    } else {
      var q := KeptComeFrom(encode, packages[1..]);
      p := OneMoreEntry(encode, packages, q);
    }
  }

  ghost predicate StandsFor(encode: string -> string, entry: (string, Value), c: Component) {
    Gives(encode, entry, c) && IsPurl(encode, c.name, c.version, c.purl)
  }

  /** Where the `k`th kept component and its entry come from. */
  lemma EntryAt(encode: string -> string, packages: seq<(string, Value)>, q: seq<nat>, k: nat)
    requires packages != [] && |q| == |Kept(encode, packages[1..])|
    requires forall i :: 0 <= i < |q| ==> q[i] < |packages| - 1
    requires k < |Shifted(q, ComponentOf(encode, packages[0]).Some?)|
    ensures var first, kept := ComponentOf(encode, packages[0]), Kept(encode, packages);
            var p, k' := Shifted(q, first.Some?), if first.Some? then k - 1 else k;
            && |kept| == |p| && p[k] < |packages|
            && if k' < 0 then packages[p[k]] == packages[0] && kept[k] == first.value
               else packages[p[k]] == packages[1..][q[k']] && kept[k] == Kept(encode, packages[1..])[k']
  {
    ShiftedAt(q, ComponentOf(encode, packages[0]).Some?, k);
  }

  lemma StandsForTheSame(encode: string -> string, e: (string, Value), c: Component, e': (string, Value), c': Component)
    requires StandsFor(encode, e, c) && e == e' && c == c'
    ensures StandsFor(encode, e', c')
  {
  }

  lemma StandsAt(encode: string -> string, packages: seq<(string, Value)>, q: seq<nat>, k: nat)
    requires packages != [] && ComeFrom(encode, packages[1..], Kept(encode, packages[1..]), q)
    requires k < |Shifted(q, ComponentOf(encode, packages[0]).Some?)|
    ensures var p, kept := Shifted(q, ComponentOf(encode, packages[0]).Some?), Kept(encode, packages);
            |kept| == |p| && p[k] < |packages| && StandsFor(encode, packages[p[k]], kept[k])
  {
    var first, kept := ComponentOf(encode, packages[0]), Kept(encode, packages);
    var p, k' := Shifted(q, first.Some?), if first.Some? then k - 1 else k;
    EntryAt(encode, packages, q, k);
    if k' < 0 {
      ComponentIsGiven(encode, packages[0], first.value);
      StandsForTheSame(encode, packages[0], first.value, packages[p[k]], kept[k]);
    } else {
      StandsForTheSame(encode, packages[1..][q[k']], Kept(encode, packages[1..])[k'], packages[p[k]], kept[k]);
    }
  }

  lemma NoOtherEntry(encode: string -> string, packages: seq<(string, Value)>, q: seq<nat>, i: nat, c: Component)
    requires packages != [] && ComeFrom(encode, packages[1..], Kept(encode, packages[1..]), q)
    requires i < |packages| && Gives(encode, packages[i], c)
    ensures i in Shifted(q, ComponentOf(encode, packages[0]).Some?)
  {
    ShiftedIn(q, ComponentOf(encode, packages[0]).Some?, i);
    if i == 0 {
      ComponentIsGiven(encode, packages[0], c);
    } else {
      assert packages[1..][i - 1] == packages[i];
    }
  }

  lemma OneMoreEntry(encode: string -> string, packages: seq<(string, Value)>, q: seq<nat>) returns (p: seq<nat>)
    requires packages != [] && ComeFrom(encode, packages[1..], Kept(encode, packages[1..]), q)
    ensures ComeFrom(encode, packages, Kept(encode, packages), p)
  {
    var first, kept := ComponentOf(encode, packages[0]).Some?, Kept(encode, packages);
    p := Shifted(q, first);
    forall k | 0 <= k < |p| ensures p[k] < |packages| && StandsFor(encode, packages[p[k]], kept[k]) {
      StandsAt(encode, packages, q, k);
    }
    forall i, j | 0 <= i < j < |p| ensures p[i] < p[j] {
      ShiftedAt(q, first, i);
      ShiftedAt(q, first, j);
    }
    forall i: nat, c | i < |packages| && Gives(encode, packages[i], c) ensures i in p {
      NoOtherEntry(encode, packages, q, i, c);
    }
  }

  /** In ascending order of package URLs, and of paths where these tie. */
  ghost predicate Ascending(le: Order<string>, components: seq<Component>) {
    forall i, j :: 0 <= i < j < |components| ==>
      && le(components[i].purl, components[j].purl)
      && (le(components[j].purl, components[i].purl) ==> le(components[i].path, components[j].path))
  }

  /**
   The components of a lock: one for every entry with a path, a version and a name, its own or that
   behind the last "node_modules/" of its path; each says what its entry says; in ascending order.
   */
  lemma ComponentsAreTheEntries(le: Order<string>, encode: string -> string, packages: seq<(string, Value)>)
    returns (kept: seq<Component>, p: seq<nat>)
    requires TotalPreorder(le)
    ensures ComeFrom(encode, packages, kept, p)
    ensures multiset(Components(le, encode, packages)) == multiset(kept)
    ensures Ascending(le, Components(le, encode, packages))
  {
    kept := Kept(encode, packages);
    p := KeptComeFrom(encode, packages);
    PurlOrderIsAPreorder(le);
    var order, components := ByPurlThenPath(le), Components(le, encode, packages);
    SortBySorts(order, kept);
    forall i, j | 0 <= i < j < |components|
      ensures le(components[i].purl, components[j].purl)
      ensures le(components[j].purl, components[i].purl) ==> le(components[i].path, components[j].path)
    {
      assert order(components[i], components[j]);
    }
  }
}
