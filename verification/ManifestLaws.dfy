/** What the source manifest lists, and that nothing but the tree itself shows in it. */
module ManifestLaws {
  import opened Wrappers
  import opened Text
  import opened Sorting
  import Canonical
  import opened CanonicalLaws
  import opened Attestation
  import opened Manifest

  // Paths

  /** A name as a file system allows it. */
  predicate ProperName(name: string) {
    name != "" && '/' !in name
  }

  ghost predicate ProperTree(children: seq<(string, Node)>)
    decreases children, 1
  {
    Distinct(Keys(children)) && forall i :: 0 <= i < |children| ==> ProperChild(children[i])
  }

  ghost predicate ProperChild(child: (string, Node))
    decreases child, 0
  {
    ProperName(child.0) && (child.1.Dir? ==> ProperTree(child.1.children))
  }

  ghost predicate ProperPath(path: seq<string>) {
    forall i :: 0 <= i < |path| ==> ProperName(path[i])
  }

  function Rel(path: seq<string>): string {
    Join(path, "/")
  }

  lemma {:induction false} JoinAppend(path: seq<string>, name: string)
    requires ProperPath(path)
    ensures Rel(path + [name]) == PathOf(Rel(path), name)
    ensures path != [] ==> Rel(path) != ""
  {
    if path == [] {
      assert path + [name] == [name];
    } else if |path| == 1 {
      assert (path + [name])[1..] == [name];
      assert ProperName(path[0]) && Join([name], "/") == name;
    } else {
      assert (path + [name])[1..] == path[1..] + [name];
      JoinAppend(path[1..], name);
    }
  }

  lemma RelSplits(path: seq<string>)
    requires ProperPath(path) && path != []
    ensures SplitOn(Rel(path), '/') == path
  {
    SplitJoin(path, '/');
  }

  lemma RelIsInjective(a: seq<string>, b: seq<string>)
    requires ProperPath(a) && ProperPath(b) && a != [] && b != [] && Rel(a) == Rel(b)
    ensures a == b
  {
    RelSplits(a);
    RelSplits(b);
  }

  // What is at a path, and whether the walk gets there

  /** The file, link or directory at a path. */
  function At(children: seq<(string, Node)>, path: seq<string>): Option<Node>
    decreases path
  {
    if path == [] then None
    else match ChildNamed(children, path[0])
      case None => None
      case Some(node) =>
        if |path| == 1 then Some(node)
        else if node.Dir? then At(node.children, path[1..])
        else None
  }

  function ChildNamed(children: seq<(string, Node)>, name: string): (r: Option<Node>)
    ensures r.Some? ==> (name, r.value) in children
    ensures r.None? ==> name !in Keys(children)
  {
    if children == [] then None
    else if children[0].0 == name then Some(children[0].1)
    else
      assert Keys(children) == [children[0].0] + Keys(children[1..]);
      ChildNamed(children[1..], name)
  }

  lemma OneChildPerName(children: seq<(string, Node)>, child: (string, Node))
    requires Distinct(Keys(children)) && child in children
    ensures ChildNamed(children, child.0) == Some(child.1)
  {
    var i :| 0 <= i < |children| && children[i] == child;
    assert Keys(children)[i] == child.0;
    var r := ChildNamed(children, child.0);
    var j :| 0 <= j < |children| && children[j] == (child.0, r.value);
    assert Keys(children)[j] == child.0;
  }

  /** No step of the path below `above` is excluded. */
  ghost predicate Reached(above: seq<string>, path: seq<string>) {
    forall k :: 0 <= k < |path| ==> !StepExcluded(above, path, k)
  }

  predicate StepExcluded(above: seq<string>, path: seq<string>, k: nat)
    requires k < |path|
  {
    Excluded(Rel(above + path[..k + 1]), path[k])
  }

  lemma ReachedStep(above: seq<string>, path: seq<string>)
    requires path != []
    ensures Reached(above, path) <==>
            !Excluded(Rel(above + [path[0]]), path[0]) && Reached(above + [path[0]], path[1..])
  {
    var rest, first := path[1..], above + [path[0]];
    assert path[..1] == [path[0]];
    forall k | 0 <= k < |rest| ensures StepExcluded(first, rest, k) == StepExcluded(above, path, k + 1) {
      assert above + path[..k + 2] == first + rest[..k + 1];
    }
    if Reached(above, path) {
      assert !StepExcluded(above, path, 0);
      forall k | 0 <= k < |rest| ensures !StepExcluded(first, rest, k) {
        assert !StepExcluded(above, path, k + 1);
      }
    }
    if !Excluded(Rel(above + [path[0]]), path[0]) && Reached(first, rest) {
      forall k | 0 <= k < |path| ensures !StepExcluded(above, path, k) {
        if k > 0 { assert !StepExcluded(first, rest, k - 1); }
      }
    }
  }

  /** `e` is the entry of the file or link at `path`, and the walk gets there. */
  ghost predicate Lists(hash: string -> string, above: seq<string>, children: seq<(string, Node)>, path: seq<string>,
                        e: Entry) {
    && At(children, path).Some?
    && LeafEntry(hash, Rel(above + path), At(children, path).value) == [e]
    && Reached(above, path)
  }

  lemma {:induction false} FlattenHas(listings: seq<(string, seq<Entry>)>, e: Entry)
    ensures e in Flatten(listings) <==> exists i :: 0 <= i < |listings| && e in listings[i].1
  {
    if listings != [] {
      FlattenHas(listings[1..], e);
      if e in Flatten(listings[1..]) {
        var i :| 0 <= i < |listings[1..]| && e in listings[1..][i].1;
        assert e in listings[i + 1].1;
      }
      forall i | 0 <= i < |listings| && e in listings[i].1 ensures e in Flatten(listings) {
        if i > 0 { assert e in listings[1..][i - 1].1; }
      }
    }
  }

  lemma ListingHas(le: Order<string>, hash: string -> string, prefix: string, children: seq<(string, Node)>, e: Entry)
    ensures e in Listing(le, hash, prefix, children) <==>
            exists child :: child in children && e in ChildListing(le, hash, prefix, child)
  {
    var sorted := SortBy(ByKey<Node>(le), children);
    var listings := SortedListings(le, hash, prefix, children, sorted);
    FlattenHas(listings, e);
    if e in Flatten(listings) {
      var i :| 0 <= i < |listings| && e in listings[i].1;
      assert sorted[i] in children && listings[i] == (sorted[i].0, ChildListing(le, hash, prefix, sorted[i]));
    }
    if child :| child in children && e in ChildListing(le, hash, prefix, child) {
      assert child in sorted;
      var i :| 0 <= i < |sorted| && sorted[i] == child;
      assert listings[i] == (sorted[i].0, ChildListing(le, hash, prefix, sorted[i]));
    }
  }

  lemma ThroughDirectory(hash: string -> string, above: seq<string>, children: seq<(string, Node)>,
                         child: (string, Node), rest: seq<string>, e: Entry)
    requires Distinct(Keys(children)) && child in children && child.1.Dir? && rest != []
    ensures Lists(hash, above, children, [child.0] + rest, e) <==>
            !Excluded(Rel(above + [child.0]), child.0) && Lists(hash, above + [child.0], child.1.children, rest, e)
  {
    var path := [child.0] + rest;
    OneChildPerName(children, child);
    assert path[1..] == rest && above + path == above + [child.0] + rest;
    ReachedStep(above, path);
  }

  lemma ToLeaf(hash: string -> string, above: seq<string>, children: seq<(string, Node)>, child: (string, Node),
               e: Entry)
    requires Distinct(Keys(children)) && child in children
    ensures Lists(hash, above, children, [child.0], e) <==>
            !Excluded(Rel(above + [child.0]), child.0) && LeafEntry(hash, Rel(above + [child.0]), child.1) == [e]
  {
    var path := [child.0];
    OneChildPerName(children, child);
    assert path[1..] == [];
    ReachedStep(above, path);
  }

  lemma NotThroughLeaf(hash: string -> string, above: seq<string>, children: seq<(string, Node)>,
                       child: (string, Node), path: seq<string>, e: Entry)
    requires Distinct(Keys(children)) && child in children && !child.1.Dir?
    requires path != [] && path[0] == child.0 && Lists(hash, above, children, path, e)
    ensures path == [child.0]
  {
    OneChildPerName(children, child);
  }

  ghost predicate ListedThrough(hash: string -> string, above: seq<string>, children: seq<(string, Node)>,
                                name: string, e: Entry) {
    exists path :: ProperPath(path) && path != [] && path[0] == name && Lists(hash, above, children, path, e)
  }

  ghost predicate ListedBelow(hash: string -> string, above: seq<string>, children: seq<(string, Node)>, e: Entry) {
    exists path :: ProperPath(path) && path != [] && Lists(hash, above, children, path, e)
  }

  /** The entry is listed below one child exactly when a path through that child lists it. */
  lemma {:induction false} ChildListsPaths(le: Order<string>, hash: string -> string, above: seq<string>,
                                           children: seq<(string, Node)>, child: (string, Node), e: Entry)
    requires ProperTree(children) && ProperPath(above) && child in children
    ensures e in ChildListing(le, hash, Rel(above), child) <==> ListedThrough(hash, above, children, child.0, e)
    decreases child, 0
  {
    var i :| 0 <= i < |children| && children[i] == child;
    assert ProperChild(children[i]);
    JoinAppend(above, child.0);
    if child.1.Dir? {
      ListsPaths(le, hash, above + [child.0], child.1.children, e);
      DirectoryPaths(hash, above, children, child, e);
    } else {
      ToLeaf(hash, above, children, child, e);
      if ListedThrough(hash, above, children, child.0, e) {
        var path :| ProperPath(path) && path != [] && path[0] == child.0 && Lists(hash, above, children, path, e);
        NotThroughLeaf(hash, above, children, child, path, e);
      }
      if Lists(hash, above, children, [child.0], e) {
        var path := [child.0];
        assert ProperPath(path) && path[0] == child.0;
      }
    }
  }

  lemma DirectoryPaths(hash: string -> string, above: seq<string>, children: seq<(string, Node)>,
                       child: (string, Node), e: Entry)
    requires Distinct(Keys(children)) && child in children && child.1.Dir? && ProperName(child.0)
    ensures ListedThrough(hash, above, children, child.0, e) <==>
            !Excluded(Rel(above + [child.0]), child.0) && ListedBelow(hash, above + [child.0], child.1.children, e)
  {
    ToLeaf(hash, above, children, child, e);
    if ListedThrough(hash, above, children, child.0, e) {
      var path :| ProperPath(path) && path != [] && path[0] == child.0 && Lists(hash, above, children, path, e);
      assert |path| == 1 ==> path == [child.0];
      var rest := path[1..];
      assert path == [child.0] + rest;
      ThroughDirectory(hash, above, children, child, rest, e);
      assert ProperPath(rest) && Lists(hash, above + [child.0], child.1.children, rest, e);
    }
    if !Excluded(Rel(above + [child.0]), child.0) && ListedBelow(hash, above + [child.0], child.1.children, e) {
      var rest :| ProperPath(rest) && rest != [] && Lists(hash, above + [child.0], child.1.children, rest, e);
      ThroughDirectory(hash, above, children, child, rest, e);
      var path := [child.0] + rest;
      assert ProperPath(path) && path[0] == child.0 && Lists(hash, above, children, path, e);
    }
  }

  /** A file or link is listed exactly when neither it nor any directory above it is excluded. */
  lemma {:induction false} ListsPaths(le: Order<string>, hash: string -> string, above: seq<string>,
                                      children: seq<(string, Node)>, e: Entry)
    requires ProperTree(children) && ProperPath(above)
    ensures e in Listing(le, hash, Rel(above), children) <==> ListedBelow(hash, above, children, e)
    decreases children, 1
  {
    ListingHas(le, hash, Rel(above), children, e);
    if e in Listing(le, hash, Rel(above), children) {
      var child :| child in children && e in ChildListing(le, hash, Rel(above), child);
      ChildListsPaths(le, hash, above, children, child, e);
    }
    if path :| ProperPath(path) && path != [] && Lists(hash, above, children, path, e) {
      var child := (path[0], ChildNamed(children, path[0]).value);
      assert child in children;
      ChildListsPaths(le, hash, above, children, child, e);
    }
  }

  // Each path once

  function Paths(entries: seq<Entry>): (r: seq<string>)
    ensures |r| == |entries| && forall i :: 0 <= i < |r| ==> r[i] == entries[i].path
  {
    seq(|entries|, i requires 0 <= i < |entries| => entries[i].path)
  }

  ghost predicate Apart(a: seq<Entry>, b: seq<Entry>) {
    forall x, y :: x in a && y in b ==> x.path != y.path
  }

  lemma {:induction false} FlattenDistinct(listings: seq<(string, seq<Entry>)>)
    requires forall i :: 0 <= i < |listings| ==> Distinct(Paths(listings[i].1))
    requires forall i, j :: 0 <= i < j < |listings| ==> Apart(listings[i].1, listings[j].1)
    ensures Distinct(Paths(Flatten(listings)))
  {
    if listings != [] {
      var first, rest := listings[0].1, Flatten(listings[1..]);
      FlattenDistinct(listings[1..]);
      forall y | y in rest ensures forall x :: x in first ==> x.path != y.path {
        FlattenHas(listings[1..], y);
        var j :| 0 <= j < |listings[1..]| && y in listings[1..][j].1;
        assert Apart(listings[0].1, listings[j + 1].1);
      }
      ConcatDistinct(first, rest);
    }
  }

  lemma ConcatDistinct(a: seq<Entry>, b: seq<Entry>)
    requires Distinct(Paths(a)) && Distinct(Paths(b)) && Apart(a, b)
    ensures Distinct(Paths(a + b))
  {
    var s := a + b;
    forall i, j | 0 <= i < j < |s| ensures Paths(s)[i] != Paths(s)[j] {
      if j < |a| {
        assert Paths(a)[i] != Paths(a)[j];
      } else if i >= |a| {
        assert Paths(b)[i - |a|] != Paths(b)[j - |a|];
      } else {
        assert s[i] in a && s[j] in b;
      }
    }
  }

  lemma ChildrenApart(le: Order<string>, hash: string -> string, above: seq<string>, children: seq<(string, Node)>,
                      a: (string, Node), b: (string, Node))
    requires ProperTree(children) && ProperPath(above) && a in children && b in children && a.0 != b.0
    ensures Apart(ChildListing(le, hash, Rel(above), a), ChildListing(le, hash, Rel(above), b))
  {
    forall x, y | x in ChildListing(le, hash, Rel(above), a) && y in ChildListing(le, hash, Rel(above), b)
      ensures x.path != y.path
    {
      ChildListsPaths(le, hash, above, children, a, x);
      ChildListsPaths(le, hash, above, children, b, y);
      var p :| ProperPath(p) && p != [] && p[0] == a.0 && Lists(hash, above, children, p, x);
      var q :| ProperPath(q) && q != [] && q[0] == b.0 && Lists(hash, above, children, q, y);
      ListedPath(hash, above, children, p, x);
      ListedPath(hash, above, children, q, y);
      assert (above + p)[|above|] == p[0] && (above + q)[|above|] == q[0];
      if x.path == y.path {
        RelIsInjective(above + p, above + q);
      }
    }
  }

  lemma ListedPath(hash: string -> string, above: seq<string>, children: seq<(string, Node)>, path: seq<string>,
                   e: Entry)
    requires Lists(hash, above, children, path, e)
    ensures e.path == Rel(above + path)
  {
    assert LeafEntry(hash, Rel(above + path), At(children, path).value)[0] == e;
  }

  /** The manifest lists no path twice. */
  lemma {:induction false} ListsEachPathOnce(le: Order<string>, hash: string -> string, above: seq<string>,
                                             children: seq<(string, Node)>)
    requires ProperTree(children) && ProperPath(above)
    ensures Distinct(Paths(Listing(le, hash, Rel(above), children)))
    decreases children, 1
  {
    var sorted := SortBy(ByKey<Node>(le), children);
    var listings := SortedListings(le, hash, Rel(above), children, sorted);
    Canonical.DistinctIsInherited(children, sorted);
    forall i | 0 <= i < |listings| ensures Distinct(Paths(listings[i].1)) {
      assert sorted[i] in children;
      assert listings[i] == (sorted[i].0, ChildListing(le, hash, Rel(above), sorted[i]));
      ChildListsOnce(le, hash, above, children, sorted[i]);
    }
    forall i, j | 0 <= i < j < |listings| ensures Apart(listings[i].1, listings[j].1) {
      assert sorted[i] in children && sorted[j] in children;
      assert Keys(sorted)[i] != Keys(sorted)[j];
      assert listings[i] == (sorted[i].0, ChildListing(le, hash, Rel(above), sorted[i]));
      assert listings[j] == (sorted[j].0, ChildListing(le, hash, Rel(above), sorted[j]));
      ChildrenApart(le, hash, above, children, sorted[i], sorted[j]);
    }
    FlattenDistinct(listings);
  }

  lemma {:induction false} ChildListsOnce(le: Order<string>, hash: string -> string, above: seq<string>,
                                          children: seq<(string, Node)>, child: (string, Node))
    requires ProperTree(children) && ProperPath(above) && child in children
    ensures Distinct(Paths(ChildListing(le, hash, Rel(above), child)))
    decreases child, 0
  {
    var i :| 0 <= i < |children| && children[i] == child;
    assert ProperName(child.0);
    JoinAppend(above, child.0);
    if child.1.Dir? {
      ListsEachPathOnce(le, hash, above + [child.0], child.1.children);
    }
  }

  // Pruning

  /**
   For the rules on path segments, pruning a directory is the same as testing the leaf: some step
   of the path is excluded by them exactly when the whole path is.
   */
  lemma SegmentRulesPrune(path: seq<string>)
    ensures (exists k :: 0 < k <= |path| && ExcludedBySegment(path[..k])) <==> ExcludedBySegment(path)
  {
    assert path[..|path|] == path;
    if ExcludedBySegment(path) {
      assert 0 < |path|;
    }
    if k :| 0 < k <= |path| && ExcludedBySegment(path[..k]) {
      if i :| 0 <= i < k && path[..k][i] in EXCLUDED_SEGMENTS {
        assert path[i] in EXCLUDED_SEGMENTS;
      }
    }
  }

  /** The walk gets to a path exactly when the path passes the segment rules and each name the others. */
  lemma ReachedExactlyWhenUnexcluded(path: seq<string>)
    requires ProperPath(path) && path != []
    ensures Reached([], path) <==>
            !ExcludedBySegment(path) && forall k :: 0 <= k < |path| ==> !ExcludedByName(path[k])
  {
    forall k | 0 <= k < |path|
      ensures StepExcluded([], path, k) <==> ExcludedBySegment(path[..k + 1]) || ExcludedByName(path[k])
    {
      assert [] + path[..k + 1] == path[..k + 1];
      RelSplits(path[..k + 1]);
    }
    SegmentRulesPrune(path);
    if Reached([], path) {
      forall k | 0 <= k < |path| ensures !ExcludedByName(path[k]) {
        assert !StepExcluded([], path, k);
      }
      assert !StepExcluded([], path, |path| - 1);
      assert path[..|path|] == path;
    }
    if !ExcludedBySegment(path) && forall k :: 0 <= k < |path| ==> !ExcludedByName(path[k]) {
      forall k | 0 <= k < |path| ensures !StepExcluded([], path, k) {
        assert !ExcludedBySegment(path[..k + 1]);
      }
    }
  }

  /** The whole manifest: an entry is in it exactly when an unexcluded path of the tree has it. */
  lemma ManifestListsExactly(le: Order<string>, hash: string -> string, root: seq<(string, Node)>, e: Entry)
    requires ProperTree(root)
    ensures e in Listing(le, hash, "", root) <==>
            exists path :: ProperPath(path) && path != [] && InManifest(hash, root, path, e)
    ensures Distinct(Paths(Listing(le, hash, "", root)))
  {
    ListsPaths(le, hash, [], root, e);
    ListsEachPathOnce(le, hash, [], root);
    forall path | ProperPath(path) && path != []
      ensures Lists(hash, [], root, path, e) <==> InManifest(hash, root, path, e)
    {
      assert [] + path == path;
      ReachedExactlyWhenUnexcluded(path);
    }
  }

  ghost predicate InManifest(hash: string -> string, root: seq<(string, Node)>, path: seq<string>, e: Entry) {
    && At(root, path).Some?
    && LeafEntry(hash, Rel(path), At(root, path).value) == [e]
    && !ExcludedBySegment(path)
    && forall k :: 0 <= k < |path| ==> !ExcludedByName(path[k])
  }

  // Order

  /** The same directory, its children found in another order at any depth. */
  ghost predicate Shuffled(a: seq<(string, Node)>, b: seq<(string, Node)>)
    decreases a, 1
  {
    && Distinct(Keys(a)) && Distinct(Keys(b))
    && (forall name :: name in Keys(a) <==> name in Keys(b))
    && (forall i, j :: 0 <= i < |a| && 0 <= j < |b| && a[i].0 == b[j].0 ==> ShuffledChild(a[i], b[j]))
  }

  ghost predicate ShuffledChild(a: (string, Node), b: (string, Node))
    decreases a, 0
  {
    if a.1.Dir? then b.1.Dir? && Shuffled(a.1.children, b.1.children) else a == b
  }

  /** The collation distinguishes the names of every directory. */
  ghost predicate NamesDiffer(le: Order<string>, children: seq<(string, Node)>)
    decreases children, 1
  {
    NoTies(le, Keys(children)) && forall i :: 0 <= i < |children| ==> NamesDifferBelow(le, children[i])
  }

  ghost predicate NamesDifferBelow(le: Order<string>, child: (string, Node))
    decreases child, 0
  {
    child.1.Dir? ==> NamesDiffer(le, child.1.children)
  }

  /** The order in which directories are read does not show in the manifest. */
  lemma {:induction false} ListingIgnoresOrder(le: Order<string>, hash: string -> string, prefix: string,
                                               a: seq<(string, Node)>, b: seq<(string, Node)>)
    requires TotalPreorder(le) && Shuffled(a, b) && NamesDiffer(le, a)
    ensures Listing(le, hash, prefix, a) == Listing(le, hash, prefix, b)
    decreases a, 1
  {
    var s, t := Listings(le, hash, prefix, a), Listings(le, hash, prefix, b);
    assert Keys(s) == Keys(a) && Keys(t) == Keys(b);
    forall i, j | 0 <= i < |a| && 0 <= j < |b| && a[i].0 == b[j].0 ensures s[i] == t[j] {
      ListingAt(le, hash, prefix, a, i);
      ListingAt(le, hash, prefix, b, j);
      ChildListingIgnoresOrder(le, hash, prefix, a[i], b[j]);
    }
    MatchedByName(a, b, s, t);
    SameEntriesSortAlike(le, s, t);
  }

  lemma {:induction false} ChildListingIgnoresOrder(le: Order<string>, hash: string -> string, prefix: string,
                                                    a: (string, Node), b: (string, Node))
    requires TotalPreorder(le) && a.0 == b.0 && ShuffledChild(a, b) && NamesDifferBelow(le, a)
    ensures ChildListing(le, hash, prefix, a) == ChildListing(le, hash, prefix, b)
    decreases a, 0
  {
    if a.1.Dir? {
      ListingIgnoresOrder(le, hash, PathOf(prefix, a.0), a.1.children, b.1.children);
    }
  }

  // Even where names tie, the entries are the same

  function Bag(listing: (string, seq<Entry>)): (string, multiset<Entry>) {
    (listing.0, multiset(listing.1))
  }

  ghost function Total(bags: seq<(string, multiset<Entry>)>): multiset<Entry> {
    if bags == [] then multiset{} else bags[0].1 + Total(bags[1..])
  }

  lemma {:induction false} FlattenTotals(listings: seq<(string, seq<Entry>)>)
    ensures multiset(Flatten(listings)) == Total(MapSeq(Bag, listings))
  {
    if listings != [] {
      FlattenTotals(listings[1..]);
      assert MapSeq(Bag, listings)[1..] == MapSeq(Bag, listings[1..]);
    }
  }

  lemma {:induction false} TotalWithout(bags: seq<(string, multiset<Entry>)>, j: nat)
    requires j < |bags|
    ensures Total(bags) == bags[j].1 + Total(Without(bags, j))
  {
    if j == 0 {
      assert Without(bags, 0) == bags[1..];
    } else {
      TotalWithout(bags[1..], j - 1);
      var rest := Without(bags, j);
      assert rest[0] == bags[0] && rest[1..] == Without(bags[1..], j - 1);
    }
  }

  lemma {:induction false} TotalPermutes(a: seq<(string, multiset<Entry>)>, b: seq<(string, multiset<Entry>)>)
    requires multiset(a) == multiset(b)
    ensures Total(a) == Total(b)
    decreases |a|
  {
    if a == [] {
      MembersOfPermutation(a, b);
    } else {
      var j := HeadRemoved(a, b);
      TotalPermutes(a[1..], Without(b, j));
      TotalWithout(b, j);
    }
  }

  lemma ListingTotals(le: Order<string>, hash: string -> string, prefix: string, children: seq<(string, Node)>)
    ensures multiset(Listing(le, hash, prefix, children)) == Total(MapSeq(Bag, Listings(le, hash, prefix, children)))
  {
    var listings := Listings(le, hash, prefix, children);
    var sorted := SortBy(ByKey<seq<Entry>>(le), listings);
    FlattenTotals(sorted);
    MapPermutes(Bag, sorted, listings);
    TotalPermutes(MapSeq(Bag, sorted), MapSeq(Bag, listings));
  }

  /** Whatever the collation does, shuffled directories list the same entries. */
  lemma {:induction false} EntriesIgnoreOrder(le: Order<string>, hash: string -> string, prefix: string,
                                              a: seq<(string, Node)>, b: seq<(string, Node)>)
    requires Shuffled(a, b)
    ensures multiset(Listing(le, hash, prefix, a)) == multiset(Listing(le, hash, prefix, b))
    decreases a, 1
  {
    var s, t := MapSeq(Bag, Listings(le, hash, prefix, a)), MapSeq(Bag, Listings(le, hash, prefix, b));
    forall i, j | 0 <= i < |a| && 0 <= j < |b| && a[i].0 == b[j].0 ensures s[i] == t[j] {
      ListingAt(le, hash, prefix, a, i);
      ListingAt(le, hash, prefix, b, j);
      ChildEntriesIgnoreOrder(le, hash, prefix, a[i], b[j]);
    }
    MatchedByName(a, b, s, t);
    ListingTotals(le, hash, prefix, a);
    ListingTotals(le, hash, prefix, b);
    TotalPermutes(s, t);
  }

  lemma {:induction false} ChildEntriesIgnoreOrder(le: Order<string>, hash: string -> string, prefix: string,
                                                   a: (string, Node), b: (string, Node))
    requires a.0 == b.0 && ShuffledChild(a, b)
    ensures multiset(ChildListing(le, hash, prefix, a)) == multiset(ChildListing(le, hash, prefix, b))
    decreases a, 0
  {
    if a.1.Dir? {
      EntriesIgnoreOrder(le, hash, PathOf(prefix, a.0), a.1.children, b.1.children);
    }
  }

  lemma MatchedByName<V>(a: seq<(string, Node)>, b: seq<(string, Node)>, s: seq<(string, V)>, t: seq<(string, V)>)
    requires Distinct(Keys(a)) && Distinct(Keys(b)) && forall name :: name in Keys(a) <==> name in Keys(b)
    requires Keys(s) == Keys(a) && Keys(t) == Keys(b)
    requires forall i, j :: 0 <= i < |a| && 0 <= j < |b| && a[i].0 == b[j].0 ==> s[i] == t[j]
    ensures multiset(s) == multiset(t)
  {
    forall x ensures x in s <==> x in t {
      if x in s {
        var i :| 0 <= i < |s| && s[i] == x;
        assert Keys(a)[i] in Keys(b);
        var j :| 0 <= j < |b| && Keys(b)[j] == Keys(a)[i];
      }
      if x in t {
        var j :| 0 <= j < |t| && t[j] == x;
        assert Keys(b)[j] in Keys(a);
        var i :| 0 <= i < |a| && Keys(a)[i] == Keys(b)[j];
      }
    }
    SameElementsOnce(s, t);
  }

  // The aggregate digest

  /** The text the aggregate digest is taken of. */
  function AggregateText(entries: seq<Entry>): string {
    if entries == [] then "" else entries[0].sha256 + "  " + entries[0].path + "\n" + AggregateText(entries[1..])
  }

  ghost predicate Digested(entries: seq<Entry>) {
    forall i :: 0 <= i < |entries| ==> IsDigest(entries[i].sha256)
  }

  /** Somewhere behind a line break the path goes on like a line of the aggregate text. */
  ghost predicate HidesALine(path: string) {
    exists i :: HidesALineAt(path, i)
  }

  predicate HidesALineAt(path: string, i: int) {
    0 <= i && i + 67 <= |path| && path[i] == '\n' && IsDigest(path[i + 1..i + 65]) && path[i + 65..i + 67] == "  "
  }

  ghost predicate HidesNoLine(entries: seq<Entry>) {
    forall i :: 0 <= i < |entries| ==> !HidesALine(entries[i].path)
  }

  /** Equal lines, as far as the aggregate text shows them. */
  ghost predicate SameLines(a: seq<Entry>, b: seq<Entry>) {
    |a| == |b| && forall i :: 0 <= i < |a| ==> a[i].sha256 == b[i].sha256 && a[i].path == b[i].path
  }

  lemma AggregateStep(entries: seq<Entry>)
    requires entries != [] && IsDigest(entries[0].sha256)
    ensures |AggregateText(entries)| >= 67
    ensures AggregateText(entries)[..66] == entries[0].sha256 + "  "
    ensures AggregateText(entries)[66..] == entries[0].path + "\n" + AggregateText(entries[1..])
  {
    var d, path, rest := entries[0].sha256, entries[0].path, AggregateText(entries[1..]);
    assert AggregateText(entries) == (d + "  ") + (path + "\n" + rest);
  }

  lemma NonEmptyText(entries: seq<Entry>)
    requires Digested(entries)
    ensures AggregateText(entries) == "" <==> entries == []
  {
    if entries != [] {
      AggregateStep(entries);
    }
  }

  /** Of two ways to break one text after a line, the later one has the earlier break inside its line. */
  lemma LaterBreak(a: string, rest: string, b: string, rest': string)
    requires a + "\n" + rest == b + "\n" + rest' && |a| < |b|
    ensures b[|a|] == '\n' && rest == b[|a| + 1..] + "\n" + rest'
  {
    var text := a + "\n" + rest;
    assert text[|a|] == '\n' && text[|a| + 1..] == rest;
    assert (b + "\n" + rest')[|a| + 1..] == b[|a| + 1..] + "\n" + rest';
  }

  lemma HeaderAhead(line: string, rest: string, text: string)
    requires text == line + "\n" + rest && |text| >= 66 && forall k :: 0 <= k < 66 ==> text[k] != '\n'
    ensures |line| >= 66 && line[..66] == text[..66]
  {
    assert text[|line|] == '\n';
  }

  lemma HeaderHasNoBreak(digest: string)
    requires IsDigest(digest)
    ensures forall k :: 0 <= k < 66 ==> (digest + "  ")[k] != '\n'
  {
  }

  lemma HiddenAt(path: string, i: nat, digest: string)
    requires IsDigest(digest) && i < |path| && path[i] == '\n'
    requires |path[i + 1..]| >= 66 && path[i + 1..][..66] == digest + "  "
    ensures HidesALineAt(path, i)
  {
    assert path[i + 1..i + 65] == path[i + 1..][..66][..64] == digest;
    assert path[i + 65..i + 67] == path[i + 1..][..66][64..] == "  ";
  }

  /** A path that ends later than another in the same text hides the line that follows the other. */
  lemma LongerPathHides(a: seq<Entry>, b: seq<Entry>)
    requires a != [] && b != [] && Digested(a) && Digested(b) && AggregateText(a) == AggregateText(b)
    requires |a[0].path| < |b[0].path|
    ensures HidesALineAt(b[0].path, |a[0].path|)
  {
    AggregateStep(a);
    AggregateStep(b);
    var n, path, rest := |a[0].path|, b[0].path, AggregateText(a[1..]);
    LaterBreak(a[0].path, rest, path, AggregateText(b[1..]));
    NonEmptyText(a[1..]);
    AggregateStep(a[1..]);
    HeaderHasNoBreak(a[1].sha256);
    assert forall k :: 0 <= k < 66 ==> rest[k] == rest[..66][k];
    HeaderAhead(path[n + 1..], AggregateText(b[1..]), rest);
    HiddenAt(path, n, a[1].sha256);
  }

  lemma EvenPathsAgree(a: seq<Entry>, b: seq<Entry>)
    requires a != [] && b != [] && Digested(a) && Digested(b) && AggregateText(a) == AggregateText(b)
    requires |a[0].path| == |b[0].path|
    ensures a[0].sha256 == b[0].sha256 && a[0].path == b[0].path && AggregateText(a[1..]) == AggregateText(b[1..])
  {
    AggregateStep(a);
    AggregateStep(b);
    assert (a[0].sha256 + "  ")[..64] == a[0].sha256 && (b[0].sha256 + "  ")[..64] == b[0].sha256;
    SameBreak(a[0].path, AggregateText(a[1..]), b[0].path, AggregateText(b[1..]));
  }

  lemma SameBreak(a: string, rest: string, b: string, rest': string)
    requires a + "\n" + rest == b + "\n" + rest' && |a| == |b|
    ensures a == b && rest == rest'
  {
    assert (a + "\n" + rest)[..|a|] == a && (a + "\n" + rest)[|a| + 1..] == rest;
    assert (b + "\n" + rest')[..|a|] == b && (b + "\n" + rest')[|a| + 1..] == rest';
  }

  /**
   The aggregate text can be read back, digests and paths in order, as long as no path hides a line.
   */
  lemma {:induction false} AggregateIsDecodable(a: seq<Entry>, b: seq<Entry>)
    requires Digested(a) && Digested(b) && HidesNoLine(a) && HidesNoLine(b)
    requires AggregateText(a) == AggregateText(b)
    ensures SameLines(a, b)
    decreases |a|
  {
    if a != [] && b != [] {
      if |a[0].path| < |b[0].path| {
        LongerPathHides(a, b);
      } else if |b[0].path| < |a[0].path| {
        LongerPathHides(b, a);
      }
      EvenPathsAgree(a, b);
      AggregateIsDecodable(a[1..], b[1..]);
      assert forall i :: 0 < i < |a| ==> a[i] == a[1..][i - 1] && b[i] == b[1..][i - 1];
    } else if a != [] {
      AggregateStep(a);
    } else if b != [] {
      AggregateStep(b);
    }
  }

  ghost predicate OnlyReading(e: Entry) {
    forall f :: Digested(f) && AggregateText(f) == AggregateText([e]) ==> SameLines(f, [e])
  }

  /** The text of one entry is the text of no other list exactly when the entry's path hides no line. */
  lemma EntryReadsBackExactlyWhenItHidesNoLine(e: Entry)
    requires IsDigest(e.sha256)
    ensures OnlyReading(e) <==> !HidesALine(e.path)
  {
    if i :| HidesALineAt(e.path, i) {
      HiddenLineCollides(e, i);
    } else {
      forall f | Digested(f) && AggregateText(f) == AggregateText([e]) ensures SameLines(f, [e]) {
        OneEntryReadsBack(e, f);
      }
    }
  }

  lemma LaterPathEnds(a: seq<Entry>, b: seq<Entry>)
    requires |a| == 1 && b != [] && Digested(a) && Digested(b) && AggregateText(a) == AggregateText(b)
    ensures |b[0].path| <= |a[0].path|
  {
    AggregateStep(a);
    AggregateStep(b);
  }

  lemma OneEntryReadsBack(e: Entry, f: seq<Entry>)
    requires IsDigest(e.sha256) && !HidesALine(e.path) && Digested(f) && AggregateText(f) == AggregateText([e])
    ensures SameLines(f, [e])
  {
    NonEmptyText(f);
    NonEmptyText([e]);
    LaterPathEnds([e], f);
    if |f[0].path| < |e.path| {
      LongerPathHides(f, [e]);
    }
    EvenPathsAgree(f, [e]);
    NonEmptyText(f[1..]);
  }

  /** An entry that hides a line shares its text with the two entries its path can be read as. */
  lemma HiddenLineCollides(e: Entry, i: nat)
    requires IsDigest(e.sha256) && HidesALineAt(e.path, i)
    ensures var x, y := e.(path := e.path[..i]), e.(sha256 := e.path[i + 1..i + 65], path := e.path[i + 67..]);
            Digested([x, y]) && AggregateText([x, y]) == AggregateText([e])
  {
    var d, path := e.sha256, e.path;
    var x, y := e.(path := path[..i]), e.(sha256 := path[i + 1..i + 65], path := path[i + 67..]);
    assert [x, y][1..] == [y];
    assert AggregateText([y]) == y.sha256 + "  " + y.path + "\n" + "";
    assert path == path[..i] + "\n" + y.sha256 + "  " + y.path;
    assert AggregateText([e]) == d + "  " + path + "\n" + "";
    assert AggregateText([x, y]) == d + "  " + path[..i] + "\n" + (y.sha256 + "  " + y.path + "\n" + "");
  }
}
