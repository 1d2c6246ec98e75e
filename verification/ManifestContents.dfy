/** What a manifest says of a source tree: which files are in it, in which order, and what is recorded of each. */
module ManifestContents {
  import opened Wrappers
  import opened Text
  import opened Sorting
  import opened Manifest
  import opened ManifestLaws
  import Canonical

  // What is left out

  /** Directories of the version control, of dependencies and of builds. */
  predicate IsDerived(segment: string) {
    || segment == ".git" || segment == "node_modules" || segment == "dist" || segment == "build"
    || segment == "coverage" || segment == "out" || segment == "target" || segment == "release"
    || segment == "release-metadata" || segment == ".cache" || segment == ".arena" || segment == ".next"
    || segment == ".vite" || segment == ".turbo" || segment == ".pytest_cache" || segment == "__pycache__"
  }

  ghost predicate HasEnding(name: string, ending: string) {
    exists stem: string :: name == stem + ending
  }

  /** Names of files that hold secrets or build state. */
  ghost predicate IsPrivate(name: string) {
    || name == ".netrc" || name == ".npmrc" || name == "auth.json" || name == "secrets.json" || name == "sessions.enc"
    || name == ".env" || (name != ".env.example" && exists rest: string :: name == ".env." + rest)
    || HasEnding(name, ".tsbuildinfo") || HasEnding(name, ".pem") || HasEnding(name, ".key")
  }

  /** Something on the path is derived or private, or it starts at the top-level `var`. */
  ghost predicate LeftOut(path: seq<string>) {
    || (path != [] && path[0] == "var")
    || (exists k :: 0 <= k < |path| && (IsDerived(path[k]) || IsPrivate(path[k])))
  }

  lemma EndingIs(name: string, ending: string)
    ensures EndsWith(name, ending) <==> HasEnding(name, ending)
  {
    if EndsWith(name, ending) {
      assert name == name[..|name| - |ending|] + ending;
    }
    if HasEnding(name, ending) {
      var stem :| name == stem + ending;
      assert name[|stem|..] == ending;
    }
  }

  lemma BeginningIs(name: string, beginning: string)
    ensures StartsWith(name, beginning) <==> exists rest: string :: name == beginning + rest
  {
    if StartsWith(name, beginning) {
      assert name == beginning + name[|beginning|..];
    }
    if rest: string :| name == beginning + rest {
      assert name[..|beginning|] == beginning;
    }
  }

  lemma PrivateNames(name: string)
    ensures ExcludedByName(name) <==> IsPrivate(name)
  {
    BeginningIs(name, ".env.");
    EndingIs(name, ".tsbuildinfo");
    EndingIs(name, ".pem");
    EndingIs(name, ".key");
  }

  lemma LeftOutExactly(path: seq<string>)
    requires ProperPath(path) && path != []
    ensures Reached([], path) <==> !LeftOut(path)
  {
    ReachedExactlyWhenUnexcluded(path);
    forall k | 0 <= k < |path| ensures ExcludedByName(path[k]) <==> IsPrivate(path[k]) {
      PrivateNames(path[k]);
    }
    DerivedSegments(path);
  }

  lemma DerivedSegments(path: seq<string>)
    ensures ExcludedBySegment(path) <==>
            (path != [] && path[0] == "var") || exists k :: 0 <= k < |path| && IsDerived(path[k])
  {
    forall k | 0 <= k < |path| ensures path[k] in EXCLUDED_SEGMENTS <==> IsDerived(path[k]) {
    }
  }

  // What is recorded

  /** The entry of what stands at a path: a file's size, digest and permissions, a link's target. */
  ghost predicate Records(hash: string -> string, path: seq<string>, node: Node, e: Entry) {
    && e.path == Join(path, "/")
    && match node
       case File(content, mode) =>
         && e.kind == RegularFile && e.linkTarget == None
         && e.bytes == |content| && e.sha256 == hash(content) && e.mode == mode % 512
       case Symlink(target, mode) =>
         && e.kind == SymbolicLink && e.linkTarget == Some(target)
         && e.bytes == ByteLength(target) && e.sha256 == hash(target) && e.mode == mode % 512
       case _ => false
  }

  ghost predicate IsRecorded(hash: string -> string, root: seq<(string, Node)>, path: seq<string>, e: Entry) {
    && ProperPath(path) && path != [] && !LeftOut(path)
    && At(root, path).Some? && Records(hash, path, At(root, path).value, e)
  }

  /** A manifest entry is the record of a file or link of the tree whose path is not left out, and each such has one. */
  lemma ManifestRecordsTheTree(le: Order<string>, hash: string -> string, root: seq<(string, Node)>, e: Entry)
    requires ProperTree(root)
    ensures e in Listing(le, hash, "", root) <==> exists path :: IsRecorded(hash, root, path, e)
  {
    ManifestListsExactly(le, hash, root, e);
    forall path | ProperPath(path) && path != []
      ensures InManifest(hash, root, path, e) <==> IsRecorded(hash, root, path, e)
    {
      LeftOutExactly(path);
      ReachedExactlyWhenUnexcluded(path);
    }
  }

  // The order

  /** Where the paths part, the names are in ascending order. */
  ghost predicate Before(le: Order<string>, p: seq<string>, q: seq<string>) {
    exists k: nat :: k < |p| && k < |q| && p[..k] == q[..k] && p[k] != q[k] && le(p[k], q[k])
  }

  ghost predicate InOrder(le: Order<string>, above: seq<string>, x: Entry, y: Entry) {
    exists p, q ::
      && ProperPath(p) && ProperPath(q) && x.path == Rel(above + p) && y.path == Rel(above + q) && Before(le, p, q)
  }

  ghost predicate AllInOrder(le: Order<string>, above: seq<string>, entries: seq<Entry>) {
    forall i, j :: 0 <= i < j < |entries| ==> InOrder(le, above, entries[i], entries[j])
  }

  ghost predicate EachBefore(le: Order<string>, above: seq<string>, a: seq<Entry>, b: seq<Entry>) {
    forall x, y :: x in a && y in b ==> InOrder(le, above, x, y)
  }

  lemma JoinInOrder(le: Order<string>, above: seq<string>, a: seq<Entry>, b: seq<Entry>)
    requires AllInOrder(le, above, a) && AllInOrder(le, above, b) && EachBefore(le, above, a, b)
    ensures AllInOrder(le, above, a + b)
  {
    var s := a + b;
    forall i, j | 0 <= i < j < |s| ensures InOrder(le, above, s[i], s[j]) {
      if i < |a| <= j {
        assert s[i] in a && s[j] in b;
      } else if i >= |a| {
        assert s[i] == b[i - |a|] && s[j] == b[j - |a|];
      }
    }
  }

  lemma {:induction false} FlattenInOrder(le: Order<string>, above: seq<string>, listings: seq<(string, seq<Entry>)>)
    requires forall i :: 0 <= i < |listings| ==> AllInOrder(le, above, listings[i].1)
    requires forall i, j :: 0 <= i < j < |listings| ==> EachBefore(le, above, listings[i].1, listings[j].1)
    ensures AllInOrder(le, above, Flatten(listings))
  {
    if listings != [] {
      var rest := Flatten(listings[1..]);
      FlattenInOrder(le, above, listings[1..]);
      forall x, y | x in listings[0].1 && y in rest ensures InOrder(le, above, x, y) {
        FlattenHas(listings[1..], y);
        var j :| 0 <= j < |listings[1..]| && y in listings[1..][j].1;
        assert EachBefore(le, above, listings[0].1, listings[j + 1].1);
      }
      JoinInOrder(le, above, listings[0].1, rest);
    }
  }

  lemma DeeperInOrder(le: Order<string>, above: seq<string>, name: string, x: Entry, y: Entry)
    requires ProperName(name) && InOrder(le, above + [name], x, y)
    ensures InOrder(le, above, x, y)
  {
    var p, q :| ProperPath(p) && ProperPath(q) && x.path == Rel(above + [name] + p) && y.path == Rel(above + [name] + q)
                && Before(le, p, q);
    Associative(above, [name], p);
    Associative(above, [name], q);
    BeforeBehind(le, name, p, q);
    assert ProperPath([name] + p) && ProperPath([name] + q);
  }

  lemma BeforeBehind(le: Order<string>, name: string, p: seq<string>, q: seq<string>)
    requires Before(le, p, q)
    ensures Before(le, [name] + p, [name] + q)
  {
    var k: nat :| k < |p| && k < |q| && p[..k] == q[..k] && p[k] != q[k] && le(p[k], q[k]);
    var p', q' := [name] + p, [name] + q;
    assert p'[..k + 1] == [name] + p[..k] && q'[..k + 1] == [name] + q[..k];
    assert p'[k + 1] == p[k] && q'[k + 1] == q[k];
  }

  lemma ChildrenInOrder(le: Order<string>, hash: string -> string, above: seq<string>, children: seq<(string, Node)>,
                        a: (string, Node), b: (string, Node))
    requires ProperTree(children) && ProperPath(above) && a in children && b in children && a.0 != b.0 && le(a.0, b.0)
    ensures EachBefore(le, above, ChildListing(le, hash, Rel(above), a), ChildListing(le, hash, Rel(above), b))
  {
    forall x, y | x in ChildListing(le, hash, Rel(above), a) && y in ChildListing(le, hash, Rel(above), b)
      ensures InOrder(le, above, x, y)
    {
      ChildListsPaths(le, hash, above, children, a, x);
      ChildListsPaths(le, hash, above, children, b, y);
      var p :| ProperPath(p) && p != [] && p[0] == a.0 && Lists(hash, above, children, p, x);
      var q :| ProperPath(q) && q != [] && q[0] == b.0 && Lists(hash, above, children, q, y);
      ListedPath(hash, above, children, p, x);
      ListedPath(hash, above, children, q, y);
      assert p[..0] == q[..0];
      assert Before(le, p, q);
    }
  }

  lemma {:induction false} ChildInOrder(le: Order<string>, hash: string -> string, above: seq<string>,
                                        child: (string, Node))
    requires TotalPreorder(le) && ProperChild(child) && ProperPath(above)
    ensures AllInOrder(le, above, ChildListing(le, hash, Rel(above), child))
    decreases child, 0
  {
    if child.1.Dir? {
      JoinAppend(above, child.0);
      ListingInOrder(le, hash, above + [child.0], child.1.children);
      var entries := Listing(le, hash, Rel(above + [child.0]), child.1.children);
      forall i, j | 0 <= i < j < |entries| ensures InOrder(le, above, entries[i], entries[j]) {
        DeeperInOrder(le, above, child.0, entries[i], entries[j]);
      }
    }
  }

  /** The manifest takes every directory in ascending order of names. */
  lemma {:induction false} ListingInOrder(le: Order<string>, hash: string -> string, above: seq<string>,
                                          children: seq<(string, Node)>)
    requires TotalPreorder(le) && ProperTree(children) && ProperPath(above)
    ensures AllInOrder(le, above, Listing(le, hash, Rel(above), children))
    decreases children, 1
  {
    var sorted := SortBy(ByKey<Node>(le), children);
    var listings := SortedListings(le, hash, Rel(above), children, sorted);
    forall i | 0 <= i < |listings| ensures AllInOrder(le, above, listings[i].1) {
      assert sorted[i] in children;
      var k :| 0 <= k < |children| && children[k] == sorted[i];
      assert ProperChild(children[k]);
      ChildInOrder(le, hash, above, children[k]);
    }
    SortedNames(le, children);
    forall i, j | 0 <= i < j < |listings| ensures EachBefore(le, above, listings[i].1, listings[j].1) {
      assert sorted[i] in children && sorted[j] in children;
      ChildrenInOrder(le, hash, above, children, sorted[i], sorted[j]);
    }
    FlattenInOrder(le, above, listings);
  }

  lemma SortedNames(le: Order<string>, children: seq<(string, Node)>)
    requires TotalPreorder(le) && Distinct(Keys(children))
    ensures var sorted := SortBy(ByKey<Node>(le), children);
            forall i, j :: 0 <= i < j < |sorted| ==> sorted[i].0 != sorted[j].0 && le(sorted[i].0, sorted[j].0)
  {
    var sorted := SortBy(ByKey<Node>(le), children);
    ByKeyIsAPreorder<Node>(le);
    SortBySorts(ByKey<Node>(le), children);
    Canonical.DistinctIsInherited(children, sorted);
    forall i, j | 0 <= i < j < |sorted| ensures sorted[i].0 != sorted[j].0 && le(sorted[i].0, sorted[j].0) {
      assert ByKey<Node>(le)(sorted[i], sorted[j]);
      assert Keys(sorted)[i] != Keys(sorted)[j];
    }
  }

  /** So of two entries of a manifest the earlier has the smaller name where their paths part. */
  lemma ManifestInOrder(le: Order<string>, hash: string -> string, root: seq<(string, Node)>)
    requires TotalPreorder(le) && ProperTree(root)
    ensures AllInOrder(le, [], Listing(le, hash, "", root))
  {
    ListingInOrder(le, hash, [], root);
  }
}
