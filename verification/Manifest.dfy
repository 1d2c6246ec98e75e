/** `buildSourceManifest`: a sorted walk of the source tree that prunes excluded names. */
module Manifest {
  import opened Wrappers
  import opened Text
  import opened Sorting

  /**
   What `lstat` finds.  A file's content has one character a byte; `Other` is neither file,
   directory nor symbolic link.
   */
  datatype Node =
    | Dir(children: seq<(string, Node)>)
    | File(content: string, mode: nat)
    | Symlink(target: string, mode: nat)
    | Other

  datatype Kind = RegularFile | SymbolicLink

  datatype Entry = Entry(path: string, kind: Kind, bytes: nat, sha256: string, mode: nat, linkTarget: Option<string>)

  const LIMIT := 100_000

  // Exclusion

  const EXCLUDED_SEGMENTS: set<string> := {
    ".git", "node_modules", "dist", "build", "coverage", "out", "target", "release", "release-metadata",
    ".cache", ".arena", ".next", ".vite", ".turbo", ".pytest_cache", "__pycache__"
  }

  const SENSITIVE_NAMES: set<string> := {".netrc", ".npmrc", "auth.json", "secrets.json", "sessions.enc"}

  /** The rules that look at the whole path. */
  predicate ExcludedBySegment(segments: seq<string>) {
    (exists i :: 0 <= i < |segments| && segments[i] in EXCLUDED_SEGMENTS) || (segments != [] && segments[0] == "var")
  }

  /** The rules that look at the last name only. */
  predicate ExcludedByName(name: string) {
    || name in SENSITIVE_NAMES
    || name == ".env" || (StartsWith(name, ".env.") && name != ".env.example")
    || EndsWith(name, ".tsbuildinfo") || EndsWith(name, ".pem") || EndsWith(name, ".key")
  }

  predicate Excluded(rel: string, name: string) {
    ExcludedBySegment(SplitOn(rel, '/')) || ExcludedByName(name)
  }

  // The walk

  function PathOf(prefix: string, name: string): string {
    if prefix == "" then name else prefix + "/" + name
  }

  function LeafEntry(hash: string -> string, path: string, node: Node): seq<Entry> {
    match node
    case File(content, mode) => [Entry(path, RegularFile, |content|, hash(content), mode % 512, None)]
    case Symlink(target, mode) => [Entry(path, SymbolicLink, ByteLength(target), hash(target), mode % 512,
                                         Some(target))]
    case _ => []
  }

  /** The entries of one child: none if it is excluded, all of a directory's, or its own. */
  function ChildListing(le: Order<string>, hash: string -> string, prefix: string, child: (string, Node)): seq<Entry>
    decreases child, 0
  {
    var path := PathOf(prefix, child.0);
    if Excluded(path, child.0) then []
    else NodeListing(le, hash, path, child.1)
  }

  function NodeListing(le: Order<string>, hash: string -> string, path: string, node: Node): seq<Entry>
    decreases node, 1
  {
    if node.Dir? then Listing(le, hash, path, node.children) else LeafEntry(hash, path, node)
  }

  function Listings(le: Order<string>, hash: string -> string, prefix: string, children: seq<(string, Node)>)
    : (r: seq<(string, seq<Entry>)>)
    ensures |r| == |children| && forall i :: 0 <= i < |r| ==> r[i].0 == children[i].0
    decreases children, 0
  {
    if children == [] then []
    else [(children[0].0, ChildListing(le, hash, prefix, children[0]))] + Listings(le, hash, prefix, children[1..])
  }

  function Flatten(listings: seq<(string, seq<Entry>)>): seq<Entry> {
    if listings == [] then [] else listings[0].1 + Flatten(listings[1..])
  }

  /** All entries below a directory: each child's, the children taken in the order of their names. */
  function Listing(le: Order<string>, hash: string -> string, prefix: string, children: seq<(string, Node)>): seq<Entry>
    decreases children, 1
  {
    Flatten(SortBy(ByKey<seq<Entry>>(le), Listings(le, hash, prefix, children)))
  }

  lemma {:induction false} ListingAt(le: Order<string>, hash: string -> string, prefix: string,
                                     children: seq<(string, Node)>, i: nat)
    requires i < |children|
    ensures Listings(le, hash, prefix, children)[i] == (children[i].0, ChildListing(le, hash, prefix, children[i]))
    decreases i
  {
    ListingsStep(le, hash, prefix, children);
    if i > 0 {
      ListingAt(le, hash, prefix, children[1..], i - 1);
      SameListing(le, hash, prefix, children[1..][i - 1], children[i]);
    }
  }

  lemma SameListing(le: Order<string>, hash: string -> string, prefix: string, a: (string, Node), b: (string, Node))
    requires a == b
    ensures ChildListing(le, hash, prefix, a) == ChildListing(le, hash, prefix, b)
  {
  }

  lemma ListingsStep(le: Order<string>, hash: string -> string, prefix: string, children: seq<(string, Node)>)
    requires children != []
    ensures Listings(le, hash, prefix, children)
         == [(children[0].0, ChildListing(le, hash, prefix, children[0]))] + Listings(le, hash, prefix, children[1..])
  {
  }

  /** Listing the sorted children is sorting the listings. */
  ghost predicate ListedEach(le: Order<string>, hash: string -> string, prefix: string,
                             listings: seq<(string, seq<Entry>)>, children: seq<(string, Node)>) {
    && |listings| == |children|
    && forall i :: 0 <= i < |children| ==> listings[i] == (children[i].0, ChildListing(le, hash, prefix, children[i]))
  }

  lemma {:induction false} InsertLists(le: Order<string>, hash: string -> string, prefix: string,
                                       x: (string, seq<Entry>), y: (string, Node),
                                       s: seq<(string, seq<Entry>)>, t: seq<(string, Node)>)
    requires ListedEach(le, hash, prefix, s, t) && x == (y.0, ChildListing(le, hash, prefix, y))
    ensures ListedEach(le, hash, prefix, Insert(ByKey<seq<Entry>>(le), x, s), Insert(ByKey<Node>(le), y, t))
  {
    if s != [] && !le(x.0, s[0].0) {
      InsertLists(le, hash, prefix, x, y, s[1..], t[1..]);
      ListedHead(le, hash, prefix, s[0], t[0], Insert(ByKey<seq<Entry>>(le), x, s[1..]),
                 Insert(ByKey<Node>(le), y, t[1..]));
    } else {
      ListedHead(le, hash, prefix, x, y, s, t);
    }
  }

  lemma ListedHead(le: Order<string>, hash: string -> string, prefix: string,
                   x: (string, seq<Entry>), y: (string, Node), s: seq<(string, seq<Entry>)>, t: seq<(string, Node)>)
    requires ListedEach(le, hash, prefix, s, t) && x == (y.0, ChildListing(le, hash, prefix, y))
    ensures ListedEach(le, hash, prefix, [x] + s, [y] + t)
  {
  }

  lemma {:induction false} SortLists(le: Order<string>, hash: string -> string, prefix: string,
                                     s: seq<(string, seq<Entry>)>, t: seq<(string, Node)>)
    requires ListedEach(le, hash, prefix, s, t)
    ensures ListedEach(le, hash, prefix, SortBy(ByKey<seq<Entry>>(le), s), SortBy(ByKey<Node>(le), t))
  {
    if s != [] {
      assert ListedEach(le, hash, prefix, s[1..], t[1..]);
      SortLists(le, hash, prefix, s[1..], t[1..]);
      assert s[0] == (t[0].0, ChildListing(le, hash, prefix, t[0]));
      InsertLists(le, hash, prefix, s[0], t[0], SortBy(ByKey<seq<Entry>>(le), s[1..]), SortBy(ByKey<Node>(le), t[1..]));
    }
  }

  lemma {:induction false} FlattenAppend(a: seq<(string, seq<Entry>)>, b: seq<(string, seq<Entry>)>)
    ensures Flatten(a + b) == Flatten(a) + Flatten(b)
  {
    if a == [] {
      assert a + b == b;
    } else {
      assert (a + b)[1..] == a[1..] + b;
      FlattenAppend(a[1..], b);
    }
  }

  lemma FlattenStep(listings: seq<(string, seq<Entry>)>, i: nat)
    requires i < |listings|
    ensures Flatten(listings[..i + 1]) == Flatten(listings[..i]) + listings[i].1
    ensures |Flatten(listings[..i + 1])| <= |Flatten(listings)|
  {
    assert listings == listings[..i + 1] + listings[i + 1..];
    FlattenAppend(listings[..i + 1], listings[i + 1..]);
    assert listings[..i + 1] == listings[..i] + [listings[i]];
    FlattenAppend(listings[..i], [listings[i]]);
    assert Flatten([listings[i]]) == listings[i].1 + [];
  }

  lemma SortedListings(le: Order<string>, hash: string -> string, prefix: string, directory: seq<(string, Node)>,
                       children: seq<(string, Node)>) returns (listings: seq<(string, seq<Entry>)>)
    requires children == SortBy(ByKey<Node>(le), directory)
    ensures Flatten(listings) == Listing(le, hash, prefix, directory)
    ensures ListedEach(le, hash, prefix, listings, children)
    ensures forall child :: child in children <==> child in directory
  {
    listings := SortBy(ByKey<seq<Entry>>(le), Listings(le, hash, prefix, directory));
    forall i | 0 <= i < |directory| {
      ListingAt(le, hash, prefix, directory, i);
    }
    SortLists(le, hash, prefix, Listings(le, hash, prefix, directory), directory);
    MembersOfPermutation(directory, children);
  }

  /** The recursive walk, pushing onto one shared list. */
  class ManifestBuilder {
    const le: Order<string>
    const hash: string -> string
    var entries: seq<Entry>

    constructor (le: Order<string>, hash: string -> string)
      ensures this.le == le && this.hash == hash && entries == []
    {
      this.le, this.hash, entries := le, hash, [];
    }

    /** Fails exactly when the entries found so far and below `directory` exceed the limit. */
    method Walk(directory: seq<(string, Node)>, prefix: string) returns (ok: bool)
      requires |entries| <= 100_000
      modifies this
      ensures ok ==> entries == old(entries) + Listing(le, hash, prefix, directory)
      ensures ok <==> |old(entries)| + |Listing(le, hash, prefix, directory)| <= 100_000
      decreases directory, 1
    {
      var children := SortBy(ByKey<Node>(le), directory);
      ghost var listings := SortedListings(le, hash, prefix, directory, children);
      assert listings[..0] == [];
      for i := 0 to |children|
        invariant entries == old(entries) + Flatten(listings[..i])
        invariant |entries| <= LIMIT
      {
        FlattenStep(listings, i);
        assert children[i] in directory && listings[i].1 == ChildListing(le, hash, prefix, children[i]);
        ghost var before := entries;
        ok := Visit(children[i], prefix);
        if !ok {
          return;
        }
        assert entries == before + listings[i].1;
        Associative(old(entries), Flatten(listings[..i]), listings[i].1);
      }
      assert listings[..|children|] == listings;
      ok := true;
    }

    /** The body of the loop over a directory's children. */
    method Visit(child: (string, Node), prefix: string) returns (ok: bool)
      requires |entries| <= 100_000
      modifies this
      ensures ok ==> entries == old(entries) + ChildListing(le, hash, prefix, child)
      ensures ok <==> |old(entries)| + |ChildListing(le, hash, prefix, child)| <= 100_000
      decreases child, 0
    {
      var path := PathOf(prefix, child.0);
      if Excluded(path, child.0) {
        return true;
      }
      match child.1 {
        case Dir(children) =>
          ok := Walk(children, path);
          return;
        case Symlink(target, mode) =>
          entries := entries + [Entry(path, SymbolicLink, ByteLength(target), hash(target), mode % 512, Some(target))];
        case File(content, mode) =>
          entries := entries + [Entry(path, RegularFile, |content|, hash(content), mode % 512, None)];
        case Other =>
      }
      ok := |entries| <= LIMIT;
    }
  }
}
