/** A release does not show the order in which its inputs were found. */
module ReleaseOrder {
  import opened Text
  import opened Sorting
  import opened Canonical
  import opened Attestation
  import opened ManifestLaws
  import opened Lockfile
  import opened Release
  import opened ReleaseLines
  import opened ReleaseLaws

  // Order

  /** The same source, lock and artifacts, each found in another order. */
  ghost predicate Reordered(a: Inputs, b: Inputs) {
    && Shuffled(a.root, b.root)
    && multiset(a.packages) == multiset(b.packages)
    && multiset(a.artifacts) == multiset(b.artifacts)
    && a.createdAt == b.createdAt && a.key == b.key && a.render == b.render
  }

  /**
   Nothing a release sorts ties: not the names of one directory, not the components of the lock, and
   not the names of the artifacts, with or without their directory.
   */
  ghost predicate ReleaseNamesApart(p: Platform, a: Inputs) {
    && NamesDiffer(p.le, a.root)
    && NoTies(ByPurlThenPath(p.le), Kept(p.encode, a.packages))
    && NoTies(p.le, Keys(Digests(p.crypto.hash, a.artifacts, "artifacts/")))
    && NoTies(p.le, Keys(Digests(p.crypto.hash, a.artifacts, "")))
  }

  lemma DigestsPermute(hash: string -> string, a: seq<Artifact>, b: seq<Artifact>, prefix: string)
    requires multiset(a) == multiset(b)
    ensures multiset(Digests(hash, a, prefix)) == multiset(Digests(hash, b, prefix))
  {
    var f := (x: Artifact) => (prefix + x.name, hash(x.content));
    MapPermutes(f, a, b);
    assert Digests(hash, a, prefix) == MapSeq(f, a) && Digests(hash, b, prefix) == MapSeq(f, b);
  }

  lemma {:induction false} FileInRelease(out: Directory, artifacts: seq<Artifact>, path: string)
    requires DistinctNames(artifacts)
    ensures path in WithArtifacts(out, artifacts) <==>
            path in out || exists i :: 0 <= i < |artifacts| && path == "artifacts/" + artifacts[i].name
    ensures (forall i :: 0 <= i < |artifacts| ==> path != "artifacts/" + artifacts[i].name) && path in out ==>
            path in WithArtifacts(out, artifacts) && WithArtifacts(out, artifacts)[path] == out[path]
    decreases |artifacts|
  {
    if artifacts != [] {
      var rest := artifacts[1..];
      forall i, j | 0 <= i < j < |rest| ensures rest[i].name != rest[j].name {
        assert artifacts[i + 1].name != artifacts[j + 1].name;
      }
      FileInRelease(out["artifacts/" + artifacts[0].name := artifacts[0].content], rest, path);
      assert forall i :: 1 <= i < |artifacts| ==> artifacts[i] == rest[i - 1];
    }
  }

  lemma ArtifactsIgnoreOrder(out: Directory, a: seq<Artifact>, b: seq<Artifact>)
    requires multiset(a) == multiset(b) && DistinctNames(a) && DistinctNames(b)
    ensures WithArtifacts(out, a) == WithArtifacts(out, b)
  {
    MembersOfPermutation(a, b);
    var x, y := WithArtifacts(out, a), WithArtifacts(out, b);
    DistinctArtifactsAreCopied(out, a);
    DistinctArtifactsAreCopied(out, b);
    forall path ensures path in x <==> path in y {
      FileInRelease(out, a, path);
      FileInRelease(out, b, path);
      NamesIn(a, b, path);
      NamesIn(b, a, path);
    }
    forall path | path in x ensures x[path] == y[path] {
      FileInRelease(out, a, path);
      FileInRelease(out, b, path);
      if i :| 0 <= i < |a| && path == "artifacts/" + a[i].name {
        assert a[i] in b;
        var j :| 0 <= j < |b| && b[j] == a[i];
      } else {
        NamesIn(b, a, path);
      }
    }
  }

  lemma NamesIn(a: seq<Artifact>, b: seq<Artifact>, path: string)
    requires forall x :: x in a ==> x in b
    ensures (exists i :: 0 <= i < |a| && path == "artifacts/" + a[i].name) ==>
            exists j :: 0 <= j < |b| && path == "artifacts/" + b[j].name
  {
    if i :| 0 <= i < |a| && path == "artifacts/" + a[i].name {
      assert a[i] in b;
      var j :| 0 <= j < |b| && b[j] == a[i];
    }
  }

  lemma ManifestIgnoresOrder(p: Platform, a: Inputs, b: Inputs)
    requires TotalPreorder(p.le) && Reordered(a, b) && ReleaseNamesApart(p, a)
    ensures ManifestEntries(p, a) == ManifestEntries(p, b) && Aggregate(p, a) == Aggregate(p, b)
    ensures Components(p.le, p.encode, a.packages) == Components(p.le, p.encode, b.packages)
    ensures ManifestText(p, a) == ManifestText(p, b)
    ensures CycloneText(p, a) == CycloneText(p, b) && SpdxText(p, a) == SpdxText(p, b)
  {
    ListingIgnoresOrder(p.le, p.crypto.hash, "", a.root, b.root);
    ComponentsIgnoreOrder(p.le, p.encode, a.packages, b.packages);
  }

  lemma DigestNamesDiffer(hash: string -> string, artifacts: seq<Artifact>)
    requires DistinctNames(artifacts)
    ensures Distinct(Keys(Digests(hash, artifacts, "")))
  {
    var d := Digests(hash, artifacts, "");
    forall i, j | 0 <= i < j < |d| ensures Keys(d)[i] != Keys(d)[j] {
      assert d[i].0 == artifacts[i].name && d[j].0 == artifacts[j].name;
    }
  }

  /**
   The subjects of the provenance do not show the order of the artifacts; the manifest, pushed last,
   goes behind an artifact of its own name.
   */
  lemma SubjectsIgnoreOrder(p: Platform, a: Inputs, b: Inputs)
    requires TotalPreorder(p.le) && Reordered(a, b) && ReleaseNamesApart(p, a) && DistinctNames(a.artifacts)
    ensures Subjects(p, a) == Subjects(p, b) && ProvenanceText(p, a) == ProvenanceText(p, b)
  {
    ManifestIgnoresOrder(p, a, b);
    var d, e := Digests(p.crypto.hash, a.artifacts, ""), Digests(p.crypto.hash, b.artifacts, "");
    var manifest := (MANIFEST_FILE, p.crypto.hash(ManifestText(p, a)));
    DigestsPermute(p.crypto.hash, a.artifacts, b.artifacts, "");
    DigestNamesDiffer(p.crypto.hash, a.artifacts);
    SameEntriesSortAlike(p.le, d, e);
    ByKeyIsAPreorder<string>(p.le);
    LastSortsBehindItsTies(ByKey<string>(p.le), d, manifest);
    LastSortsBehindItsTies(ByKey<string>(p.le), e, manifest);
  }

  lemma ChecksumsIgnoreOrder(p: Platform, a: Inputs, b: Inputs)
    requires TotalPreorder(p.le) && Reordered(a, b) && ReleaseNamesApart(p, a) && DistinctNames(a.artifacts)
    ensures SortRecord(p.le, Checksums(p, a)) == SortRecord(p.le, Checksums(p, b))
  {
    ManifestIgnoresOrder(p, a, b);
    SubjectsIgnoreOrder(p, a, b);
    var d, e := Digests(p.crypto.hash, a.artifacts, "artifacts/"), Digests(p.crypto.hash, b.artifacts, "artifacts/");
    DigestsPermute(p.crypto.hash, a.artifacts, b.artifacts, "artifacts/");
    ArtifactNamesDiffer(p.crypto.hash, a.artifacts);
    SameEntriesSortAlike(p.le, d, e);
    SortBehind(ByKey<string>(p.le), MetadataChecksums(p, a), d, e);
  }

  /** What comes before a part that is sorted alike is sorted into it alike. */
  lemma {:induction false} SortBehind<T>(le: Order<T>, m: seq<T>, d: seq<T>, e: seq<T>)
    requires SortBy(le, d) == SortBy(le, e)
    ensures SortBy(le, m + d) == SortBy(le, m + e)
  {
    if m == [] {
      assert m + d == d && m + e == e;
    } else {
      SortBehind(le, m[1..], d, e);
      HeadAndRest(m, d);
      HeadAndRest(m, e);
      SortStep(le, m[0], m[1..] + d);
      SortStep(le, m[0], m[1..] + e);
    }
  }

  lemma SortStep<T>(le: Order<T>, x: T, s: seq<T>)
    ensures SortBy(le, [x] + s) == Insert(le, x, SortBy(le, s))
  {
    assert ([x] + s)[1..] == s;
  }

  lemma SigningSorts(le: Order<string>, crypto: Crypto, c: Record, d: Record, key: string, createdAt: string)
    requires SortRecord(le, c) == SortRecord(le, d)
    ensures SignChecksums(le, crypto, c, key, createdAt) == SignChecksums(le, crypto, d, key, createdAt)
  {
  }

  lemma EnvelopeIgnoresOrder(p: Platform, a: Inputs, b: Inputs)
    requires SortRecord(p.le, Checksums(p, a)) == SortRecord(p.le, Checksums(p, b))
    requires a.key == b.key && a.createdAt == b.createdAt
    ensures SignedEnvelope(p, a) == SignedEnvelope(p, b)
  {
    if a.key.Some? {
      SigningSorts(p.le, p.crypto, Checksums(p, a), Checksums(p, b), a.key.value, a.createdAt);
    }
  }

  lemma MetadataFilesIgnoreOrder(p: Platform, a: Inputs, b: Inputs, out: Directory)
    requires TotalPreorder(p.le) && Reordered(a, b) && ReleaseNamesApart(p, a)
    ensures MetadataFiles(p, a, out) == MetadataFiles(p, b, out)
  {
    ManifestIgnoresOrder(p, a, b);
  }

  lemma SamePartsSameFiles(p: Platform, a: Inputs, b: Inputs, out: Directory)
    requires WithArtifacts(MetadataFiles(p, a, out), a.artifacts)
        == WithArtifacts(MetadataFiles(p, b, out), b.artifacts)
    requires ProvenanceText(p, a) == ProvenanceText(p, b) && SignedEnvelope(p, a) == SignedEnvelope(p, b)
    requires SumsText(p.le, Checksums(p, a)) == SumsText(p.le, Checksums(p, b))
    ensures ReleaseFiles(p, a, out) == ReleaseFiles(p, b, out)
  {
  }

  lemma SumsTextSorts(le: Order<string>, c: Record, d: Record)
    requires SortRecord(le, c) == SortRecord(le, d)
    ensures SumsText(le, c) == SumsText(le, d)
  {
  }

  /**
   The order in which directories, the lock and the artifact list are read does not show in a
   release: the same files are written, the signature included.
   */
  lemma ReleaseIgnoresOrder(p: Platform, a: Inputs, b: Inputs, out: Directory)
    requires TotalPreorder(p.le) && Reordered(a, b) && ReleaseNamesApart(p, a) && DistinctNames(a.artifacts)
    ensures SumsText(p.le, Checksums(p, a)) == SumsText(p.le, Checksums(p, b))
    ensures ReleaseFiles(p, a, out) == ReleaseFiles(p, b, out)
  {
    DistinctPermutes(a.artifacts, b.artifacts);
    ArtifactsIgnoreOrder(MetadataFiles(p, a, out), a.artifacts, b.artifacts);
    MetadataFilesIgnoreOrder(p, a, b, out);
    SubjectsIgnoreOrder(p, a, b);
    ChecksumsIgnoreOrder(p, a, b);
    EnvelopeIgnoresOrder(p, a, b);
    SumsTextSorts(p.le, Checksums(p, a), Checksums(p, b));
    SamePartsSameFiles(p, a, b, out);
  }

  lemma SamePartsSameVerdict(p: Platform, a: Inputs, b: Inputs)
    requires |ManifestEntries(p, a)| == |ManifestEntries(p, b)| && a.key == b.key
    requires ArtifactError(a.artifacts, {}).None? <==> ArtifactError(b.artifacts, {}).None?
    requires a.key.Some? ==> (SignedEnvelope(p, a).Some? <==> SignedEnvelope(p, b).Some?)
    ensures ReleaseError(p, a).None? <==> ReleaseError(p, b).None?
  {
  }

  lemma SameLength<T>(a: seq<T>, b: seq<T>)
    requires multiset(a) == multiset(b)
    ensures |a| == |b|
  {
    assert |a| == |multiset(a)| && |b| == |multiset(b)|;
  }

  /** Only the key decides whether there is a signature. */
  lemma KeyDecides(le: Order<string>, crypto: Crypto, c: Record, d: Record, key: string, createdAt: string)
    ensures SignChecksums(le, crypto, c, key, createdAt).Some? <==> SignChecksums(le, crypto, d, key, createdAt).Some?
  {
  }

  /** Whether a release goes through does not depend on any order, whatever ties. */
  lemma ReleaseErrorIgnoresOrder(p: Platform, a: Inputs, b: Inputs)
    requires Reordered(a, b)
    ensures ReleaseError(p, a).None? <==> ReleaseError(p, b).None?
  {
    EntriesIgnoreOrder(p.le, p.crypto.hash, "", a.root, b.root);
    SameLength(ManifestEntries(p, a), ManifestEntries(p, b));
    ArtifactErrorPermutes(a.artifacts, b.artifacts);
    ArtifactErrorPermutes(b.artifacts, a.artifacts);
    if a.key.Some? {
      KeyDecides(p.le, p.crypto, Checksums(p, a), Checksums(p, b), a.key.value, a.createdAt);
    }
    SamePartsSameVerdict(p, a, b);
  }

  lemma ArtifactErrorPermutes(a: seq<Artifact>, b: seq<Artifact>)
    requires multiset(a) == multiset(b)
    ensures ArtifactError(a, {}).None? ==> ArtifactError(b, {}).None?
  {
    NoErrorMeansDistinct(a, {});
    NoErrorMeansDistinct(b, {});
    if ArtifactError(a, {}).None? {
      MembersOfPermutation(a, b);
      DistinctPermutes(a, b);
      RegularPermutes(a, b);
    }
  }

  lemma RegularPermutes(a: seq<Artifact>, b: seq<Artifact>)
    requires forall x :: x in a <==> x in b
    requires forall i :: 0 <= i < |a| ==> a[i].regular
    ensures forall i :: 0 <= i < |b| ==> b[i].regular
  {
    forall i | 0 <= i < |b| ensures b[i].regular {
      assert b[i] in a;
    }
  }

  lemma DistinctPermutes(a: seq<Artifact>, b: seq<Artifact>)
    requires multiset(a) == multiset(b) && DistinctNames(a)
    ensures DistinctNames(b)
  {
    var f := (x: Artifact) => (x.name, x);
    MapPermutes(f, a, b);
    forall i, j | 0 <= i < j < |a| ensures Keys(MapSeq(f, a))[i] != Keys(MapSeq(f, a))[j] {
      assert a[i].name != a[j].name;
    }
    DistinctIsInherited(MapSeq(f, a), MapSeq(f, b));
    forall i, j | 0 <= i < j < |b| ensures b[i].name != b[j].name {
      assert Keys(MapSeq(f, b))[i] != Keys(MapSeq(f, b))[j];
    }
  }

  // Artifacts whose paths tie

  /** The entries of a checksum record that are artifacts. */
  function AmongArtifacts(r: Record): Record {
    if r == [] then []
    else if StartsWith(r[0].0, "artifacts/") then [r[0]] + AmongArtifacts(r[1..])
    else AmongArtifacts(r[1..])
  }

  lemma {:induction false} InsertedMetadata(le: Order<(string, string)>, x: (string, string), s: Record)
    requires !StartsWith(x.0, "artifacts/")
    ensures AmongArtifacts(Insert(le, x, s)) == AmongArtifacts(s)
  {
    if s == [] || le(x, s[0]) {
      assert ([x] + s)[1..] == s;
    } else {
      InsertedMetadata(le, x, s[1..]);
      var more := Insert(le, x, s[1..]);
      assert ([s[0]] + more)[1..] == more;
    }
  }

  lemma {:induction false} AllAreArtifacts(r: Record)
    requires forall e :: e in r ==> StartsWith(e.0, "artifacts/")
    ensures AmongArtifacts(r) == r
  {
    if r != [] {
      assert r[0] in r;
      AllAreArtifacts(r[1..]);
    }
  }

  /** The artifacts of a sorted record are the sorted artifacts. */
  lemma {:induction false} ArtifactsOfSorted(le: Order<(string, string)>, m: Record, d: Record)
    requires forall e :: e in m ==> !StartsWith(e.0, "artifacts/")
    requires forall e :: e in d ==> StartsWith(e.0, "artifacts/")
    ensures AmongArtifacts(SortBy(le, m + d)) == SortBy(le, d)
    decreases |m|
  {
    if m == [] {
      assert m + d == d;
      MembersOfPermutation(d, SortBy(le, d));
      AllAreArtifacts(SortBy(le, d));
    } else {
      assert m[0] in m && (m + d)[1..] == m[1..] + d;
      ArtifactsOfSorted(le, m[1..], d);
      InsertedMetadata(le, m[0], SortBy(le, m[1..] + d));
    }
  }

  lemma ChecksumsTellArtifacts(p: Platform, a: Inputs)
    ensures AmongArtifacts(SortRecord(p.le, Checksums(p, a)))
         == SortRecord(p.le, Digests(p.crypto.hash, a.artifacts, "artifacts/"))
  {
    OutsideArtifacts();
    ArtifactsOfSorted(ByKey<string>(p.le), MetadataChecksums(p, a),
                      Digests(p.crypto.hash, a.artifacts, "artifacts/"));
  }

  ghost predicate PlainEntries(r: Record) {
    forall e :: e in r ==> IsDigest(e.1) && '\n' !in e.0
  }

  lemma PlainMetadata(crypto: Crypto, a: string, b: string, c: string, d: string)
    requires Sound(crypto)
    ensures PlainEntries([(MANIFEST_FILE, crypto.hash(a)), (CYCLONE_FILE, crypto.hash(b)),
                          (SPDX_FILE, crypto.hash(c)), (PROVENANCE_FILE, crypto.hash(d))])
  {
  }

  lemma PlainDigests(crypto: Crypto, artifacts: seq<Artifact>)
    requires Sound(crypto) && forall x :: x in artifacts ==> '\n' !in x.name
    ensures PlainEntries(Digests(crypto.hash, artifacts, "artifacts/"))
  {
    var d := Digests(crypto.hash, artifacts, "artifacts/");
    forall e: (string, string) | e in d ensures IsDigest(e.1) && '\n' !in e.0 {
      var i :| 0 <= i < |d| && d[i] == e;
      assert artifacts[i] in artifacts;
    }
  }

  lemma PlainTogether(m: Record, d: Record)
    requires PlainEntries(m) && PlainEntries(d)
    ensures PlainEntries(m + d)
  {
  }

  lemma UnbrokenChecksums(p: Platform, a: Inputs)
    requires Sound(p.crypto) && forall x :: x in a.artifacts ==> '\n' !in x.name
    ensures PlainEntries(Checksums(p, a))
  {
    PlainMetadata(p.crypto, ManifestText(p, a), CycloneText(p, a), SpdxText(p, a), ProvenanceText(p, a));
    PlainDigests(p.crypto, a.artifacts);
    PlainTogether(MetadataChecksums(p, a), Digests(p.crypto.hash, a.artifacts, "artifacts/"));
  }

  /** The checksum file tells how the artifacts were sorted. */
  lemma SumsTellArtifactOrder(p: Platform, a: Inputs, b: Inputs)
    requires Sound(p.crypto)
    requires forall x :: x in a.artifacts ==> '\n' !in x.name
    requires forall x :: x in b.artifacts ==> '\n' !in x.name
    requires SumsText(p.le, Checksums(p, a)) == SumsText(p.le, Checksums(p, b))
    ensures SortRecord(p.le, Digests(p.crypto.hash, a.artifacts, "artifacts/"))
         == SortRecord(p.le, Digests(p.crypto.hash, b.artifacts, "artifacts/"))
  {
    UnbrokenChecksums(p, a);
    UnbrokenChecksums(p, b);
    SumsTextTellsTheRecord(p.le, Checksums(p, a), Checksums(p, b));
    ChecksumsTellArtifacts(p, a);
    ChecksumsTellArtifacts(p, b);
  }

  lemma DigestsOfPair(hash: string -> string, x: Artifact, y: Artifact, rest: seq<Artifact>)
    ensures Digests(hash, [x, y] + rest, "artifacts/")
         == [("artifacts/" + x.name, hash(x.content)), ("artifacts/" + y.name, hash(y.content))]
            + Digests(hash, rest, "artifacts/")
  {
  }

  /** Two artifacts whose paths tie: listed the other way round, they give another checksum file. */
  lemma TiedArtifactsShow(p: Platform, a: Inputs, x: Artifact, y: Artifact) returns (b: Inputs, c: Inputs)
    requires TotalPreorder(p.le) && Sound(p.crypto) && forall x :: x in a.artifacts ==> '\n' !in x.name
    requires x in a.artifacts && y in a.artifacts && x.name != y.name
    requires p.le("artifacts/" + x.name, "artifacts/" + y.name) && p.le("artifacts/" + y.name, "artifacts/" + x.name)
    ensures b == a.(artifacts := b.artifacts) && multiset(b.artifacts) == multiset(a.artifacts)
    ensures c == a.(artifacts := c.artifacts) && multiset(c.artifacts) == multiset(a.artifacts)
    ensures SumsText(p.le, Checksums(p, b)) != SumsText(p.le, Checksums(p, c))
  {
    var hash := p.crypto.hash;
    var rest := Rest(a.artifacts, x, y);
    SwappedHead(rest, x, y);
    b, c := a.(artifacts := [x, y] + rest), a.(artifacts := [y, x] + rest);
    MembersOfPermutation(a.artifacts, b.artifacts);
    MembersOfPermutation(a.artifacts, c.artifacts);
    var u, v := ("artifacts/" + x.name, hash(x.content)), ("artifacts/" + y.name, hash(y.content));
    assert u.0[10..] == x.name && v.0[10..] == y.name;
    DigestsOfPair(hash, x, y, rest);
    DigestsOfPair(hash, y, x, rest);
    ByKeyIsAPreorder<string>(p.le);
    PairShowsTheOrder(ByKey<string>(p.le), u, v, Digests(hash, rest, "artifacts/"));
    if SumsText(p.le, Checksums(p, b)) == SumsText(p.le, Checksums(p, c)) {
      SumsTellArtifactOrder(p, b, c);
    }
  }
}
