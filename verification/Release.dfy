/**
 `prepareRelease` and `verifyRelease` over an output directory.

 A directory is a map from the relative paths of its files to their contents.
 */
module Release {
  import opened Wrappers
  import opened Text
  import opened Sorting
  import opened Json
  import opened Canonical
  import opened Attestation
  import opened Manifest
  import opened ManifestLaws
  import opened Lockfile

  type Directory = map<string, string>

  const MANIFEST_FILE := "source-manifest.json"
  const CYCLONE_FILE := "sbom.cyclonedx.json"
  const SPDX_FILE := "sbom.spdx.json"
  const PROVENANCE_FILE := "provenance.intoto.jsonl"
  const SUMS_FILE := "SHA256SUMS"
  const ATTESTATION_FILE := "attestation.ed25519.json"

  /** Collation, cryptography and `encodeURIComponent`. */
  datatype Platform = Platform(le: Order<string>, crypto: Crypto, encode: string -> string)

  /** How the metadata documents are laid out, from what they are made of. */
  datatype Renderer = Renderer(
    manifest: (seq<Entry>, string) -> Value,
    cyclone: (seq<Component>, string) -> Value,
    spdx: (seq<Component>, string) -> Value,
    provenance: (Record, string) -> Value
  )

  datatype Artifact = Artifact(name: string, regular: bool, content: string)

  datatype Inputs = Inputs(
    root: seq<(string, Node)>,
    packages: seq<(string, Value)>,
    artifacts: seq<Artifact>,
    createdAt: string,
    key: Option<string>,
    render: Renderer
  )

  datatype PrepareError = ManifestTooLarge | NotRegular(name: string) | DuplicateName(name: string) | BadKey

  datatype Prepared = Prepared(files: seq<string>, checksums: Record, signed: bool)

  // What a release contains

  function JsonFile(v: Value): string {
    Print(v, "  ", "") + "\n"
  }

  function ManifestEntries(p: Platform, inputs: Inputs): seq<Entry> {
    Listing(p.le, p.crypto.hash, "", inputs.root)
  }

  function Aggregate(p: Platform, inputs: Inputs): string {
    p.crypto.hash(AggregateText(ManifestEntries(p, inputs)))
  }

  function ManifestText(p: Platform, inputs: Inputs): string {
    JsonFile(inputs.render.manifest(ManifestEntries(p, inputs), Aggregate(p, inputs)))
  }

  function CycloneText(p: Platform, inputs: Inputs): string {
    JsonFile(inputs.render.cyclone(Components(p.le, p.encode, inputs.packages), Aggregate(p, inputs)))
  }

  function SpdxText(p: Platform, inputs: Inputs): string {
    JsonFile(inputs.render.spdx(Components(p.le, p.encode, inputs.packages), Aggregate(p, inputs)))
  }

  function Digests(hash: string -> string, artifacts: seq<Artifact>, prefix: string): (r: Record)
    ensures |r| == |artifacts|
    ensures forall i :: 0 <= i < |r| ==> r[i] == (prefix + artifacts[i].name, hash(artifacts[i].content))
  {
    seq(|artifacts|, i requires 0 <= i < |artifacts| => (prefix + artifacts[i].name, hash(artifacts[i].content)))
  }

  function Subjects(p: Platform, inputs: Inputs): Record {
    SortBy(ByKey<string>(p.le),
           Digests(p.crypto.hash, inputs.artifacts, "") + [(MANIFEST_FILE, p.crypto.hash(ManifestText(p, inputs)))])
  }

  function ProvenanceText(p: Platform, inputs: Inputs): string {
    CanonicalJson(p.le, inputs.render.provenance(Subjects(p, inputs), Aggregate(p, inputs))) + "\n"
  }

  function MetadataChecksums(p: Platform, inputs: Inputs): Record {
    [(MANIFEST_FILE, p.crypto.hash(ManifestText(p, inputs))),
     (CYCLONE_FILE, p.crypto.hash(CycloneText(p, inputs))),
     (SPDX_FILE, p.crypto.hash(SpdxText(p, inputs))),
     (PROVENANCE_FILE, p.crypto.hash(ProvenanceText(p, inputs)))]
  }

  /** The checksum record: four metadata files, then the artifacts. */
  function Checksums(p: Platform, inputs: Inputs): Record {
    MetadataChecksums(p, inputs) + Digests(p.crypto.hash, inputs.artifacts, "artifacts/")
  }

  function SumLine(entry: (string, string)): string {
    entry.1 + "  " + entry.0
  }

  function SumLines(entries: Record): (r: seq<string>)
    ensures |r| == |entries| && forall i :: 0 <= i < |r| ==> r[i] == SumLine(entries[i])
  {
    seq(|entries|, i requires 0 <= i < |entries| => SumLine(entries[i]))
  }

  function SumsText(le: Order<string>, checksums: Record): string {
    Join(SumLines(SortRecord(le, checksums)), "\n") + "\n"
  }

  function WithArtifacts(out: Directory, artifacts: seq<Artifact>): Directory
    decreases |artifacts|
  {
    if artifacts == [] then out
    else WithArtifacts(out["artifacts/" + artifacts[0].name := artifacts[0].content], artifacts[1..])
  }

  function SignedEnvelope(p: Platform, inputs: Inputs): Option<Value> {
    var key :- inputs.key;
    SignChecksums(p.le, p.crypto, Checksums(p, inputs), key, inputs.createdAt)
  }

  /** What is written after the metadata and the artifacts are in place. */
  function Completed(files: Directory, provenance: string, sums: string, envelope: Option<Value>): Directory {
    var summed := files[PROVENANCE_FILE := provenance][SUMS_FILE := sums];
    match envelope
    case None => summed
    case Some(e) => summed[ATTESTATION_FILE := JsonFile(e)]
  }

  /** The directory after a successful run. */
  function ReleaseFiles(p: Platform, inputs: Inputs, out: Directory): Directory {
    Completed(WithArtifacts(MetadataFiles(p, inputs, out), inputs.artifacts), ProvenanceText(p, inputs),
              SumsText(p.le, Checksums(p, inputs)), SignedEnvelope(p, inputs))
  }

  function MetadataFiles(p: Platform, inputs: Inputs, out: Directory): Directory {
    out[MANIFEST_FILE := ManifestText(p, inputs)]
       [CYCLONE_FILE := CycloneText(p, inputs)]
       [SPDX_FILE := SpdxText(p, inputs)]
  }

  function ArtifactNames(artifacts: seq<Artifact>): (r: seq<string>)
    ensures |r| == |artifacts| && forall i :: 0 <= i < |r| ==> r[i] == artifacts[i].name
  {
    seq(|artifacts|, i requires 0 <= i < |artifacts| => artifacts[i].name)
  }

  function InArtifacts(names: seq<string>): (r: seq<string>)
    ensures |r| == |names| && forall i :: 0 <= i < |r| ==> r[i] == "artifacts/" + names[i]
  {
    seq(|names|, i requires 0 <= i < |names| => "artifacts/" + names[i])
  }

  /** The files a run reports; `unit` is the order of `Array.prototype.sort` without a comparator. */
  function ReportedFiles(unit: Order<string>, artifacts: seq<Artifact>, signed: bool): seq<string> {
    [MANIFEST_FILE, CYCLONE_FILE, SPDX_FILE, PROVENANCE_FILE] + InArtifacts(SortBy(unit, ArtifactNames(artifacts)))
    + [SUMS_FILE] + if signed then [ATTESTATION_FILE] else []
  }

  /** The first artifact that stops a release. */
  function ArtifactError(artifacts: seq<Artifact>, seen: set<string>): Option<PrepareError> {
    if artifacts == [] then None
    else if !artifacts[0].regular then Some(NotRegular(artifacts[0].name))
    else if artifacts[0].name in seen then Some(DuplicateName(artifacts[0].name))
    else ArtifactError(artifacts[1..], seen + {artifacts[0].name})
  }

  function ReleaseError(p: Platform, inputs: Inputs): Option<PrepareError> {
    if |ManifestEntries(p, inputs)| > LIMIT then Some(ManifestTooLarge)
    else
      var error := ArtifactError(inputs.artifacts, {});
      if error.Some? then error
      else if inputs.key.Some? && SignedEnvelope(p, inputs).None? then Some(BadKey)
      else None
  }

  // Preparing

  class OutputDirectory {
    var files: Directory

    constructor (files: Directory)
      ensures this.files == files
    {
      this.files := files;
    }

    /** `copyFile` for each artifact, with its digest for the provenance. */
    method CopyArtifacts(hash: string -> string, artifacts: seq<Artifact>)
      returns (subjects: Record, names: seq<string>, error: Option<PrepareError>)
      modifies this
      ensures error == ArtifactError(artifacts, {})
      ensures error.None? ==> subjects == Digests(hash, artifacts, "") && names == ArtifactNames(artifacts)
      ensures error.None? ==> files == WithArtifacts(old(files), artifacts)
    {
      subjects, names := [], [];
      assert (set name | name in names) == {};
      for i := 0 to |artifacts|
        invariant ArtifactError(artifacts, {}) == ArtifactError(artifacts[i..], set name | name in names)
        invariant names == ArtifactNames(artifacts[..i])
        invariant WithArtifacts(old(files), artifacts) == WithArtifacts(files, artifacts[i..])
        invariant subjects == Digests(hash, artifacts[..i], "")
      {
        assert artifacts[i..][1..] == artifacts[i + 1..];
        var artifact := artifacts[i];
        if !artifact.regular {
          return subjects, names, Some(NotRegular(artifact.name));
        }
        if artifact.name in names {
          return subjects, names, Some(DuplicateName(artifact.name));
        }
        assert (set name | name in names + [artifact.name]) == (set name | name in names) + {artifact.name};
        names := names + [artifact.name];
        assert "" + artifact.name == artifact.name;
        subjects := subjects + [(artifact.name, hash(artifact.content))];
        files := files["artifacts/" + artifact.name := artifact.content];
      }
      assert artifacts[..|artifacts|] == artifacts;
      error := None;
    }

    /** The manifest and both bills of materials. */
    method WriteMetadata(p: Platform, inputs: Inputs) returns (ok: bool, aggregate: string)
      modifies this
      ensures ok <==> |ManifestEntries(p, inputs)| <= LIMIT
      ensures ok ==> aggregate == Aggregate(p, inputs) && files == MetadataFiles(p, inputs, old(files))
    {
      var builder := new ManifestBuilder(p.le, p.crypto.hash);
      ok := builder.Walk(inputs.root, "");
      if !ok {
        return false, "";
      }
      var entries := builder.entries;
      assert entries == ManifestEntries(p, inputs);
      aggregate := p.crypto.hash(AggregateText(entries));
      var components := LockComponents(p.le, p.encode, inputs.packages);
      files := files[MANIFEST_FILE := JsonFile(inputs.render.manifest(entries, aggregate))];
      files := files[CYCLONE_FILE := JsonFile(inputs.render.cyclone(components, aggregate))];
      files := files[SPDX_FILE := JsonFile(inputs.render.spdx(components, aggregate))];
    }

    method WriteProvenance(p: Platform, inputs: Inputs, digests: Record, aggregate: string)
      requires digests == Digests(p.crypto.hash, inputs.artifacts, "") && aggregate == Aggregate(p, inputs)
      requires MANIFEST_FILE in files && files[MANIFEST_FILE] == ManifestText(p, inputs)
      modifies this
      ensures files == old(files)[PROVENANCE_FILE := ProvenanceText(p, inputs)]
    {
      var subjects := digests + [(MANIFEST_FILE, p.crypto.hash(files[MANIFEST_FILE]))];
      subjects := SortBy(ByKey<string>(p.le), subjects);
      files := files[PROVENANCE_FILE := CanonicalJson(p.le, inputs.render.provenance(subjects, aggregate)) + "\n"];
    }

    method WriteSums(p: Platform, inputs: Inputs) returns (checksums: Record, ok: bool)
      requires Hashable(p, inputs, files)
      modifies this
      ensures checksums == Checksums(p, inputs) && (ok <==> inputs.key.None? || SignedEnvelope(p, inputs).Some?)
      ensures ok ==>
                var sums := old(files)[SUMS_FILE := SumsText(p.le, Checksums(p, inputs))];
                files == match SignedEnvelope(p, inputs)
                         case None => sums
                         case Some(envelope) => sums[ATTESTATION_FILE := JsonFile(envelope)]
    {
      HashedAreChecksums(p, inputs, files);
      EnvelopeIs(p, inputs);
      checksums := HashRelease(p.crypto.hash, inputs.artifacts);
      files := files[SUMS_FILE := SumsText(p.le, checksums)];
      ok := true;
      if inputs.key.Some? {
        var envelope := SignChecksums(p.le, p.crypto, checksums, inputs.key.value, inputs.createdAt);
        if envelope.None? {
          return checksums, false;
        }
        files := files[ATTESTATION_FILE := JsonFile(envelope.value)];
      }
    }

    method PrepareRelease(p: Platform, unit: Order<string>, inputs: Inputs) returns (r: Result<Prepared, PrepareError>)
      modifies this
      ensures r.Ok? <==> ReleaseError(p, inputs).None?
      ensures r.Err? ==> ReleaseError(p, inputs) == Some(r.error)
      ensures r.Ok? ==> files == ReleaseFiles(p, inputs, old(files))
      ensures r.Ok? ==> r.value == Prepared(ReportedFiles(unit, inputs.artifacts, inputs.key.Some?),
                                            Checksums(p, inputs), inputs.key.Some?)
    {
      var ok, aggregate := WriteMetadata(p, inputs);
      if !ok {
        return Err(ManifestTooLarge);
      }
      var digests, names, error := CopyArtifacts(p.crypto.hash, inputs.artifacts);
      if error.Some? {
        return Err(error.value);
      }
      ManifestInPlace(p, inputs, old(files), files);
      WriteProvenance(p, inputs, digests, aggregate);
      HashableRelease(p, inputs, old(files), files);
      var checksums, signed := WriteSums(p, inputs);
      if !signed {
        return Err(BadKey);
      }
      var reported := [MANIFEST_FILE, CYCLONE_FILE, SPDX_FILE, PROVENANCE_FILE] + InArtifacts(SortBy(unit, names))
          + [SUMS_FILE];
      return Ok(Prepared(reported + if inputs.key.Some? then [ATTESTATION_FILE] else [], checksums, inputs.key.Some?));
    }

    /** The two checksum loops, hashing what was written. */
    method HashRelease(hash: string -> string, artifacts: seq<Artifact>) returns (checksums: Record)
      requires MANIFEST_FILE in files && CYCLONE_FILE in files && SPDX_FILE in files && PROVENANCE_FILE in files
      requires forall i :: 0 <= i < |artifacts| ==>
                 "artifacts/" + artifacts[i].name in files
                     && files["artifacts/" + artifacts[i].name] == artifacts[i].content
      ensures checksums == [(MANIFEST_FILE, hash(files[MANIFEST_FILE])), (CYCLONE_FILE, hash(files[CYCLONE_FILE])),
                            (SPDX_FILE, hash(files[SPDX_FILE])), (PROVENANCE_FILE, hash(files[PROVENANCE_FILE]))]
                           + Digests(hash, artifacts, "artifacts/")
    {
      var names := [MANIFEST_FILE, CYCLONE_FILE, SPDX_FILE, PROVENANCE_FILE];
      checksums := [];
      for i := 0 to |names|
        invariant |checksums| == i && forall k :: 0 <= k < i ==> checksums[k] == (names[k], hash(files[names[k]]))
      {
        checksums := checksums + [(names[i], hash(files[names[i]]))];
      }
      ghost var head := checksums;
      for i := 0 to |artifacts|
        invariant checksums == head + Digests(hash, artifacts[..i], "artifacts/")
      {
        var name := "artifacts/" + artifacts[i].name;
        checksums := checksums + [(name, hash(files[name]))];
      }
      assert artifacts[..|artifacts|] == artifacts;
    }
  }

  /** What has to be in place before the checksums are taken. */
  ghost predicate Hashable(p: Platform, inputs: Inputs, files: Directory) {
    && MANIFEST_FILE in files && files[MANIFEST_FILE] == ManifestText(p, inputs)
    && CYCLONE_FILE in files && files[CYCLONE_FILE] == CycloneText(p, inputs)
    && SPDX_FILE in files && files[SPDX_FILE] == SpdxText(p, inputs)
    && PROVENANCE_FILE in files && files[PROVENANCE_FILE] == ProvenanceText(p, inputs)
    && forall i :: 0 <= i < |inputs.artifacts| ==>
         var path := "artifacts/" + inputs.artifacts[i].name;
         path in files && files[path] == inputs.artifacts[i].content
  }

  lemma HashedAreChecksums(p: Platform, inputs: Inputs, files: Directory)
    requires Hashable(p, inputs, files)
    ensures Checksums(p, inputs)
         == [(MANIFEST_FILE, p.crypto.hash(files[MANIFEST_FILE])), (CYCLONE_FILE, p.crypto.hash(files[CYCLONE_FILE])),
             (SPDX_FILE, p.crypto.hash(files[SPDX_FILE])), (PROVENANCE_FILE, p.crypto.hash(files[PROVENANCE_FILE]))]
            + Digests(p.crypto.hash, inputs.artifacts, "artifacts/")
  {
  }

  lemma EnvelopeIs(p: Platform, inputs: Inputs)
    ensures SignedEnvelope(p, inputs)
         == if inputs.key.None? then None
            else SignChecksums(p.le, p.crypto, Checksums(p, inputs), inputs.key.value, inputs.createdAt)
  {
  }

  lemma MetadataInPlace(p: Platform, inputs: Inputs, out: Directory)
    ensures var metadata := MetadataFiles(p, inputs, out);
            && MANIFEST_FILE in metadata && metadata[MANIFEST_FILE] == ManifestText(p, inputs)
            && CYCLONE_FILE in metadata && metadata[CYCLONE_FILE] == CycloneText(p, inputs)
            && SPDX_FILE in metadata && metadata[SPDX_FILE] == SpdxText(p, inputs)
  {
    assert MANIFEST_FILE[1] == 'o' && CYCLONE_FILE[1] == 'b' && SPDX_FILE[1] == 'b';
    assert CYCLONE_FILE[5] == 'c' && SPDX_FILE[5] == 's';
  }

  lemma OutsideArtifacts()
    ensures !StartsWith(MANIFEST_FILE, "artifacts/") && !StartsWith(CYCLONE_FILE, "artifacts/")
    ensures !StartsWith(SPDX_FILE, "artifacts/") && !StartsWith(PROVENANCE_FILE, "artifacts/")
    ensures !StartsWith(SUMS_FILE, "artifacts/") && !StartsWith(ATTESTATION_FILE, "artifacts/")
  {
    assert "artifacts/"[0] == 'a' && "artifacts/"[1] == 'r';
    assert MANIFEST_FILE[0] == 's' && CYCLONE_FILE[0] == 's' && SPDX_FILE[0] == 's' && PROVENANCE_FILE[0] == 'p';
    assert SUMS_FILE[0] == 'S' && ATTESTATION_FILE[1] == 't';
  }

  lemma ManifestInPlace(p: Platform, inputs: Inputs, out: Directory, files: Directory)
    requires files == WithArtifacts(MetadataFiles(p, inputs, out), inputs.artifacts)
    ensures MANIFEST_FILE in files && files[MANIFEST_FILE] == ManifestText(p, inputs)
    ensures CYCLONE_FILE in files && files[CYCLONE_FILE] == CycloneText(p, inputs)
    ensures SPDX_FILE in files && files[SPDX_FILE] == SpdxText(p, inputs)
  {
    MetadataInPlace(p, inputs, out);
    OutsideArtifacts();
    ArtifactsKeepTheRest(MetadataFiles(p, inputs, out), inputs.artifacts);
  }

  lemma HashableRelease(p: Platform, inputs: Inputs, out: Directory, files: Directory)
    requires ArtifactError(inputs.artifacts, {}).None?
    requires var copied := WithArtifacts(MetadataFiles(p, inputs, out), inputs.artifacts);
             files == copied[PROVENANCE_FILE := ProvenanceText(p, inputs)]
    ensures Hashable(p, inputs, files)
  {
    var metadata := MetadataFiles(p, inputs, out);
    ManifestInPlace(p, inputs, out, WithArtifacts(metadata, inputs.artifacts));
    ArtifactsAreCopied(metadata, inputs.artifacts);
    ProvenanceApart(inputs.artifacts);
  }

  lemma ProvenanceApart(artifacts: seq<Artifact>)
    ensures PROVENANCE_FILE != MANIFEST_FILE && PROVENANCE_FILE != CYCLONE_FILE && PROVENANCE_FILE != SPDX_FILE
    ensures forall i :: 0 <= i < |artifacts| ==> "artifacts/" + artifacts[i].name != PROVENANCE_FILE
  {
    assert PROVENANCE_FILE[0] == 'p' && MANIFEST_FILE[0] == 's' && CYCLONE_FILE[0] == 's' && SPDX_FILE[0] == 's';
    forall i | 0 <= i < |artifacts| ensures "artifacts/" + artifacts[i].name != PROVENANCE_FILE {
      assert ("artifacts/" + artifacts[i].name)[0] == 'a';
    }
  }

  /** Copying artifacts leaves every file outside `artifacts/` alone. */
  lemma {:induction false} ArtifactsKeepTheRest(out: Directory, artifacts: seq<Artifact>)
    ensures forall path :: !StartsWith(path, "artifacts/") ==>
              (path in WithArtifacts(out, artifacts) <==> path in out)
              && (path in out ==> WithArtifacts(out, artifacts)[path] == out[path])
    decreases |artifacts|
  {
    if artifacts != [] {
      assert StartsWith("artifacts/" + artifacts[0].name, "artifacts/");
      ArtifactsKeepTheRest(out["artifacts/" + artifacts[0].name := artifacts[0].content], artifacts[1..]);
    }
  }

  ghost predicate DistinctNames(artifacts: seq<Artifact>) {
    forall i, j :: 0 <= i < j < |artifacts| ==> artifacts[i].name != artifacts[j].name
  }

  lemma {:induction false} NoErrorMeansDistinct(artifacts: seq<Artifact>, seen: set<string>)
    ensures ArtifactError(artifacts, seen).None? <==>
            && (forall i :: 0 <= i < |artifacts| ==> artifacts[i].regular && artifacts[i].name !in seen)
            && DistinctNames(artifacts)
    decreases |artifacts|
  {
    if artifacts != [] {
      NoErrorMeansDistinct(artifacts[1..], seen + {artifacts[0].name});
      var rest := artifacts[1..];
      assert forall i :: 1 <= i < |artifacts| ==> artifacts[i] == rest[i - 1];
      if DistinctNames(artifacts) {
        forall i, j | 0 <= i < j < |rest| ensures rest[i].name != rest[j].name {
          assert artifacts[i + 1].name != artifacts[j + 1].name;
        }
        forall i | 0 <= i < |rest| ensures rest[i].name != artifacts[0].name {
          assert artifacts[0].name != artifacts[i + 1].name;
        }
      }
    }
  }

  lemma {:induction false} LaterArtifactsKeep(out: Directory, artifacts: seq<Artifact>, path: string)
    requires path in out && forall i :: 0 <= i < |artifacts| ==> path != "artifacts/" + artifacts[i].name
    ensures path in WithArtifacts(out, artifacts) && WithArtifacts(out, artifacts)[path] == out[path]
    decreases |artifacts|
  {
    if artifacts != [] {
      LaterArtifactsKeep(out["artifacts/" + artifacts[0].name := artifacts[0].content], artifacts[1..], path);
    }
  }

  lemma {:induction false} ArtifactsAreCopied(out: Directory, artifacts: seq<Artifact>)
    requires ArtifactError(artifacts, {}).None?
    ensures forall i :: 0 <= i < |artifacts| ==>
              var path := "artifacts/" + artifacts[i].name;
              path in WithArtifacts(out, artifacts) && WithArtifacts(out, artifacts)[path] == artifacts[i].content
  {
    NoErrorMeansDistinct(artifacts, {});
    DistinctArtifactsAreCopied(out, artifacts);
  }

  lemma {:induction false} DistinctArtifactsAreCopied(out: Directory, artifacts: seq<Artifact>)
    requires DistinctNames(artifacts)
    ensures forall i :: 0 <= i < |artifacts| ==>
              var path := "artifacts/" + artifacts[i].name;
              path in WithArtifacts(out, artifacts) && WithArtifacts(out, artifacts)[path] == artifacts[i].content
    decreases |artifacts|
  {
    if artifacts != [] {
      var path := "artifacts/" + artifacts[0].name;
      var rest, out' := artifacts[1..], out[path := artifacts[0].content];
      forall i | 0 <= i < |rest| ensures path != "artifacts/" + rest[i].name {
        var other := "artifacts/" + artifacts[i + 1].name;
        assert path[10..] == artifacts[0].name && other[10..] == artifacts[i + 1].name;
      }
      LaterArtifactsKeep(out', rest, path);
      forall i, j | 0 <= i < j < |rest| ensures rest[i].name != rest[j].name {
        assert artifacts[i + 1].name != artifacts[j + 1].name;
      }
      DistinctArtifactsAreCopied(out', rest);
      assert forall i :: 1 <= i < |artifacts| ==> artifacts[i] == rest[i - 1];
    }
  }

  // Verifying

  datatype VerifyError = NoSums | Malformed | Escapes | Unreadable(name: string) | Mismatch(name: string)
                       | BadAttestation | InvalidSignature

  datatype Signature = Valid | Absent

  datatype Verified = Verified(files: seq<string>, signature: Signature)

  predicate IsNameChar(c: char) {
    'A' <= c <= 'Z' || 'a' <= c <= 'z' || '0' <= c <= '9' || c == '.' || c == '_' || c == '/' || c == '-'
  }

  /** A file name `verifyRelease` accepts. */
  predicate SafeName(name: string) {
    && name != "" && (forall i :: 0 <= i < |name| ==> IsNameChar(name[i]))
    && !Contains(name, "..") && !StartsWith(name, "/")
  }

  /** One line of SHA256SUMS: a name and its digest. */
  function ParseSumLine(line: string): Option<(string, string)> {
    if |line| > 66 && IsDigest(line[..64]) && line[64..66] == "  " && SafeName(line[66..])
    then Some((line[66..], line[..64]))
    else None
  }

  function Solid(segments: seq<string>): seq<string> {
    if segments == [] then []
    else if segments[0] == "" || segments[0] == "." then Solid(segments[1..])
    else [segments[0]] + Solid(segments[1..])
  }

  /** `resolve(root, name)` relative to the root, for a name without "..". */
  function Resolve(name: string): string {
    Join(Solid(SplitOn(name, '/')), "/")
  }

  /** `record[name] = value`; assigning to "__proto__" stores nothing. */
  function Assign(r: Record, name: string, value: string): Record {
    if name == "__proto__" then r
    else if r == [] then [(name, value)]
    else if r[0].0 == name then [(name, value)] + r[1..]
    else [r[0]] + Assign(r[1..], name, value)
  }

  /** One line of SHA256SUMS, checked against the directory. */
  function CheckLine(hash: string -> string, dir: Directory, line: string): Result<(string, string), VerifyError> {
    match ParseSumLine(line)
    case None => Err(Malformed)
    case Some((name, digest)) =>
      var path := Resolve(name);
      if path == "" then Err(Escapes)
      else if path !in dir then Err(Unreadable(name))
      else if hash(dir[path]) != digest then Err(Mismatch(name))
      else Ok((name, digest))
  }

  function CheckLines(hash: string -> string, dir: Directory, lines: seq<string>): Result<Record, VerifyError> {
    if lines == [] then Ok([])
    else if lines[0] == "" then CheckLines(hash, dir, lines[1..])
    else match CheckLine(hash, dir, lines[0])
      case Err(error) => Err(error)
      case Ok(entry) =>
        match CheckLines(hash, dir, lines[1..])
        case Err(error) => Err(error)
        case Ok(rest) => Ok([entry] + rest)
  }

  function AssignAll(r: Record, entries: Record): Record
    decreases |entries|
  {
    if entries == [] then r else AssignAll(Assign(r, entries[0].0, entries[0].1), entries[1..])
  }

  function CheckAttestation(p: Platform, dir: Directory, checksums: Record): Result<Signature, VerifyError> {
    if ATTESTATION_FILE !in dir then Ok(Absent)
    else match Parse(dir[ATTESTATION_FILE])
      case None => Err(BadAttestation)
      case Some(envelope) =>
        if VerifySigned(p.le, p.crypto, envelope, Some(checksums)) then Ok(Valid) else Err(InvalidSignature)
  }

  function VerifyOutcome(p: Platform, unit: Order<string>, dir: Directory): Result<Verified, VerifyError> {
    if SUMS_FILE !in dir then Err(NoSums)
    else match CheckLines(p.crypto.hash, dir, SplitOn(dir[SUMS_FILE], '\n'))
      case Err(error) => Err(error)
      case Ok(entries) =>
        match CheckAttestation(p, dir, AssignAll([], entries))
        case Err(error) => Err(error)
        case Ok(signature) => Ok(Verified(SortBy(unit, Keys(entries)), signature))
  }

  method VerifyRelease(p: Platform, unit: Order<string>, dir: Directory) returns (r: Result<Verified, VerifyError>)
    ensures r == VerifyOutcome(p, unit, dir)
  {
    if SUMS_FILE !in dir {
      return Err(NoSums);
    }
    var lines := SplitOn(dir[SUMS_FILE], '\n');
    var files: seq<string> := [];
    var checksums: Record := [];
    ghost var entries: Record := [];
    PrefixedNone(CheckLines(p.crypto.hash, dir, lines));
    assert lines[0..] == lines;
    for i := 0 to |lines|
      invariant files == Keys(entries) && checksums == AssignAll([], entries)
      invariant CheckLines(p.crypto.hash, dir, lines) == Prefixed(entries, CheckLines(p.crypto.hash, dir, lines[i..]))
    {
      assert lines[i..][1..] == lines[i + 1..];
      if lines[i] == "" {
        continue;
      }
      var checked := CheckLine(p.crypto.hash, dir, lines[i]);
      if checked.Err? {
        return Err(checked.error);
      }
      var (name, digest) := checked.value;
      AssignOneMore([], entries, (name, digest));
      PrefixedTwice(entries, [(name, digest)], CheckLines(p.crypto.hash, dir, lines[i + 1..]));
      files := files + [name];
      checksums := Assign(checksums, name, digest);
      entries := entries + [(name, digest)];
    }
    assert Prefixed(entries, Ok([])) == Ok(entries) by {
      assert entries + [] == entries;
    }
    var signature := CheckAttestation(p, dir, checksums);
    if signature.Err? {
      return Err(signature.error);
    }
    return Ok(Verified(SortBy(unit, files), signature.value));
  }

  ghost function Prefixed(entries: Record, r: Result<Record, VerifyError>): Result<Record, VerifyError> {
    match r
    case Err(_) => r
    case Ok(rest) => Ok(entries + rest)
  }

  lemma PrefixedNone(r: Result<Record, VerifyError>)
    ensures Prefixed([], r) == r
  {
    if r.Ok? {
      assert [] + r.value == r.value;
    }
  }

  lemma PrefixedTwice(a: Record, b: Record, r: Result<Record, VerifyError>)
    ensures Prefixed(a, Prefixed(b, r)) == Prefixed(a + b, r)
  {
    if r.Ok? {
      assert a + (b + r.value) == a + b + r.value;
    }
  }

  lemma {:induction false} AssignOneMore(r: Record, entries: Record, e: (string, string))
    ensures AssignAll(r, entries + [e]) == Assign(AssignAll(r, entries), e.0, e.1)
    decreases |entries|
  {
    if entries == [] {
      assert entries + [e] == [e];
    } else {
      assert (entries + [e])[1..] == entries[1..] + [e];
      AssignOneMore(Assign(r, entries[0].0, entries[0].1), entries[1..], e);
    }
  }
}
