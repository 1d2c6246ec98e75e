/** The checksums of a finished release, and what decides whether a run or a check of it fails. */
module ReleaseChecks {
  import opened Wrappers
  import opened Text
  import opened Sorting
  import opened Json
  import opened Attestation
  import Canonical
  import opened Release
  import opened ReleaseLaws
  import opened ReleaseContents

  // The checksum file

  /** The files that are checksummed. */
  function Checksummed(artifacts: seq<Artifact>): seq<string> {
    ["source-manifest.json", "sbom.cyclonedx.json", "sbom.spdx.json", "provenance.intoto.jsonl"]
    + ArtifactPaths(artifacts)
  }

  /** Each name with the hash of what the directory holds under it. */
  ghost predicate AreHashes(hash: string -> string, files: Directory, names: seq<string>,
                            r: seq<(string, string)>) {
    && |r| == |names|
    && forall i :: 0 <= i < |r| ==> names[i] in files && r[i] == (names[i], hash(files[names[i]]))
  }

  lemma HashesTogether(hash: string -> string, files: Directory, a: seq<string>, b: seq<string>,
                       x: seq<(string, string)>, y: seq<(string, string)>)
    requires AreHashes(hash, files, a, x) && AreHashes(hash, files, b, y)
    ensures AreHashes(hash, files, a + b, x + y)
  {
  }

  function ArtifactPaths(artifacts: seq<Artifact>): (r: seq<string>)
    ensures |r| == |artifacts| && forall i :: 0 <= i < |r| ==> r[i] == "artifacts/" + artifacts[i].name
  {
    seq(|artifacts|, i requires 0 <= i < |artifacts| => "artifacts/" + artifacts[i].name)
  }

  lemma ArtifactsAreHashed(p: Platform, inputs: Inputs, files: Directory)
    requires Hashable(p, inputs, files)
    ensures AreHashes(p.crypto.hash, files, ArtifactPaths(inputs.artifacts),
                      Digests(p.crypto.hash, inputs.artifacts, "artifacts/"))
  {
  }

  lemma MetadataIsHashed(p: Platform, inputs: Inputs, files: Directory)
    requires Hashable(p, inputs, files)
    ensures AreHashes(p.crypto.hash, files, [MANIFEST_FILE, CYCLONE_FILE, SPDX_FILE, PROVENANCE_FILE],
                      MetadataChecksums(p, inputs))
  {
  }

  lemma ChecksumsAreHashes(p: Platform, inputs: Inputs, files: Directory)
    requires Hashable(p, inputs, files)
    ensures AreHashes(p.crypto.hash, files, Checksummed(inputs.artifacts), Checksums(p, inputs))
  {
    MetadataIsHashed(p, inputs, files);
    ArtifactsAreHashed(p, inputs, files);
    HashesTogether(p.crypto.hash, files, [MANIFEST_FILE, CYCLONE_FILE, SPDX_FILE, PROVENANCE_FILE],
                   ArtifactPaths(inputs.artifacts), MetadataChecksums(p, inputs),
                   Digests(p.crypto.hash, inputs.artifacts, "artifacts/"));
  }

  /** SHA256SUMS has one line for each checksum, in ascending order of names: the digest, two blanks, the name. */
  lemma SumsSay(p: Platform, inputs: Inputs, out: Directory, files: Directory)
    returns (sums: seq<(string, string)>, lines: seq<string>, hashes: seq<(string, string)>)
    requires ReleaseError(p, inputs).None? && files == ReleaseFiles(p, inputs, out) && TotalPreorder(p.le)
    ensures AreHashes(p.crypto.hash, files, Checksummed(inputs.artifacts), hashes)
    ensures multiset(sums) == multiset(hashes) && InNameOrder(p.le, sums)
    ensures |lines| == |sums| && forall i :: 0 <= i < |lines| ==> lines[i] == sums[i].1 + "  " + sums[i].0
    ensures "SHA256SUMS" in files && files["SHA256SUMS"] == Join(lines, "\n") + "\n"
  {
    ReleaseIsHashable(p, inputs, out);
    hashes := Checksums(p, inputs);
    ChecksumsAreHashes(p, inputs, files);
    SortedByName(p.le, hashes);
    sums := SortRecord(p.le, hashes);
    lines := SumLines(sums);
  }

  /** Every artifact is in the directory as it was given. */
  lemma ArtifactsAreThere(p: Platform, inputs: Inputs, out: Directory, files: Directory, i: nat)
    requires ReleaseError(p, inputs).None? && files == ReleaseFiles(p, inputs, out) && i < |inputs.artifacts|
    ensures "artifacts/" + inputs.artifacts[i].name in files
    ensures files["artifacts/" + inputs.artifacts[i].name] == inputs.artifacts[i].content
  {
    ReleaseIsHashable(p, inputs, out);
  }

  /** The payload is of version 1 and of this time, with these checksums in ascending order of names. */
  ghost predicate IsPayload(le: Order<string>, payload: Value, createdAt: string, checksums: seq<(string, string)>) {
    && Get(payload, "schemaVersion") == Int(1) && Get(payload, "createdAt") == Str(createdAt)
    && Get(payload, "checksums").Obj?
    && var m := Get(payload, "checksums").members;
    && multiset(m) == multiset(RecordMembers(checksums))
    && forall i, j :: 0 <= i < j < |m| ==> le(m[i].0, m[j].0)
  }

  lemma EnvelopeIsWritten(p: Platform, inputs: Inputs, out: Directory, key: string)
    requires Sound(p.crypto) && ReleaseError(p, inputs).None? && inputs.key == Some(key)
    ensures var signed := SignChecksums(p.le, p.crypto, Checksums(p, inputs), key, inputs.createdAt);
            && signed.Some? && Distinct(Keys(Checksums(p, inputs)))
            && Holds(ReleaseFiles(p, inputs, out), "attestation.ed25519.json", signed.value)
  {
    EnvelopeIs(p, inputs);
    NoErrorMeansDistinct(inputs.artifacts, {});
    ChecksumNames(p, inputs);
    SignedFile(p, inputs, out);
    EnvelopeSurvivesItsFile(p.le, p.crypto, Checksums(p, inputs), key, inputs.createdAt);
  }

  /** The attestation of a signed release is accepted, and its payload holds the hashes of what the directory holds. */
  lemma AttestationSays(p: Platform, inputs: Inputs, out: Directory, files: Directory, key: string)
    returns (v: Value, hashes: seq<(string, string)>)
    requires Sound(p.crypto) && TotalPreorder(p.le)
    requires ReleaseError(p, inputs).None? && inputs.key == Some(key) && files == ReleaseFiles(p, inputs, out)
    ensures Holds(files, "attestation.ed25519.json", v) && VerifySigned(p.le, p.crypto, v, None)
    ensures p.crypto.publicKeyOf(key).Some? && Get(v, "publicKey") == Str(p.crypto.publicKeyOf(key).value)
    ensures AreHashes(p.crypto.hash, files, Checksummed(inputs.artifacts), hashes)
    ensures IsPayload(p.le, Get(v, "payload"), inputs.createdAt, hashes)
  {
    hashes := Checksums(p, inputs);
    ReleaseIsHashable(p, inputs, out);
    ChecksumsAreHashes(p, inputs, files);
    EnvelopeIsWritten(p, inputs, out, key);
    v := SignChecksums(p.le, p.crypto, hashes, key, inputs.createdAt).value;
    SignedPayload(p.le, p.crypto, hashes, key, inputs.createdAt);
    SignedFields(p.le, p.crypto, hashes, key, inputs.createdAt, hashes);
    SignedWithKey(p.le, p.crypto, hashes, key, inputs.createdAt);
  }

  lemma SignedWithKey(le: Order<string>, c: Crypto, checksums: Record, key: string, createdAt: string)
    requires SignChecksums(le, c, checksums, key, createdAt).Some?
    ensures c.publicKeyOf(key).Some?
    ensures Get(SignChecksums(le, c, checksums, key, createdAt).value, "publicKey") == Str(c.publicKeyOf(key).value)
  {
    var pub, payload := c.publicKeyOf(key).value, Payload(le, checksums, createdAt);
    var bytes := Canonical.CanonicalJson(le, payload);
    EnvelopeLookups(KeyId(c.keyDer(pub).value, c), pub, payload, c.hash(bytes), c.sign(key, bytes));
  }

  /**
   A run reports the metadata, the artifacts in ascending order of names, the checksum file, and the
   attestation if there is a key.
   */
  lemma ReportSays(unit: Order<string>, artifacts: seq<Artifact>, signed: bool) returns (names: seq<string>)
    requires TotalPreorder(unit)
    ensures ReportedFiles(unit, artifacts, signed)
         == ["source-manifest.json", "sbom.cyclonedx.json", "sbom.spdx.json", "provenance.intoto.jsonl"]
            + seq(|names|, i requires 0 <= i < |names| => "artifacts/" + names[i]) + ["SHA256SUMS"]
            + (if signed then ["attestation.ed25519.json"] else [])
    ensures Sorted(unit, names)
    ensures multiset(names) == multiset(seq(|artifacts|, i requires 0 <= i < |artifacts| => artifacts[i].name))
  {
    names := SortBy(unit, ArtifactNames(artifacts));
    SortBySorts(unit, ArtifactNames(artifacts));
    assert InArtifacts(names) == seq(|names|, i requires 0 <= i < |names| => "artifacts/" + names[i]);
    assert ArtifactNames(artifacts) == seq(|artifacts|, i requires 0 <= i < |artifacts| => artifacts[i].name);
  }

  // Why a run stops

  /** The first artifact that is not a regular file or has the name of an earlier one. */
  ghost predicate StopsAt(artifacts: seq<Artifact>, seen: set<string>, i: nat, error: PrepareError) {
    && i < |artifacts|
    && (forall j :: 0 <= j < i ==> artifacts[j].regular && artifacts[j].name !in seen)
    && (forall j, k :: 0 <= j < k < i ==> artifacts[j].name != artifacts[k].name)
    && var artifact := artifacts[i];
    && if artifact.regular
       then error == DuplicateName(artifact.name)
            && (artifact.name in seen || exists j :: 0 <= j < i && artifacts[j].name == artifact.name)
       else error == NotRegular(artifact.name)
  }

  lemma {:induction false} ArtifactStops(artifacts: seq<Artifact>, seen: set<string>) returns (i: nat)
    requires ArtifactError(artifacts, seen).Some?
    ensures StopsAt(artifacts, seen, i, ArtifactError(artifacts, seen).value)
    decreases |artifacts|
  {
    if !artifacts[0].regular || artifacts[0].name in seen {
      i := 0;
    } else {
      i := ArtifactStops(artifacts[1..], seen + {artifacts[0].name});
      StopsBehind(artifacts, seen, i, ArtifactError(artifacts, seen).value);
      i := i + 1;
    }
  }

  lemma StopsBehind(artifacts: seq<Artifact>, seen: set<string>, i: nat, error: PrepareError)
    requires artifacts != [] && artifacts[0].regular && artifacts[0].name !in seen
    requires StopsAt(artifacts[1..], seen + {artifacts[0].name}, i, error)
    ensures StopsAt(artifacts, seen, i + 1, error)
  {
    var rest := artifacts[1..];
    assert forall j :: 1 <= j < |artifacts| ==> artifacts[j] == rest[j - 1];
  }

  /** Regular files, no two of one name. */
  ghost predicate InOrder(artifacts: seq<Artifact>) {
    && (forall i :: 0 <= i < |artifacts| ==> artifacts[i].regular)
    && forall i, j :: 0 <= i < j < |artifacts| ==> artifacts[i].name != artifacts[j].name
  }

  lemma NoErrorMeansInOrder(artifacts: seq<Artifact>)
    ensures ArtifactError(artifacts, {}).None? <==> InOrder(artifacts)
  {
    NoErrorMeansDistinct(artifacts, {});
  }

  lemma KeySigns(p: Platform, inputs: Inputs)
    requires Sound(p.crypto)
    ensures inputs.key.Some? && SignedEnvelope(p, inputs).None?
        <==> inputs.key.Some? && p.crypto.publicKeyOf(inputs.key.value).None?
  {
    EnvelopeIs(p, inputs);
    if inputs.key.Some? {
      UsableKeySigns(p.le, p.crypto, Checksums(p, inputs), inputs.key.value, inputs.createdAt);
    }
  }

  /**
   A run goes through exactly if the manifest has at most 100,000 entries, every artifact is a regular
   file, no two share a name, and the key, if there is one, can be used.
   */
  lemma GoesThroughExactly(p: Platform, inputs: Inputs)
    requires Sound(p.crypto)
    ensures ReleaseError(p, inputs).None? <==>
            && |ManifestEntries(p, inputs)| <= 100_000 && InOrder(inputs.artifacts)
            && !(inputs.key.Some? && p.crypto.publicKeyOf(inputs.key.value).None?)
  {
    NoErrorMeansInOrder(inputs.artifacts);
    KeySigns(p, inputs);
  }

  /**
   Otherwise it stops for the number of entries if there are too many, else at the first artifact
   that is in the way, and for the key only when nothing else is wrong.
   */
  lemma StopsFor(p: Platform, inputs: Inputs)
    requires Sound(p.crypto) && ReleaseError(p, inputs).Some?
    ensures var entries, error := |ManifestEntries(p, inputs)|, ReleaseError(p, inputs).value;
            match error
            case ManifestTooLarge => entries > 100_000
            case BadKey => entries <= 100_000 && InOrder(inputs.artifacts)
            case _ => entries <= 100_000 && exists i :: StopsAt(inputs.artifacts, {}, i, error)
  {
    NoErrorMeansInOrder(inputs.artifacts);
    if ArtifactError(inputs.artifacts, {}).Some? {
      var i := ArtifactStops(inputs.artifacts, {});
    }
  }
}
