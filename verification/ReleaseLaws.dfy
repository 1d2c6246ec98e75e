/** `verifyRelease` accepts what `prepareRelease` writes, and what it writes depends on contents alone. */
module ReleaseLaws {
  import opened Wrappers
  import opened Text
  import opened Sorting
  import opened Json
  import opened Attestation
  import opened Release
  import opened ReleaseLines

  // Names

  /** What `basename` can return for a file: on a POSIX system that includes line breaks. */
  predicate BaseName(name: string) {
    name != "" && '/' !in name && name != "." && name != ".."
  }

  /** The artifact names `verifyRelease` can read back. */
  predicate AcceptedName(name: string) {
    (forall i :: 0 <= i < |name| ==> IsNameChar(name[i])) && !Contains(name, "..")
  }

  lemma {:induction false} NoDotsBefore(prefix: string, name: string)
    requires '.' !in prefix
    ensures Contains(prefix + name, "..") <==> Contains(name, "..")
  {
    if prefix == "" {
      assert prefix + name == name;
    } else {
      var s := prefix + name;
      assert s[1..] == prefix[1..] + name;
      assert s[0] == prefix[0];
      NoDotsBefore(prefix[1..], name);
    }
  }

  lemma ArtifactPathIsSafe(name: string)
    requires name != ""
    ensures SafeName("artifacts/" + name) <==> AcceptedName(name)
  {
    var prefix := "artifacts/";
    var path := prefix + name;
    assert forall i :: 0 <= i < |prefix| ==> IsNameChar(prefix[i]) && prefix[i] != '.';
    NoDotsBefore(prefix, name);
    assert forall i :: 0 <= i < |name| ==> path[|prefix| + i] == name[i];
    assert path[0] == 'a';
  }

  lemma TwoDotsAhead(s: string)
    ensures StartsWith(s, "..") <==> |s| >= 2 && s[0] == '.' && s[1] == '.'
  {
    if |s| >= 2 {
      assert s[..2] == [s[0], s[1]];
    }
  }

  lemma {:induction false} SingleDots(s: string)
    requires forall i :: 0 <= i < |s| - 1 ==> s[i] != '.' || s[i + 1] != '.'
    ensures !Contains(s, "..")
  {
    TwoDotsAhead(s);
    if s != "" {
      SingleDots(s[1..]);
    }
  }

  predicate PlainFileName(name: string) {
    && name != "" && name[0] != '/' && name != "."
    && (forall i :: 0 <= i < |name| ==> IsNameChar(name[i]) && name[i] != '/')
    && (forall i :: 0 <= i < |name| - 1 ==> name[i] != '.' || name[i + 1] != '.')
  }

  lemma MetadataNames()
    ensures PlainFileName(MANIFEST_FILE) && PlainFileName(CYCLONE_FILE)
    ensures PlainFileName(SPDX_FILE) && PlainFileName(PROVENANCE_FILE)
  {
    ManifestName();
    CycloneName();
    SpdxName();
    ProvenanceName();
  }

  lemma ManifestName()
    ensures PlainFileName(MANIFEST_FILE)
  {
  }

  lemma CycloneName()
    ensures PlainFileName(CYCLONE_FILE)
  {
  }

  lemma SpdxName()
    ensures PlainFileName(SPDX_FILE)
  {
  }

  lemma ProvenanceName()
    ensures PlainFileName(PROVENANCE_FILE)
  {
  }

  lemma PlainNamesResolve(name: string)
    requires PlainFileName(name)
    ensures SafeName(name) && Resolve(name) == name
  {
    SingleDots(name);
    SplitWhole(name, '/');
    assert Solid([name]) == [name];
  }

  lemma ArtifactPathResolves(name: string)
    requires BaseName(name)
    ensures Resolve("artifacts/" + name) == "artifacts/" + name
  {
    SplitHead("artifacts", '/', name);
    SplitWhole(name, '/');
    assert "artifacts" + ['/'] + name == "artifacts/" + name;
    var segments := ["artifacts", name];
    assert segments[1..] == [name] && segments[0][0] == 'a';
    assert Solid([name]) == [name];
    assert Solid(segments) == segments;
    assert Join([name], "/") == name;
  }

  // The release

  lemma MetadataNamesDiffer(c: Record)
    requires |c| == 4 && c[0].0 == MANIFEST_FILE && c[1].0 == CYCLONE_FILE && c[2].0 == SPDX_FILE
        && c[3].0 == PROVENANCE_FILE
    ensures Distinct(Keys(c))
    ensures forall i :: 0 <= i < 4 ==> c[i].0 != "" && c[i].0[0] in {'s', 'p'}
  {
    assert MANIFEST_FILE[1] == 'o' && CYCLONE_FILE[1] == 'b' && SPDX_FILE[1] == 'b';
    assert CYCLONE_FILE[5] == 'c' && SPDX_FILE[5] == 's' && MANIFEST_FILE[0] == 's' && PROVENANCE_FILE[0] == 'p';
  }

  lemma ArtifactNamesDiffer(hash: string -> string, artifacts: seq<Artifact>)
    requires DistinctNames(artifacts)
    ensures var d := Digests(hash, artifacts, "artifacts/");
            Distinct(Keys(d)) && forall i :: 0 <= i < |d| ==> d[i].0 != "" && d[i].0[0] == 'a'
  {
    var d := Digests(hash, artifacts, "artifacts/");
    forall i, j | 0 <= i < j < |d| ensures Keys(d)[i] != Keys(d)[j] {
      assert d[i].0[10..] == artifacts[i].name && d[j].0[10..] == artifacts[j].name;
    }
  }

  lemma DistinctTogether(c: Record, d: Record)
    requires Distinct(Keys(c)) && Distinct(Keys(d))
    requires forall i :: 0 <= i < |c| ==> c[i].0 != "" && c[i].0[0] in {'s', 'p'}
    requires forall i :: 0 <= i < |d| ==> d[i].0 != "" && d[i].0[0] == 'a'
    ensures Distinct(Keys(c + d))
    ensures forall e :: e in c + d ==> e.0 != "__proto__"
  {
    assert Keys(c + d) == Keys(c) + Keys(d);
    assert "__proto__"[0] == '_';
  }

  lemma ChecksumNames(p: Platform, inputs: Inputs)
    requires DistinctNames(inputs.artifacts)
    ensures Distinct(Keys(Checksums(p, inputs)))
    ensures forall e :: e in Checksums(p, inputs) ==> e.0 != "__proto__"
  {
    MetadataNamesDiffer(MetadataChecksums(p, inputs));
    ArtifactNamesDiffer(p.crypto.hash, inputs.artifacts);
    DistinctTogether(MetadataChecksums(p, inputs), Digests(p.crypto.hash, inputs.artifacts, "artifacts/"));
  }

  ghost predicate GoodNames(artifacts: seq<Artifact>) {
    forall i :: 0 <= i < |artifacts| ==> BaseName(artifacts[i].name)
  }

  ghost predicate AcceptedNames(artifacts: seq<Artifact>) {
    forall i :: 0 <= i < |artifacts| ==> AcceptedName(artifacts[i].name)
  }

  lemma KeepsHashable(p: Platform, inputs: Inputs, files: Directory, path: string, text: string)
    requires Hashable(p, inputs, files) && (path == SUMS_FILE || path == ATTESTATION_FILE)
    ensures Hashable(p, inputs, files[path := text])
  {
    SpecialNames(inputs.artifacts);
  }

  lemma CompletedIsHashable(p: Platform, inputs: Inputs, files: Directory, sums: string, envelope: Option<Value>)
    requires Hashable(p, inputs, files[PROVENANCE_FILE := ProvenanceText(p, inputs)])
    ensures Hashable(p, inputs, Completed(files, ProvenanceText(p, inputs), sums, envelope))
  {
    var proven := files[PROVENANCE_FILE := ProvenanceText(p, inputs)];
    KeepsHashable(p, inputs, proven, SUMS_FILE, sums);
    if envelope.Some? {
      KeepsHashable(p, inputs, proven[SUMS_FILE := sums], ATTESTATION_FILE, JsonFile(envelope.value));
    }
  }

  lemma CompletedSums(files: Directory, provenance: string, sums: string, envelope: Option<Value>)
    ensures SUMS_FILE in Completed(files, provenance, sums, envelope)
    ensures Completed(files, provenance, sums, envelope)[SUMS_FILE] == sums
  {
    SumsIsNotAttestation();
  }

  /** The checksummed files are all in the finished directory. */
  lemma ReleaseIsHashable(p: Platform, inputs: Inputs, out: Directory)
    requires ArtifactError(inputs.artifacts, {}).None?
    ensures Hashable(p, inputs, ReleaseFiles(p, inputs, out))
    ensures SUMS_FILE in ReleaseFiles(p, inputs, out)
    ensures ReleaseFiles(p, inputs, out)[SUMS_FILE] == SumsText(p.le, Checksums(p, inputs))
  {
    var copied := WithArtifacts(MetadataFiles(p, inputs, out), inputs.artifacts);
    HashableRelease(p, inputs, out, copied[PROVENANCE_FILE := ProvenanceText(p, inputs)]);
    CompletedIsHashable(p, inputs, copied, SumsText(p.le, Checksums(p, inputs)), SignedEnvelope(p, inputs));
    CompletedSums(copied, ProvenanceText(p, inputs), SumsText(p.le, Checksums(p, inputs)), SignedEnvelope(p, inputs));
  }

  lemma SumsIsNotAttestation()
    ensures SUMS_FILE != ATTESTATION_FILE
  {
    assert SUMS_FILE[0] == 'S' && ATTESTATION_FILE[0] == 'a';
  }

  lemma SpecialNames(artifacts: seq<Artifact>)
    ensures SUMS_FILE != ATTESTATION_FILE
    ensures SUMS_FILE !in {MANIFEST_FILE, CYCLONE_FILE, SPDX_FILE, PROVENANCE_FILE}
    ensures ATTESTATION_FILE !in {MANIFEST_FILE, CYCLONE_FILE, SPDX_FILE, PROVENANCE_FILE}
    ensures forall i :: 0 <= i < |artifacts| ==>
              "artifacts/" + artifacts[i].name != SUMS_FILE && "artifacts/" + artifacts[i].name != ATTESTATION_FILE
  {
    assert SUMS_FILE[0] == 'S' && ATTESTATION_FILE[0] == 'a' && ATTESTATION_FILE[1] == 't';
    assert MANIFEST_FILE[0] == 's' && CYCLONE_FILE[0] == 's' && SPDX_FILE[0] == 's' && PROVENANCE_FILE[0] == 'p';
    forall i | 0 <= i < |artifacts|
      ensures "artifacts/" + artifacts[i].name != SUMS_FILE && "artifacts/" + artifacts[i].name != ATTESTATION_FILE
    {
      var path := "artifacts/" + artifacts[i].name;
      assert path[0] == 'a' && path[1] == 'r';
    }
  }

  // The files reported

  lemma ReportedArtifact(unit: Order<string>, artifacts: seq<Artifact>, path: string)
    ensures path in InArtifacts(SortBy(unit, ArtifactNames(artifacts))) <==>
            exists i :: 0 <= i < |artifacts| && path == "artifacts/" + artifacts[i].name
  {
    var names, sorted := ArtifactNames(artifacts), SortBy(unit, ArtifactNames(artifacts));
    MembersOfPermutation(names, sorted);
    if path in InArtifacts(sorted) {
      var k :| 0 <= k < |sorted| && InArtifacts(sorted)[k] == path;
      assert sorted[k] in names;
      var i :| 0 <= i < |names| && names[i] == sorted[k];
      assert path == "artifacts/" + artifacts[i].name;
    }
    if i :| 0 <= i < |artifacts| && path == "artifacts/" + artifacts[i].name {
      assert names[i] in sorted;
      var k :| 0 <= k < |sorted| && sorted[k] == names[i];
      assert InArtifacts(sorted)[k] == path;
    }
  }

  lemma {:induction false} OtherFilesStay(out: Directory, artifacts: seq<Artifact>, path: string)
    requires forall i :: 0 <= i < |artifacts| ==> path != "artifacts/" + artifacts[i].name
    ensures path in WithArtifacts(out, artifacts) <==> path in out
    ensures path in out ==> WithArtifacts(out, artifacts)[path] == out[path]
    decreases |artifacts|
  {
    if artifacts != [] {
      assert path != "artifacts/" + artifacts[0].name;
      OtherFilesStay(out["artifacts/" + artifacts[0].name := artifacts[0].content], artifacts[1..], path);
    }
  }

  /** The files reported are those of the release: all are there, and no other file was touched. */
  lemma ReportedFilesAreThoseWritten(p: Platform, unit: Order<string>, inputs: Inputs, out: Directory, path: string)
    requires ReleaseError(p, inputs).None?
    ensures var reported, dir := ReportedFiles(unit, inputs.artifacts, inputs.key.Some?), ReleaseFiles(p, inputs, out);
            && (path in reported ==> path in dir)
            && (path !in reported ==> (path in dir <==> path in out) && (path in out ==> dir[path] == out[path]))
  {
    var metadata, artifacts := MetadataFiles(p, inputs, out), inputs.artifacts;
    ReleaseIsHashable(p, inputs, out);
    ReportedArtifact(unit, artifacts, path);
    ReportedParts(unit, artifacts, inputs.key.Some?, path);
    if inputs.key.Some? {
      SignedFile(p, inputs, out);
    }
    if path !in ReportedFiles(unit, artifacts, inputs.key.Some?) {
      OtherFilesStay(metadata, artifacts, path);
    }
  }

  lemma ReportedParts(unit: Order<string>, artifacts: seq<Artifact>, signed: bool, path: string)
    ensures path in ReportedFiles(unit, artifacts, signed) <==>
            || path in {MANIFEST_FILE, CYCLONE_FILE, SPDX_FILE, PROVENANCE_FILE, SUMS_FILE}
            || path in InArtifacts(SortBy(unit, ArtifactNames(artifacts))) || (signed && path == ATTESTATION_FILE)
  {
    var metadata := [MANIFEST_FILE, CYCLONE_FILE, SPDX_FILE, PROVENANCE_FILE];
    var copied := InArtifacts(SortBy(unit, ArtifactNames(artifacts)));
    InEither(metadata, copied, path);
    InEither(metadata + copied, [SUMS_FILE], path);
    InEither(metadata + copied + [SUMS_FILE], if signed then [ATTESTATION_FILE] else [], path);
  }

  /** What can be said of one checksummed file once the release is in place. */
  ghost predicate Listed(hash: string -> string, dir: Directory, e: (string, string)) {
    IsDigest(e.1) && Intact(hash, dir, e)
  }

  lemma PlainFileListed(crypto: Crypto, dir: Directory, name: string)
    requires Sound(crypto) && PlainFileName(name) && name in dir
    ensures Listed(crypto.hash, dir, (name, crypto.hash(dir[name]))) && SafeName(name)
  {
    PlainNamesResolve(name);
  }

  ghost predicate GoodEntry(hash: string -> string, dir: Directory, e: (string, string)) {
    Listed(hash, dir, e) && SafeName(e.0)
  }

  lemma PlainFilesListed(crypto: Crypto, dir: Directory, a: string, b: string, c: string, d: string)
    requires Sound(crypto) && a in dir && b in dir && c in dir && d in dir
    requires PlainFileName(a) && PlainFileName(b) && PlainFileName(c) && PlainFileName(d)
    ensures forall e :: e in [(a, crypto.hash(dir[a])), (b, crypto.hash(dir[b])), (c, crypto.hash(dir[c])),
                              (d, crypto.hash(dir[d]))]
              ==> GoodEntry(crypto.hash, dir, e)
  {
    PlainFileListed(crypto, dir, a);
    PlainFileListed(crypto, dir, b);
    PlainFileListed(crypto, dir, c);
    PlainFileListed(crypto, dir, d);
  }

  lemma MetadataListed(p: Platform, inputs: Inputs, dir: Directory)
    requires Sound(p.crypto) && Hashable(p, inputs, dir)
    ensures forall e :: e in MetadataChecksums(p, inputs) ==> GoodEntry(p.crypto.hash, dir, e)
  {
    MetadataNames();
    PlainFilesListed(p.crypto, dir, MANIFEST_FILE, CYCLONE_FILE, SPDX_FILE, PROVENANCE_FILE);
  }

  lemma ArtifactListed(crypto: Crypto, artifact: Artifact, dir: Directory)
    requires Sound(crypto) && BaseName(artifact.name)
    requires var path := "artifacts/" + artifact.name; path in dir && dir[path] == artifact.content
    ensures Listed(crypto.hash, dir, ("artifacts/" + artifact.name, crypto.hash(artifact.content)))
    ensures SafeName("artifacts/" + artifact.name) <==> AcceptedName(artifact.name)
  {
    ArtifactPathResolves(artifact.name);
    ArtifactPathIsSafe(artifact.name);
  }

  lemma ArtifactsListed(crypto: Crypto, artifacts: seq<Artifact>, dir: Directory)
    requires Sound(crypto) && GoodNames(artifacts)
    requires forall i :: 0 <= i < |artifacts| ==>
               var path := "artifacts/" + artifacts[i].name; path in dir && dir[path] == artifacts[i].content
    ensures var d := Digests(crypto.hash, artifacts, "artifacts/");
            && (forall e :: e in d ==> Listed(crypto.hash, dir, e))
            && ((forall e :: e in d ==> SafeName(e.0)) <==> AcceptedNames(artifacts))
  {
    var d := Digests(crypto.hash, artifacts, "artifacts/");
    forall k | 0 <= k < |artifacts|
      ensures Listed(crypto.hash, dir, d[k]) && (SafeName(d[k].0) <==> AcceptedName(artifacts[k].name))
    {
      ArtifactListed(crypto, artifacts[k], dir);
    }
    if forall e :: e in d ==> SafeName(e.0) {
      forall k | 0 <= k < |artifacts| ensures AcceptedName(artifacts[k].name) {
        assert d[k] in d;
      }
    }
  }

  lemma AllListed(p: Platform, inputs: Inputs, dir: Directory)
    requires Sound(p.crypto) && Hashable(p, inputs, dir) && GoodNames(inputs.artifacts)
    ensures forall e :: e in Checksums(p, inputs) ==> Listed(p.crypto.hash, dir, e)
    ensures (forall e :: e in Checksums(p, inputs) ==> SafeName(e.0)) <==> AcceptedNames(inputs.artifacts)
  {
    MetadataListed(p, inputs, dir);
    ArtifactsListed(p.crypto, inputs.artifacts, dir);
    var c, d := MetadataChecksums(p, inputs), Digests(p.crypto.hash, inputs.artifacts, "artifacts/");
    assert forall e :: e in c + d <==> e in c || e in d;
  }

  /** A checksum file of safe names reads back as its sorted record. */
  lemma SumsReadBack(le: Order<string>, hash: string -> string, dir: Directory, c: Record)
    requires c != [] && forall e :: e in c ==> IsDigest(e.1) && SafeName(e.0) && Intact(hash, dir, e)
    ensures CheckLines(hash, dir, SplitOn(SumsText(le, c), '\n')) == Ok(SortRecord(le, c))
  {
    var sorted := SortRecord(le, c);
    MembersOfPermutation(c, sorted);
    forall e | e in c ensures '\n' !in e.0 {
      SafeNamesAreUnbroken(e.0);
    }
    SumsTextSplits(le, c);
    forall i | 0 <= i < |sorted|
      ensures IsDigest(sorted[i].1) && Intact(hash, dir, sorted[i]) && SafeName(sorted[i].0)
    {
      assert sorted[i] in c;
    }
    LinesCheck(hash, dir, sorted);
  }

  /**
   What becomes of an artifact's line: without a line break in the name, the name has to be in the
   accepted alphabet and free of ".."; with one, each piece of the line has to describe a file.
   */
  ghost predicate LegibleName(hash: string -> string, dir: Directory, artifact: Artifact) {
    if '\n' in artifact.name then ReadsAsLines(hash, dir, ("artifacts/" + artifact.name, hash(artifact.content)))
    else AcceptedName(artifact.name)
  }

  ghost predicate Legible(hash: string -> string, dir: Directory, artifacts: seq<Artifact>) {
    forall i :: 0 <= i < |artifacts| ==> LegibleName(hash, dir, artifacts[i])
  }

  lemma AcceptedNamesAreLegible(hash: string -> string, dir: Directory, artifacts: seq<Artifact>)
    ensures AcceptedNames(artifacts) <==>
            Legible(hash, dir, artifacts) && forall i :: 0 <= i < |artifacts| ==> '\n' !in artifacts[i].name
  {
    forall i | 0 <= i < |artifacts| ensures AcceptedName(artifacts[i].name) ==> '\n' !in artifacts[i].name {
      var name := artifacts[i].name;
      assert AcceptedName(name) ==> forall k :: 0 <= k < |name| ==> IsNameChar(name[k]);
    }
  }

  lemma ListedReads(hash: string -> string, dir: Directory, e: (string, string))
    requires Listed(hash, dir, e) && '\n' !in e.0
    ensures ReadsAsLines(hash, dir, e) <==> SafeName(e.0)
  {
    UnbrokenReads(hash, dir, e);
  }

  lemma ArtifactReads(crypto: Crypto, artifact: Artifact, dir: Directory)
    requires Sound(crypto) && BaseName(artifact.name)
    requires var path := "artifacts/" + artifact.name; path in dir && dir[path] == artifact.content
    ensures ReadsAsLines(crypto.hash, dir, ("artifacts/" + artifact.name, crypto.hash(artifact.content)))
            <==> LegibleName(crypto.hash, dir, artifact)
  {
    ArtifactListed(crypto, artifact, dir);
    if '\n' !in artifact.name {
      assert '\n' !in "artifacts/" + artifact.name;
      ListedReads(crypto.hash, dir, ("artifacts/" + artifact.name, crypto.hash(artifact.content)));
    }
  }

  lemma ArtifactsRead(crypto: Crypto, artifacts: seq<Artifact>, dir: Directory)
    requires Sound(crypto) && GoodNames(artifacts)
    requires forall i :: 0 <= i < |artifacts| ==>
               var path := "artifacts/" + artifacts[i].name; path in dir && dir[path] == artifacts[i].content
    ensures (forall e :: e in Digests(crypto.hash, artifacts, "artifacts/") ==> ReadsAsLines(crypto.hash, dir, e))
            <==> Legible(crypto.hash, dir, artifacts)
  {
    var d := Digests(crypto.hash, artifacts, "artifacts/");
    forall k | 0 <= k < |artifacts|
      ensures ReadsAsLines(crypto.hash, dir, d[k]) <==> LegibleName(crypto.hash, dir, artifacts[k])
    {
      ArtifactReads(crypto, artifacts[k], dir);
    }
    if forall e :: e in d ==> ReadsAsLines(crypto.hash, dir, e) {
      forall k | 0 <= k < |artifacts| ensures LegibleName(crypto.hash, dir, artifacts[k]) {
        assert d[k] in d;
      }
    }
  }

  lemma AllRead(p: Platform, inputs: Inputs, dir: Directory)
    requires Sound(p.crypto) && Hashable(p, inputs, dir) && GoodNames(inputs.artifacts)
    ensures (forall e :: e in Checksums(p, inputs) ==> ReadsAsLines(p.crypto.hash, dir, e))
            <==> Legible(p.crypto.hash, dir, inputs.artifacts)
  {
    MetadataListed(p, inputs, dir);
    ArtifactsRead(p.crypto, inputs.artifacts, dir);
    GoodEntriesRead(p.crypto.hash, dir, MetadataChecksums(p, inputs));
    var c, d := MetadataChecksums(p, inputs), Digests(p.crypto.hash, inputs.artifacts, "artifacts/");
    assert forall e :: e in c + d <==> e in c || e in d;
  }

  lemma GoodEntriesRead(hash: string -> string, dir: Directory, c: Record)
    requires forall e :: e in c ==> GoodEntry(hash, dir, e)
    ensures forall e :: e in c ==> ReadsAsLines(hash, dir, e)
  {
    forall e | e in c ensures ReadsAsLines(hash, dir, e) {
      SafeNamesAreUnbroken(e.0);
      ListedReads(hash, dir, e);
    }
  }

  /** The lines of the finished checksum file, checked. */
  function Checked(p: Platform, inputs: Inputs, out: Directory): Result<Record, VerifyError> {
    var dir := ReleaseFiles(p, inputs, out);
    CheckLines(p.crypto.hash, dir, SplitOn(SumsText(p.le, Checksums(p, inputs)), '\n'))
  }

  /** The record they are read as; nothing if they are not read through. */
  function ReadRecord(p: Platform, inputs: Inputs, out: Directory): Record {
    match Checked(p, inputs, out)
    case Ok(entries) => AssignAll([], entries)
    case Err(_) => []
  }

  /**
   Reading SHA256SUMS back goes through exactly when every artifact name is legible, and gives
   exactly the printed record, sorted by name, when every name is in the accepted alphabet and free
   of "..".
   */
  lemma PrintedSumsReadBack(p: Platform, inputs: Inputs, out: Directory)
    requires Sound(p.crypto) && ReleaseError(p, inputs).None? && GoodNames(inputs.artifacts)
    ensures SUMS_FILE in ReleaseFiles(p, inputs, out)
    ensures CheckLines(p.crypto.hash, ReleaseFiles(p, inputs, out),
                       SplitOn(ReleaseFiles(p, inputs, out)[SUMS_FILE], '\n'))
         == Checked(p, inputs, out)
    ensures Checked(p, inputs, out).Ok? <==> Legible(p.crypto.hash, ReleaseFiles(p, inputs, out), inputs.artifacts)
    ensures AcceptedNames(inputs.artifacts) ==> Checked(p, inputs, out) == Ok(SortRecord(p.le, Checksums(p, inputs)))
  {
    var dir, c := ReleaseFiles(p, inputs, out), Checksums(p, inputs);
    ReleaseIsHashable(p, inputs, out);
    AllListed(p, inputs, dir);
    AllRead(p, inputs, dir);
    SumsReadExactly(p.le, p.crypto.hash, dir, c);
    if AcceptedNames(inputs.artifacts) {
      SumsReadBack(p.le, p.crypto.hash, dir, c);
    }
  }

  /** An attestation left in the directory by an earlier run, if there is one, fits this record. */
  predicate StaleAttestationFits(p: Platform, out: Directory, read: Record) {
    ATTESTATION_FILE in out ==>
      && Parse(out[ATTESTATION_FILE]).Some?
      && VerifySigned(p.le, p.crypto, Parse(out[ATTESTATION_FILE]).value, Some(read))
  }

  /** One that was made over checksums `c` fits exactly the records that are sorted into the same list. */
  lemma StaleAttestationFitsItsChecksums(p: Platform, out: Directory, c: Record, key: string, createdAt: string,
                                         read: Record)
    requires TotalPreorder(p.le) && Sound(p.crypto) && p.crypto.publicKeyOf(key).Some?
    requires Distinct(Keys(c)) && Distinct(Keys(read))
    requires SignChecksums(p.le, p.crypto, c, key, createdAt).Some?
    requires ATTESTATION_FILE in out
    requires out[ATTESTATION_FILE] == JsonFile(SignChecksums(p.le, p.crypto, c, key, createdAt).value)
    ensures StaleAttestationFits(p, out, read) <==> SortRecord(p.le, read) == SortRecord(p.le, c)
  {
    EnvelopeSurvivesItsFile(p.le, p.crypto, c, key, createdAt);
    SignedVerifiesExactly(p.le, p.crypto, c, key, createdAt, read);
  }

  /** A fresh signature is accepted for the sorted record it was made over. */
  lemma FreshSignatureHolds(le: Order<string>, crypto: Crypto, c: Record, key: string, createdAt: string)
    requires TotalPreorder(le) && Sound(crypto) && Distinct(Keys(c)) && crypto.publicKeyOf(key).Some?
    ensures SignChecksums(le, crypto, c, key, createdAt).Some?
    ensures var e := SignChecksums(le, crypto, c, key, createdAt).value;
            Parse(JsonFile(e)) == Some(e) && VerifySigned(le, crypto, e, Some(SortRecord(le, c)))
  {
    var sorted := SortRecord(le, c);
    SignedFields(le, crypto, c, key, createdAt, sorted);
    EnvelopeSurvivesItsFile(le, crypto, c, key, createdAt);
    SortedTwice(le, c);
  }

  lemma SortedTwice(le: Order<string>, c: Record)
    requires TotalPreorder(le)
    ensures SortRecord(le, SortRecord(le, c)) == SortRecord(le, c)
  {
    ByKeyIsAPreorder<string>(le);
    SortBySorts(ByKey<string>(le), c);
    SortOfSorted(ByKey<string>(le), SortRecord(le, c));
  }

  lemma AttestationChecks(p: Platform, dir: Directory, read: Record)
    ensures var r := CheckAttestation(p, dir, read);
            && (r.Ok? <==> StaleAttestationFits(p, dir, read))
            && (r.Ok? ==> (r.value == Valid <==> ATTESTATION_FILE in dir))
  {
  }

  /** Without a key, what was lying there decides. */
  lemma UnsignedAttestation(p: Platform, inputs: Inputs, out: Directory, read: Record)
    requires inputs.key.None?
    ensures var r := CheckAttestation(p, ReleaseFiles(p, inputs, out), read);
            && (r.Ok? <==> StaleAttestationFits(p, out, read))
            && (r.Ok? ==> (r.value == Valid <==> ATTESTATION_FILE in out))
  {
    AttestationIsKept(p, inputs, out);
    AttestationChecks(p, ReleaseFiles(p, inputs, out), read);
  }

  lemma SignedRelease(p: Platform, inputs: Inputs, out: Directory, key: string)
    requires TotalPreorder(p.le) && Sound(p.crypto) && DistinctNames(inputs.artifacts)
    requires inputs.key == Some(key) && SignedEnvelope(p, inputs).Some?
    ensures CheckAttestation(p, ReleaseFiles(p, inputs, out), SortRecord(p.le, Checksums(p, inputs))) == Ok(Valid)
  {
    ChecksumNames(p, inputs);
    UsableKeySigns(p.le, p.crypto, Checksums(p, inputs), key, inputs.createdAt);
    FreshSignatureHolds(p.le, p.crypto, Checksums(p, inputs), key, inputs.createdAt);
    SignedFile(p, inputs, out);
  }

  /** A signature over a record with a line break in a name is accepted for no record without one. */
  lemma BrokenNamesAreNotSigned(le: Order<string>, crypto: Crypto, c: Record, key: string, createdAt: string,
                                e: (string, string), read: Record)
    requires Sound(crypto) && Distinct(Keys(c)) && crypto.publicKeyOf(key).Some?
    requires e in c && '\n' in e.0 && Unbroken(read) && Distinct(Keys(read))
    ensures SignChecksums(le, crypto, c, key, createdAt).Some?
    ensures !VerifySigned(le, crypto, SignChecksums(le, crypto, c, key, createdAt).value, Some(read))
  {
    SignedFields(le, crypto, c, key, createdAt, read);
    if VerifySigned(le, crypto, SignChecksums(le, crypto, c, key, createdAt).value, Some(read)) {
      SortedRecord(le, c);
      SortedRecord(le, read);
      EqualRecordTexts(le, SortRecord(le, c), SortRecord(le, read));
      MembersOfPermutation(c, read);
    }
  }

  lemma SignedReleaseRejects(p: Platform, inputs: Inputs, out: Directory, i: nat, read: Record)
    requires TotalPreorder(p.le) && Sound(p.crypto) && ReleaseError(p, inputs).None? && inputs.key.Some?
    requires i < |inputs.artifacts| && '\n' in inputs.artifacts[i].name && Unbroken(read) && Distinct(Keys(read))
    ensures CheckAttestation(p, ReleaseFiles(p, inputs, out), read).Err?
  {
    NoErrorMeansDistinct(inputs.artifacts, {});
    ChecksumNames(p, inputs);
    var c, key := Checksums(p, inputs), inputs.key.value;
    var e := ArtifactEntry(p, inputs, i);
    UsableKeySigns(p.le, p.crypto, c, key, inputs.createdAt);
    BrokenNamesAreNotSigned(p.le, p.crypto, c, key, inputs.createdAt, e, read);
    EnvelopeSurvivesItsFile(p.le, p.crypto, c, key, inputs.createdAt);
    SignedFile(p, inputs, out);
  }

  lemma ArtifactEntry(p: Platform, inputs: Inputs, i: nat) returns (e: (string, string))
    requires i < |inputs.artifacts|
    ensures e in Checksums(p, inputs) && e.0 == "artifacts/" + inputs.artifacts[i].name
    ensures '\n' in inputs.artifacts[i].name ==> '\n' in e.0
  {
    var d := Digests(p.crypto.hash, inputs.artifacts, "artifacts/");
    e := d[i];
    InEither(MetadataChecksums(p, inputs), d, e);
    BreakShows("artifacts/", inputs.artifacts[i].name);
  }

  lemma InEither<T>(a: seq<T>, b: seq<T>, x: T)
    ensures x in a + b <==> x in a || x in b
  {
  }

  lemma BreakShows(a: string, b: string)
    ensures '\n' in b ==> '\n' in a + b
  {
    InEither(a, b, '\n');
  }

  lemma SignedFile(p: Platform, inputs: Inputs, out: Directory)
    requires SignedEnvelope(p, inputs).Some?
    ensures ATTESTATION_FILE in ReleaseFiles(p, inputs, out)
    ensures ReleaseFiles(p, inputs, out)[ATTESTATION_FILE] == JsonFile(SignedEnvelope(p, inputs).value)
  {
  }

  lemma AttestationIsKept(p: Platform, inputs: Inputs, out: Directory)
    requires inputs.key.None?
    ensures var dir := ReleaseFiles(p, inputs, out);
            (ATTESTATION_FILE in dir <==> ATTESTATION_FILE in out) &&
            (ATTESTATION_FILE in out ==> dir[ATTESTATION_FILE] == out[ATTESTATION_FILE])
  {
    var metadata := MetadataFiles(p, inputs, out);
    MetadataKeeps(p, inputs, out);
    OutsideArtifacts();
    ArtifactsKeepTheRest(metadata, inputs.artifacts);
    UnsignedKeeps(WithArtifacts(metadata, inputs.artifacts), ProvenanceText(p, inputs),
                  SumsText(p.le, Checksums(p, inputs)));
  }

  lemma MetadataKeeps(p: Platform, inputs: Inputs, out: Directory)
    ensures var dir := MetadataFiles(p, inputs, out);
            (ATTESTATION_FILE in dir <==> ATTESTATION_FILE in out) &&
            (ATTESTATION_FILE in out ==> dir[ATTESTATION_FILE] == out[ATTESTATION_FILE])
  {
    SpecialNames([]);
  }

  lemma UnsignedKeeps(files: Directory, provenance: string, sums: string)
    ensures var dir := Completed(files, provenance, sums, None);
            (ATTESTATION_FILE in dir <==> ATTESTATION_FILE in files) &&
            (ATTESTATION_FILE in files ==> dir[ATTESTATION_FILE] == files[ATTESTATION_FILE])
  {
    SpecialNames([]);
  }

  lemma OutcomeOfLines(p: Platform, unit: Order<string>, dir: Directory, entries: Record)
    requires SUMS_FILE in dir && CheckLines(p.crypto.hash, dir, SplitOn(dir[SUMS_FILE], '\n')) == Ok(entries)
    ensures var r, signature := VerifyOutcome(p, unit, dir), CheckAttestation(p, dir, AssignAll([], entries));
            if signature.Ok? then r == Ok(Verified(SortBy(unit, Keys(entries)), signature.value)) else r.Err?
  {
  }

  lemma OutcomeOfBadLines(p: Platform, unit: Order<string>, dir: Directory)
    requires SUMS_FILE in dir && CheckLines(p.crypto.hash, dir, SplitOn(dir[SUMS_FILE], '\n')).Err?
    ensures VerifyOutcome(p, unit, dir).Err?
  {
  }

  /**
   `verifyRelease` accepts what `prepareRelease` wrote with a key exactly when every artifact name is
   in the accepted alphabet and free of "..".  Without a key it does exactly when every name is
   legible and an attestation that was already lying in the output directory, if any, fits what is
   read; for names without line breaks "legible" is the same condition.
   */
  lemma VerifyAcceptsWhatPrepareWrites(p: Platform, unit: Order<string>, inputs: Inputs, out: Directory)
    requires TotalPreorder(p.le) && Sound(p.crypto) && ReleaseError(p, inputs).None? && GoodNames(inputs.artifacts)
    ensures var r := VerifyOutcome(p, unit, ReleaseFiles(p, inputs, out));
            && (inputs.key.Some? ==> (r.Ok? <==> AcceptedNames(inputs.artifacts)))
            && (inputs.key.None? ==>
                  (r.Ok? <==> Legible(p.crypto.hash, ReleaseFiles(p, inputs, out), inputs.artifacts)
                              && StaleAttestationFits(p, out, ReadRecord(p, inputs, out))))
            && (r.Ok? ==> (r.value.signature == Valid <==> inputs.key.Some? || ATTESTATION_FILE in out))
            && (r.Ok? && AcceptedNames(inputs.artifacts) ==>
                  r.value.files == SortBy(unit, Keys(SortRecord(p.le, Checksums(p, inputs)))))
  {
    PrintedSumsReadBack(p, inputs, out);
    AcceptedNamesAreLegible(p.crypto.hash, ReleaseFiles(p, inputs, out), inputs.artifacts);
    if Checked(p, inputs, out).Err? {
      OutcomeOfBadLines(p, unit, ReleaseFiles(p, inputs, out));
    } else {
      OutcomeOfLines(p, unit, ReleaseFiles(p, inputs, out), Checked(p, inputs, out).value);
      if inputs.key.Some? {
        KeyedOutcome(p, inputs, out);
      } else {
        UnsignedAttestation(p, inputs, out, ReadRecord(p, inputs, out));
      }
    }
  }

  lemma KeyedOutcome(p: Platform, inputs: Inputs, out: Directory)
    requires TotalPreorder(p.le) && Sound(p.crypto) && ReleaseError(p, inputs).None? && GoodNames(inputs.artifacts)
    requires inputs.key.Some? && Checked(p, inputs, out).Ok?
    ensures var r := CheckAttestation(p, ReleaseFiles(p, inputs, out), ReadRecord(p, inputs, out));
            (r.Ok? <==> AcceptedNames(inputs.artifacts)) && (r.Ok? ==> r.value == Valid)
  {
    PrintedSumsReadBack(p, inputs, out);
    AcceptedNamesAreLegible(p.crypto.hash, ReleaseFiles(p, inputs, out), inputs.artifacts);
    NoErrorMeansDistinct(inputs.artifacts, {});
    if AcceptedNames(inputs.artifacts) {
      AcceptedRecord(p, inputs, out);
      SignedRelease(p, inputs, out, inputs.key.value);
    } else {
      var i :| 0 <= i < |inputs.artifacts| && '\n' in inputs.artifacts[i].name;
      ReadRecordIsUnbroken(p, inputs, out);
      SignedReleaseRejects(p, inputs, out, i, ReadRecord(p, inputs, out));
    }
  }

  lemma ReadRecordIsUnbroken(p: Platform, inputs: Inputs, out: Directory)
    requires Checked(p, inputs, out).Ok?
    ensures Unbroken(ReadRecord(p, inputs, out)) && Distinct(Keys(ReadRecord(p, inputs, out)))
  {
    CheckedIsUnbroken(p.crypto.hash, ReleaseFiles(p, inputs, out), SplitOn(SumsText(p.le, Checksums(p, inputs)), '\n'));
    AssignAllKeepsUnbroken([], Checked(p, inputs, out).value);
  }

  /** With accepted names, what is read is the printed record, sorted by name, and what is listed its names. */
  lemma AcceptedRecord(p: Platform, inputs: Inputs, out: Directory)
    requires Sound(p.crypto) && ReleaseError(p, inputs).None? && GoodNames(inputs.artifacts)
        && AcceptedNames(inputs.artifacts)
    ensures Checked(p, inputs, out) == Ok(SortRecord(p.le, Checksums(p, inputs)))
    ensures ReadRecord(p, inputs, out) == SortRecord(p.le, Checksums(p, inputs))
  {
    PrintedSumsReadBack(p, inputs, out);
    NoErrorMeansDistinct(inputs.artifacts, {});
    ChecksumNames(p, inputs);
    RebuiltRecord(p.le, Checksums(p, inputs));
  }

  /** Assigning the lines one by one rebuilds the sorted record. */
  lemma RebuiltRecord(le: Order<string>, c: Record)
    requires Distinct(Keys(c)) && forall e :: e in c ==> e.0 != "__proto__"
    ensures AssignAll([], SortRecord(le, c)) == SortRecord(le, c)
  {
    var sorted := SortRecord(le, c);
    SortedRecord(le, c);
    MembersOfPermutation(c, sorted);
    assert [] + sorted == sorted;
    AssignsAppend([], sorted);
  }

  /**
   So an attestation left by an earlier run over checksums `c` lets an unsigned release with accepted
   names through exactly when the release's checksums and `c` are sorted into one list; that they have
   the same entries is necessary for this, and sufficient when the names in `c` do not tie.
   */
  lemma StaleAttestationDecides(p: Platform, unit: Order<string>, inputs: Inputs, out: Directory,
                                c: Record, key: string, createdAt: string)
    requires TotalPreorder(p.le) && Sound(p.crypto) && ReleaseError(p, inputs).None? && inputs.key.None?
    requires GoodNames(inputs.artifacts) && AcceptedNames(inputs.artifacts)
    requires p.crypto.publicKeyOf(key).Some? && Distinct(Keys(c))
    requires SignChecksums(p.le, p.crypto, c, key, createdAt).Some? && ATTESTATION_FILE in out
    requires out[ATTESTATION_FILE] == JsonFile(SignChecksums(p.le, p.crypto, c, key, createdAt).value)
    ensures var accepted, checksums := VerifyOutcome(p, unit, ReleaseFiles(p, inputs, out)).Ok?, Checksums(p, inputs);
            && (accepted <==> SortRecord(p.le, c) == SortRecord(p.le, checksums))
            && (accepted ==> multiset(c) == multiset(checksums))
            && (NoTies(p.le, Keys(c)) ==> (accepted <==> multiset(c) == multiset(checksums)))
  {
    VerifyAcceptsWhatPrepareWrites(p, unit, inputs, out);
    AcceptedNamesAreLegible(p.crypto.hash, ReleaseFiles(p, inputs, out), inputs.artifacts);
    AcceptedRecord(p, inputs, out);
    NoErrorMeansDistinct(inputs.artifacts, {});
    ChecksumNames(p, inputs);
    SortedRecord(p.le, Checksums(p, inputs));
    StaleAttestationFitsItsChecksums(p, out, c, key, createdAt, ReadRecord(p, inputs, out));
    SortedTwice(p.le, Checksums(p, inputs));
    SortedAlikeMeansSameEntries(p.le, c, Checksums(p, inputs));
  }

  // Tampering

  lemma {:induction false} CheckedLinesHold(hash: string -> string, dir: Directory, lines: seq<string>, line: string)
    requires CheckLines(hash, dir, lines).Ok? && line in lines && line != ""
    ensures CheckLine(hash, dir, line).Ok?
  {
    if line != lines[0] {
      assert line in lines[1..];
      CheckedLinesHold(hash, dir, lines[1..], line);
    }
  }

  /** Acceptance means every listed file is there and hashes to what its line says. */
  lemma AcceptedFilesMatch(p: Platform, unit: Order<string>, dir: Directory, line: string)
    requires VerifyOutcome(p, unit, dir).Ok? && line in SplitOn(dir[SUMS_FILE], '\n') && line != ""
    ensures ParseSumLine(line).Some?
    ensures var (name, digest) := ParseSumLine(line).value;
            SafeName(name) && Resolve(name) in dir && p.crypto.hash(dir[Resolve(name)]) == digest
  {
    CheckedLinesHold(p.crypto.hash, dir, SplitOn(dir[SUMS_FILE], '\n'), line);
  }

  /**
   Removing a checksummed file, or giving it contents of another digest, makes verification fail,
   unless there is a line break in the file's name.
   */
  lemma TamperingIsDetected(p: Platform, unit: Order<string>, inputs: Inputs, out: Directory, dir: Directory, i: nat)
    requires Sound(p.crypto) && ReleaseError(p, inputs).None? && GoodNames(inputs.artifacts)
    requires i < |Checksums(p, inputs)| && '\n' !in Checksums(p, inputs)[i].0
    requires SUMS_FILE in dir && dir[SUMS_FILE] == ReleaseFiles(p, inputs, out)[SUMS_FILE]
    requires var (name, digest) := Checksums(p, inputs)[i]; name !in dir || p.crypto.hash(dir[name]) != digest
    ensures VerifyOutcome(p, unit, dir).Err?
  {
    ReleaseIsHashable(p, inputs, out);
    AllListed(p, inputs, ReleaseFiles(p, inputs, out));
    var c := Checksums(p, inputs);
    assert c[i] in c;
    LineOfEntry(p.le, c, c[i]);
    LineParses(c[i].0, c[i].1);
    if VerifyOutcome(p, unit, dir).Ok? {
      AcceptedFilesMatch(p, unit, dir, SumLine(c[i]));
    }
  }

  lemma LineOfEntry(le: Order<string>, c: Record, e: (string, string))
    requires e in c && IsDigest(e.1) && '\n' !in e.0
    ensures SumLine(e) in SplitOn(SumsText(le, c), '\n') && SumLine(e) != ""
  {
    LineHasNoBreak(e);
    SplitWhole(SumLine(e), '\n');
    SumsHasLine(le, c, SumLine(e));
  }

  /** A file with a line break in its name may be removed or changed at will. */
  lemma TamperingBehindALineBreak(p: Platform, unit: Order<string>, dir: Directory, path: string, text: string)
    requires '\n' in path
    ensures VerifyOutcome(p, unit, dir[path := text]) == VerifyOutcome(p, unit, dir - {path})
        == VerifyOutcome(p, unit, dir)
  {
    BrokenFilesAreNeverRead(p, unit, dir[path := text], dir);
    BrokenFilesAreNeverRead(p, unit, dir - {path}, dir);
  }

  // Two releases that do not come back as they went

  lemma SpacedNameIsIllegible(p: Platform, dir: Directory, artifacts: seq<Artifact>, i: nat, k: nat)
    requires i < |artifacts| && k < |artifacts[i].name| && artifacts[i].name[k] == ' ' && '\n' !in artifacts[i].name
    ensures !Legible(p.crypto.hash, dir, artifacts)
  {
    assert !AcceptedName(artifacts[i].name);
    assert !LegibleName(p.crypto.hash, dir, artifacts[i]);
  }

  /** An artifact with a space in its name is prepared, and then refused. */
  lemma SpaceInANameIsRefused(p: Platform, unit: Order<string>, inputs: Inputs, out: Directory, i: nat, k: nat)
    requires TotalPreorder(p.le) && Sound(p.crypto) && ReleaseError(p, inputs).None? && GoodNames(inputs.artifacts)
    requires i < |inputs.artifacts| && '\n' !in inputs.artifacts[i].name
    requires k < |inputs.artifacts[i].name| && inputs.artifacts[i].name[k] == ' '
    ensures VerifyOutcome(p, unit, ReleaseFiles(p, inputs, out)).Err?
  {
    PrintedSumsReadBack(p, inputs, out);
    SpacedNameIsIllegible(p, ReleaseFiles(p, inputs, out), inputs.artifacts, i, k);
    OutcomeOfBadLines(p, unit, ReleaseFiles(p, inputs, out));
  }

  /** An artifact with a line break at the end of its name hides behind one of the same content without it. */
  lemma TrailingBreakIsAccepted(p: Platform, unit: Order<string>, inputs: Inputs, out: Directory, name: string,
                                text: string)
    requires TotalPreorder(p.le) && Sound(p.crypto) && ReleaseError(p, inputs).None? && inputs.key.None?
    requires ATTESTATION_FILE !in out && BaseName(name) && AcceptedName(name)
    requires inputs.artifacts == [Artifact(name, true, text), Artifact(name + "\n", true, text)]
    ensures VerifyOutcome(p, unit, ReleaseFiles(p, inputs, out)).Ok?
  {
    ReleaseIsHashable(p, inputs, out);
    TrailingBreakIsLegible(p.crypto, ReleaseFiles(p, inputs, out), inputs.artifacts, name, text);
    VerifyAcceptsWhatPrepareWrites(p, unit, inputs, out);
  }

  lemma TrailingBreakIsLegible(crypto: Crypto, dir: Directory, artifacts: seq<Artifact>, name: string, text: string)
    requires Sound(crypto) && BaseName(name) && AcceptedName(name)
    requires artifacts == [Artifact(name, true, text), Artifact(name + "\n", true, text)]
    requires forall i :: 0 <= i < |artifacts| ==>
               var path := "artifacts/" + artifacts[i].name; path in dir && dir[path] == artifacts[i].content
    ensures GoodNames(artifacts) && Legible(crypto.hash, dir, artifacts)
  {
    var path := "artifacts/" + name;
    BreakAtTheEnd(name);
    assert artifacts[0] == Artifact(name, true, text);
    ArtifactListed(crypto, artifacts[0], dir);
    BrokenNameReads(crypto.hash, dir, path, crypto.hash(text));
    Associative("artifacts/", name, "\n");
    AcceptedNamesAreLegible(crypto.hash, dir, [artifacts[0]]);
    assert [artifacts[0]][0] == artifacts[0];
    assert LegibleName(crypto.hash, dir, artifacts[0]) && LegibleName(crypto.hash, dir, artifacts[1]);
  }

  lemma BreakAtTheEnd(name: string)
    requires BaseName(name)
    ensures BaseName(name + "\n") && '\n' in name + "\n"
  {
    assert (name + "\n")[|name|] == '\n';
  }

  lemma BrokenNameReads(hash: string -> string, dir: Directory, path: string, digest: string)
    requires Listed(hash, dir, (path, digest)) && SafeName(path)
    ensures ReadsAsLines(hash, dir, (path + "\n", digest))
  {
    SafeNamesAreUnbroken(path);
    assert path + "\n" == path + ['\n'] + "";
    SplitHead(path, '\n', "");
  }
}
