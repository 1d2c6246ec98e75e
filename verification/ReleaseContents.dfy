/** What the files of a finished release say, read back from the output directory. */
module ReleaseContents {
  import opened Wrappers
  import opened Text
  import opened Sorting
  import opened Json
  import opened JsonLaws
  import opened Attestation
  import Canonical
  import opened CanonicalLaws
  import opened Manifest
  import opened ManifestLaws
  import opened ManifestContents
  import opened Lockfile
  import opened LockfileLaws
  import opened Release
  import opened ReleaseLaws
  import opened Documents
  import opened DocumentFields
  import opened ProvenanceFields

  /** The output directory of a run that went through, with the tool's own layout. */
  ghost predicate Finished(p: Platform, inputs: Inputs, out: Directory, about: About, files: Directory) {
    && ReleaseError(p, inputs).None? && inputs.render == ToolRenderer(p.crypto.hash, p.encode, about)
    && files == ReleaseFiles(p, inputs, out)
  }

  /** The file holds this value as JSON. */
  ghost predicate Holds(files: Directory, name: string, v: Value) {
    name in files && Parse(files[name]) == Some(v)
  }

  lemma WrittenFileHolds(files: Directory, name: string, v: Value)
    requires Plain(v) && name in files && files[name] == JsonFile(v)
    ensures Holds(files, name, v)
  {
    ParseUndoesPrint(v, "  ", "\n");
  }

  lemma FilesAreThere(p: Platform, inputs: Inputs, out: Directory, about: About, files: Directory)
    requires Finished(p, inputs, out, about, files)
    ensures Hashable(p, inputs, files)
    ensures SUMS_FILE in files && files[SUMS_FILE] == SumsText(p.le, Checksums(p, inputs))
  {
    ReleaseIsHashable(p, inputs, out);
  }

  // The source manifest

  /** For each entry its digest, two blanks, its path and a line feed. */
  ghost predicate AreLines(lines: seq<string>, entries: seq<Entry>) {
    && |lines| == |entries|
    && forall i :: 0 <= i < |lines| ==> lines[i] == entries[i].sha256 + "  " + entries[i].path + "\n"
  }

  lemma {:induction false} AggregateLines(entries: seq<Entry>) returns (lines: seq<string>)
    ensures AreLines(lines, entries) && AggregateText(entries) == Concat(lines)
  {
    if entries == [] {
      lines := [];
    } else {
      var rest := AggregateLines(entries[1..]);
      lines := [entries[0].sha256 + "  " + entries[0].path + "\n"] + rest;
      assert lines[1..] == rest;
    }
  }

  /** The digest that `source-manifest.json` states. */
  ghost predicate StatesDigest(files: Directory, aggregate: string) {
    exists v :: Holds(files, "source-manifest.json", v) && Get(v, "aggregateSha256") == Str(aggregate)
  }

  lemma ManifestIsThere(p: Platform, inputs: Inputs, out: Directory, about: About, files: Directory)
    requires Finished(p, inputs, out, about, files)
    ensures Holds(files, "source-manifest.json",
                  ManifestDocument(about, ManifestEntries(p, inputs), Aggregate(p, inputs)))
    ensures StatesDigest(files, Aggregate(p, inputs))
  {
    var entries, aggregate := ManifestEntries(p, inputs), Aggregate(p, inputs);
    var v := ManifestDocument(about, entries, aggregate);
    FilesAreThere(p, inputs, out, about, files);
    ManifestIsPlain(about, entries, aggregate);
    WrittenFileHolds(files, "source-manifest.json", v);
    FieldAt(v.members, 4, "aggregateSha256");
  }

  /**
   The source manifest lists, in ascending order, the files and links of the tree that are not left out,
   each with what is recorded of it, and the hash of all their digests and paths.
   */
  lemma ManifestSays(p: Platform, inputs: Inputs, out: Directory, about: About, files: Directory)
    returns (v: Value, entries: seq<Entry>, lines: seq<string>)
    requires Finished(p, inputs, out, about, files) && ProperTree(inputs.root) && TotalPreorder(p.le)
    ensures Holds(files, "source-manifest.json", v) && AreLines(lines, entries)
    ensures IsManifest(v, about, entries, p.crypto.hash(Concat(lines)))
    ensures AllInOrder(p.le, [], entries)
    ensures forall e :: e in entries <==> exists path :: IsRecorded(p.crypto.hash, inputs.root, path, e)
  {
    entries := ManifestEntries(p, inputs);
    v := ManifestDocument(about, entries, Aggregate(p, inputs));
    lines := AggregateLines(entries);
    ManifestIsThere(p, inputs, out, about, files);
    forall e | e in entries ensures Recorded(e) {
      ListedIsRecorded(p, inputs, e);
    }
    ManifestFields(about, entries, Aggregate(p, inputs));
    ManifestInOrder(p.le, p.crypto.hash, inputs.root);
    forall e ensures e in entries <==> exists path :: IsRecorded(p.crypto.hash, inputs.root, path, e) {
      ManifestRecordsTheTree(p.le, p.crypto.hash, inputs.root, e);
    }
  }

  // The bills of materials

  /** In ascending order, the components that come from the entries of the package lock. */
  ghost predicate AreComponents(p: Platform, packages: seq<(string, Value)>, components: seq<Component>) {
    && Ascending(p.le, components)
    && exists kept, at ::
         ComeFrom(p.encode, packages, kept, at) && multiset(components) == multiset(kept)
  }

  lemma ComponentsAre(p: Platform, packages: seq<(string, Value)>)
    requires TotalPreorder(p.le)
    ensures AreComponents(p, packages, Components(p.le, p.encode, packages))
  {
    var kept, at := ComponentsAreTheEntries(p.le, p.encode, packages);
  }

  /** The CycloneDX file lists the components of the lock and states the digest of the manifest. */
  lemma CycloneSays(p: Platform, inputs: Inputs, out: Directory, about: About, files: Directory)
    returns (v: Value, components: seq<Component>, aggregate: string)
    requires Finished(p, inputs, out, about, files) && TotalPreorder(p.le)
    ensures Holds(files, "sbom.cyclonedx.json", v) && IsCyclone(v, p.encode, about, components, aggregate)
    ensures AreComponents(p, inputs.packages, components) && StatesDigest(files, aggregate)
  {
    components, aggregate := Components(p.le, p.encode, inputs.packages), Aggregate(p, inputs);
    v := CycloneDocument(p.encode, about, components, aggregate);
    FilesAreThere(p, inputs, out, about, files);
    CycloneDocumentIsPlain(p.encode, about, components, aggregate);
    WrittenFileHolds(files, "sbom.cyclonedx.json", v);
    CycloneDocumentFields(p.encode, about, components, aggregate);
    ComponentsAre(p, inputs.packages);
    ManifestIsThere(p, inputs, out, about, files);
  }

  /** The SPDX file lists the root and, behind it, the same components. */
  lemma SpdxSays(p: Platform, inputs: Inputs, out: Directory, about: About, files: Directory)
    returns (v: Value, components: seq<Component>, aggregate: string)
    requires Finished(p, inputs, out, about, files) && TotalPreorder(p.le)
    ensures Holds(files, "sbom.spdx.json", v) && IsSpdx(v, p.encode, about, components, aggregate)
    ensures AreComponents(p, inputs.packages, components) && StatesDigest(files, aggregate)
  {
    components, aggregate := Components(p.le, p.encode, inputs.packages), Aggregate(p, inputs);
    v := SpdxDocument(p.encode, about, components, aggregate);
    FilesAreThere(p, inputs, out, about, files);
    SpdxDocumentIsPlain(p.encode, about, components, aggregate);
    WrittenFileHolds(files, "sbom.spdx.json", v);
    SpdxDocumentFields(p.encode, about, components, aggregate);
    ComponentsAre(p, inputs.packages);
    ManifestIsThere(p, inputs, out, about, files);
  }

  // The provenance

  /** Each artifact with the hash of its content. */
  function Built(hash: string -> string, artifacts: seq<Artifact>): seq<(string, string)> {
    seq(|artifacts|, i requires 0 <= i < |artifacts| => (artifacts[i].name, hash(artifacts[i].content)))
  }

  /** In ascending order of names. */
  ghost predicate InNameOrder(le: Order<string>, r: seq<(string, string)>) {
    forall i, j :: 0 <= i < j < |r| ==> le(r[i].0, r[j].0)
  }

  lemma SortedByName(le: Order<string>, r: Record)
    requires TotalPreorder(le)
    ensures InNameOrder(le, SortBy(ByKey<string>(le), r)) && multiset(SortBy(ByKey<string>(le), r)) == multiset(r)
  {
    ByKeyIsAPreorder<string>(le);
    SortBySorts(ByKey<string>(le), r);
    var sorted := SortBy(ByKey<string>(le), r);
    forall i, j | 0 <= i < j < |sorted| ensures le(sorted[i].0, sorted[j].0) {
      assert ByKey<string>(le)(sorted[i], sorted[j]);
    }
  }

  /** The provenance names every artifact and the source manifest, with the hashes of what the files hold. */
  lemma ProvenanceSays(p: Platform, inputs: Inputs, out: Directory, about: About, files: Directory)
    returns (v: Value, subjects: seq<(string, string)>, aggregate: string)
    requires Finished(p, inputs, out, about, files) && TotalPreorder(p.le)
    ensures Holds(files, "provenance.intoto.jsonl", v) && StatesDigest(files, aggregate)
    ensures IsStatement(v, p.crypto.hash, about, subjects, aggregate)
    ensures "source-manifest.json" in files && InNameOrder(p.le, subjects)
    ensures multiset(subjects) == multiset(Built(p.crypto.hash, inputs.artifacts)
                                           + [("source-manifest.json", p.crypto.hash(files["source-manifest.json"]))])
  {
    var hash := p.crypto.hash;
    subjects, aggregate := Subjects(p, inputs), Aggregate(p, inputs);
    var document := ProvenanceDocument(hash, about, subjects, aggregate);
    v := Canonical.Normal(p.le, document);
    FilesAreThere(p, inputs, out, about, files);
    ManifestIsThere(p, inputs, out, about, files);
    StatementIsPlain(p.le, hash, about, subjects, aggregate);
    CanonicalLineParses(p.le, document);
    StatementFields(p.le, hash, about, subjects, aggregate);
    BuiltAreDigests(hash, inputs.artifacts);
    SortedByName(p.le, Digests(hash, inputs.artifacts, "") + [(MANIFEST_FILE, hash(ManifestText(p, inputs)))]);
  }

  lemma BuiltAreDigests(hash: string -> string, artifacts: seq<Artifact>)
    ensures Digests(hash, artifacts, "") == Built(hash, artifacts)
  {
    forall i | 0 <= i < |artifacts| ensures Digests(hash, artifacts, "")[i] == Built(hash, artifacts)[i] {
      assert "" + artifacts[i].name == artifacts[i].name;
    }
  }

  /** A canonical text parses with a line feed behind it. */
  lemma CanonicalLineParses(le: Order<string>, v: Value)
    requires Plain(v)
    ensures Parse(Canonical.CanonicalJson(le, v) + "\n") == Some(Canonical.Normal(le, v))
  {
    PlainIsPrintable(v);
    Canonical.CanonicalIsCompactNormal(le, v);
    Canonical.NormalIsPlain(le, v);
    ParseUndoesPrint(Canonical.Normal(le, v), "", "\n");
  }
}
