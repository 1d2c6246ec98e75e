/**
 The layout of the four documents a release writes, and what can be read off them.

 The laws of the release hold for every layout; this one is the tool's own.
 */
module Documents {
  import opened Wrappers
  import opened Sorting
  import opened Json
  import opened JsonLaws
  import opened Attestation
  import opened Manifest
  import opened ManifestLaws
  import opened Lockfile
  import opened Release

  /** What a document says besides what was found: `packageJson`, the time and the options of a run. */
  datatype About = About(name: string, version: string, generatedAt: string, builderId: string,
                         sourceDateEpoch: Option<int>)

  // The source manifest

  /** `mode`: the permission bits, three octal digits behind a zero. */
  function ModeText(mode: nat): string {
    "0" + [HexDigit(mode / 64 % 8), HexDigit(mode / 8 % 8), HexDigit(mode % 8)]
  }

  function EntryMembers(e: Entry): seq<(string, Value)> {
    [("path", Str(e.path)), ("type", Str(if e.kind.RegularFile? then "file" else "symlink")), ("bytes", Int(e.bytes)),
     ("sha256", Str(e.sha256)), ("mode", Str(ModeText(e.mode)))]
    + if e.linkTarget.Some? then [("linkTarget", Str(e.linkTarget.value))] else []
  }

  function EntryValues(entries: seq<Entry>): (r: seq<Value>)
    ensures |r| == |entries| && forall i :: 0 <= i < |r| ==> r[i] == Obj(EntryMembers(entries[i]))
  {
    seq(|entries|, i requires 0 <= i < |entries| => Obj(EntryMembers(entries[i])))
  }

  function ManifestDocument(about: About, entries: seq<Entry>, aggregate: string): Value {
    Obj([("schemaVersion", Int(1)),
         ("project", Obj([("name", Str(about.name)), ("version", Str(about.version))])),
         ("generatedAt", Str(about.generatedAt)),
         ("entries", Arr(EntryValues(entries))),
         ("aggregateSha256", Str(aggregate))])
  }

  // The bills of materials

  function CycloneComponent(c: Component): Value {
    Obj([("type", Str("library")), ("bom-ref", Str(c.purl)), ("name", Str(c.name)), ("version", Str(c.version)),
         ("purl", Str(c.purl))]
        + (if c.license.Some? && c.license.value != ""
           then [("licenses", Arr([Obj([("license", Obj([("id", Str(c.license.value))]))])]))] else [])
        + [("properties", Arr([Property("haf:lockPath", c.path)]))])
  }

  function Property(name: string, value: string): Value {
    Obj([("name", Str(name)), ("value", Str(value))])
  }

  function CycloneComponents(components: seq<Component>): (r: seq<Value>)
    ensures |r| == |components| && forall i :: 0 <= i < |r| ==> r[i] == CycloneComponent(components[i])
  {
    seq(|components|, i requires 0 <= i < |components| => CycloneComponent(components[i]))
  }

  function Application(encode: string -> string, about: About): Value {
    Obj([("type", Str("application")),
         ("bom-ref", Str("pkg:npm/" + EncodePurl(encode, about.name) + "@" + about.version)),
         ("name", Str(about.name)), ("version", Str(about.version))])
  }

  function CycloneMetadata(encode: string -> string, about: About, aggregate: string): Value {
    Obj([("timestamp", Str(about.generatedAt)), ("component", Application(encode, about)),
         ("properties", Arr([Property("haf:sourceManifestSha256", aggregate)]))])
  }

  function CycloneDocument(encode: string -> string, about: About, components: seq<Component>,
                           aggregate: string): Value {
    Obj([("bomFormat", Str("CycloneDX")), ("specVersion", Str("1.5")), ("version", Int(1)),
         ("metadata", CycloneMetadata(encode, about, aggregate)), ("components", Arr(CycloneComponents(components)))])
  }

  /** `SPDXRef-Package-` and the number of the package, from one on. */
  function PackageId(index: nat): string {
    "SPDXRef-Package-" + Digits(index + 1)
  }

  const ROOT_ID := "SPDXRef-Root"

  function License(c: Component): Value {
    if c.license.Some? then Str(c.license.value) else Str("NOASSERTION")
  }

  function SpdxPackage(c: Component, index: nat): Value {
    Obj([("name", Str(c.name)), ("SPDXID", Str(PackageId(index))), ("versionInfo", Str(c.version)),
         ("downloadLocation", Str("NOASSERTION")), ("filesAnalyzed", Bool(false)),
         ("licenseConcluded", License(c)), ("licenseDeclared", License(c)),
         ("externalRefs", Arr([Obj([("referenceCategory", Str("PACKAGE-MANAGER")), ("referenceType", Str("purl")),
                                    ("referenceLocator", Str(c.purl))])]))])
  }

  function SpdxRoot(about: About, aggregate: string): Value {
    Obj([("name", Str(about.name)), ("SPDXID", Str(ROOT_ID)), ("versionInfo", Str(about.version)),
         ("downloadLocation", Str("NOASSERTION")), ("filesAnalyzed", Bool(false)),
         ("checksums", Arr([Obj([("algorithm", Str("SHA256")), ("checksumValue", Str(aggregate))])]))])
  }

  function SpdxPackages(about: About, components: seq<Component>, aggregate: string): (r: seq<Value>)
    ensures |r| == |components| + 1 && r[0] == SpdxRoot(about, aggregate)
    ensures forall i :: 0 <= i < |components| ==> r[i + 1] == SpdxPackage(components[i], i)
  {
    [SpdxRoot(about, aggregate)] + seq(|components|, i requires 0 <= i < |components| => SpdxPackage(components[i], i))
  }

  function SpdxRelationship(index: nat): Value {
    Obj([("spdxElementId", Str(ROOT_ID)), ("relationshipType", Str("DEPENDS_ON")),
         ("relatedSpdxElement", Str(PackageId(index)))])
  }

  function SpdxRelationships(n: nat): (r: seq<Value>)
    ensures |r| == n && forall i :: 0 <= i < n ==> r[i] == SpdxRelationship(i)
  {
    seq(n, i requires 0 <= i => SpdxRelationship(i))
  }

  function SpdxDocument(encode: string -> string, about: About, components: seq<Component>, aggregate: string): Value {
    Obj([("spdxVersion", Str("SPDX-2.3")), ("dataLicense", Str("CC0-1.0")), ("SPDXID", Str("SPDXRef-DOCUMENT")),
         ("name", Str(about.name + "-" + about.version)),
         ("documentNamespace", Str("https://arena.ai/spdx/" + encode(about.name) + "/" + about.version + "/"
                                   + aggregate)),
         ("creationInfo", Obj([("created", Str(about.generatedAt)),
                               ("creators", Arr([Str("Tool: haf-release-1.38.0")]))])),
         ("packages", Arr(SpdxPackages(about, components, aggregate))),
         ("relationships", Arr(SpdxRelationships(|components|)))])
  }

  // The provenance

  /** `slice(from, to)`. */
  function Slice(s: string, from: nat, to: nat): string
    requires from <= to
  {
    if |s| <= from then "" else if |s| <= to then s[from..] else s[from..to]
  }

  /** A version 4 identifier made of the manifest's digest and the time. */
  function InvocationId(hash: string -> string, aggregate: string, time: string): string {
    var hex := hash(aggregate + "\0" + time);
    Slice(hex, 0, 8) + "-" + Slice(hex, 8, 12) + "-4" + Slice(hex, 13, 16) + "-a" + Slice(hex, 17, 20) + "-"
        + Slice(hex, 20, 32)
  }

  function SubjectValues(subjects: Record): (r: seq<Value>)
    ensures |r| == |subjects|
    ensures forall i :: 0 <= i < |r| ==> r[i] == SubjectValue(subjects[i])
  {
    seq(|subjects|, i requires 0 <= i < |subjects| => SubjectValue(subjects[i]))
  }

  function SubjectValue(subject: (string, string)): Value {
    Obj([("name", Str(subject.0)), ("digest", Obj([("sha256", Str(subject.1))]))])
  }

  function Uri(uri: string): Value {
    Obj([("uri", Str(uri))])
  }

  const OPEN_HANDS := "git+https://github.com/OpenHands/OpenHands@c41bda23d6b648bf3a30422ab9d71bd7675caea1"
  const PRIME_AGENT := "git+https://github.com/PrimeIntellect-ai/prime-agent@e85a67ac4ad7fef2f2a5b922a78fcede85786ac7"
  const HERMES_AGENT := "git+https://github.com/NousResearch/hermes-agent@77d6c78cf52ec9f2c3245174cf763ff32a75d572"

  function Uris(uris: seq<string>): (r: seq<Value>)
    ensures |r| == |uris| && forall i :: 0 <= i < |r| ==> r[i] == Uri(uris[i])
  {
    seq(|uris|, i requires 0 <= i < |uris| => Uri(uris[i]))
  }

  /** What was built from: three projects at fixed commits, and the sources of the manifest. */
  function Dependencies(aggregate: string): seq<string> {
    [OPEN_HANDS, PRIME_AGENT, HERMES_AGENT, "urn:sha256:" + aggregate]
  }

  function BuildDefinition(about: About, dependencies: seq<string>): Value {
    var epoch := if about.sourceDateEpoch.Some? then Int(about.sourceDateEpoch.value) else Null;
    Obj([("buildType", Str("https://arena.ai/hybrid-agent-fabric/build/v1")),
         ("externalParameters", Obj([("sourceDateEpoch", epoch)])), ("internalParameters", Obj([])),
         ("resolvedDependencies", Arr(Uris(dependencies)))])
  }

  function RunMetadata(hash: string -> string, about: About, aggregate: string): Value {
    Obj([("invocationId", Str(InvocationId(hash, aggregate, about.generatedAt))),
         ("startedOn", Str(about.generatedAt)), ("finishedOn", Str(about.generatedAt))])
  }

  function RunDetails(hash: string -> string, about: About, aggregate: string): Value {
    Obj([("builder", Obj([("id", Str(about.builderId))])), ("metadata", RunMetadata(hash, about, aggregate))])
  }

  function ProvenanceDocument(hash: string -> string, about: About, subjects: Record, aggregate: string): Value {
    Obj([("_type", Str("https://in-toto.io/Statement/v1")), ("subject", Arr(SubjectValues(subjects))),
         ("predicateType", Str("https://slsa.dev/provenance/v1")),
         ("predicate", Obj([("buildDefinition", BuildDefinition(about, Dependencies(aggregate))),
                            ("runDetails", RunDetails(hash, about, aggregate))]))])
  }

  /** The tool's own layout. */
  function ToolRenderer(hash: string -> string, encode: string -> string, about: About): Renderer {
    Renderer((entries, aggregate) => ManifestDocument(about, entries, aggregate),
             (components, aggregate) => CycloneDocument(encode, about, components, aggregate),
             (components, aggregate) => SpdxDocument(encode, about, components, aggregate),
             (subjects, aggregate) => ProvenanceDocument(hash, about, subjects, aggregate))
  }

  // The manifest file determines what was listed

  /** What the walk records of a file or a symbolic link. */
  predicate Recorded(e: Entry) {
    e.mode < 512 && (e.kind.SymbolicLink? <==> e.linkTarget.Some?)
  }

  lemma OctalDigits(a: nat, b: nat)
    requires a < 8 && b < 8 && HexDigit(a) == HexDigit(b)
    ensures a == b
  {
  }

  lemma ModesReadBack(a: nat, b: nat)
    requires a < 512 && b < 512 && ModeText(a) == ModeText(b)
    ensures a == b
  {
    var s, t := ModeText(a), ModeText(b);
    assert s[1] == t[1] && s[2] == t[2] && s[3] == t[3];
    OctalDigits(a / 64 % 8, b / 64 % 8);
    OctalDigits(a / 8 % 8, b / 8 % 8);
    OctalDigits(a % 8, b % 8);
    EightTimes(a);
    EightTimes(b);
  }

  lemma EightTimes(a: nat)
    requires a < 512
    ensures a == a / 64 % 8 * 64 + a / 8 % 8 * 8 + a % 8
  {
  }

  lemma EntriesReadBack(a: Entry, b: Entry)
    requires Recorded(a) && Recorded(b) && EntryMembers(a) == EntryMembers(b)
    ensures a == b
  {
    var m, n := EntryMembers(a), EntryMembers(b);
    assert m[0] == n[0] && m[1] == n[1] && m[2] == n[2] && m[3] == n[3] && m[4] == n[4];
    assert "file"[0] == 'f' && "symlink"[0] == 's';
    ModesReadBack(a.mode, b.mode);
    if a.linkTarget.Some? {
      assert m[5] == n[5];
    }
  }

  lemma EntryIsPlain(e: Entry)
    ensures Plain(Obj(EntryMembers(e)))
  {
    var m := EntryMembers(e);
    assert "path"[0] == 'p' && "type"[0] == 't' && "bytes"[0] == 'b' && "sha256"[0] == 's' && "mode"[0] == 'm'
        && "linkTarget"[0] == 'l';
    assert forall i, j :: 0 <= i < j < |m| ==> Keys(m)[i][0] != Keys(m)[j][0];
  }

  lemma ManifestIsPlain(about: About, entries: seq<Entry>, aggregate: string)
    ensures Plain(ManifestDocument(about, entries, aggregate))
  {
    var document := ManifestDocument(about, entries, aggregate);
    forall i | 0 <= i < |entries| ensures Plain(EntryValues(entries)[i]) {
      EntryIsPlain(entries[i]);
    }
    assert "schemaVersion"[0] == 's' && "project"[0] == 'p' && "generatedAt"[0] == 'g' && "entries"[0] == 'e';
    assert "aggregateSha256"[0] == 'a' && "name"[0] == 'n' && "version"[0] == 'v';
    assert forall i, j :: 0 <= i < j < 5 ==> Keys(document.members)[i][0] != Keys(document.members)[j][0];
  }

  lemma FilesReadBack(v: Value, w: Value)
    requires Plain(v) && Plain(w) && JsonFile(v) == JsonFile(w)
    ensures v == w
  {
    ParseUndoesPrint(v, "  ", "\n");
    ParseUndoesPrint(w, "  ", "\n");
  }

  lemma ManifestDocumentsReadBack(a: About, entries: seq<Entry>, aggregate: string,
                                  b: About, entries': seq<Entry>, aggregate': string)
    requires (forall e :: e in entries ==> Recorded(e)) && (forall e :: e in entries' ==> Recorded(e))
    requires ManifestDocument(a, entries, aggregate) == ManifestDocument(b, entries', aggregate')
    ensures a.name == b.name && a.version == b.version && a.generatedAt == b.generatedAt
    ensures entries == entries' && aggregate == aggregate'
  {
    var m, n := ManifestDocument(a, entries, aggregate).members, ManifestDocument(b, entries', aggregate').members;
    assert m[1] == n[1] && m[2] == n[2] && m[3] == n[3] && m[4] == n[4];
    assert m[1].1.members[0] == n[1].1.members[0] && m[1].1.members[1] == n[1].1.members[1];
    assert EntryValues(entries) == EntryValues(entries');
    forall i | 0 <= i < |entries| ensures entries[i] == entries'[i] {
      assert EntryValues(entries)[i] == EntryValues(entries')[i];
      assert entries[i] in entries && entries'[i] in entries';
      EntriesReadBack(entries[i], entries'[i]);
    }
  }

  lemma ListedIsRecorded(p: Platform, inputs: Inputs, e: Entry)
    requires ProperTree(inputs.root) && e in ManifestEntries(p, inputs)
    ensures Recorded(e)
  {
    ManifestListsExactly(p.le, p.crypto.hash, inputs.root, e);
  }

  /** Manifest files are equal only for equal projects, times, entries and digests. */
  lemma ManifestFileTellsAll(p: Platform, a: Inputs, b: Inputs, x: About, y: About)
    requires ProperTree(a.root) && ProperTree(b.root)
    requires a.render == ToolRenderer(p.crypto.hash, p.encode, x)
        && b.render == ToolRenderer(p.crypto.hash, p.encode, y)
    requires ManifestText(p, a) == ManifestText(p, b)
    ensures x.name == y.name && x.version == y.version && x.generatedAt == y.generatedAt
    ensures ManifestEntries(p, a) == ManifestEntries(p, b)
  {
    forall e | e in ManifestEntries(p, a) ensures Recorded(e) { ListedIsRecorded(p, a, e); }
    forall e | e in ManifestEntries(p, b) ensures Recorded(e) { ListedIsRecorded(p, b, e); }
    ManifestIsPlain(x, ManifestEntries(p, a), Aggregate(p, a));
    ManifestIsPlain(y, ManifestEntries(p, b), Aggregate(p, b));
    FilesReadBack(ManifestDocument(x, ManifestEntries(p, a), Aggregate(p, a)),
                  ManifestDocument(y, ManifestEntries(p, b), Aggregate(p, b)));
    ManifestDocumentsReadBack(x, ManifestEntries(p, a), Aggregate(p, a), y, ManifestEntries(p, b), Aggregate(p, b));
  }

  // SPDX identifiers

  function SpdxId(v: Value): Value {
    Get(v, "SPDXID")
  }

  lemma PackageIdsDiffer(i: nat, j: nat)
    requires PackageId(i) == PackageId(j)
    ensures i == j
  {
    DropPrefix("SPDXRef-Package-", Digits(i + 1), Digits(j + 1));
    DigitsRead(i + 1);
    DigitsRead(j + 1);
  }

  lemma RootIdDiffers(i: nat)
    ensures PackageId(i) != ROOT_ID
  {
    assert ROOT_ID[8] == 'R' && PackageId(i)[8] == 'P';
  }

  lemma DropPrefix(prefix: string, a: string, b: string)
    requires prefix + a == prefix + b
    ensures a == b
  {
    assert (prefix + a)[|prefix|..] == a && (prefix + b)[|prefix|..] == b;
  }

  lemma SpdxIdOf(c: Component, about: About, aggregate: string, index: nat)
    ensures SpdxId(SpdxPackage(c, index)) == Str(PackageId(index)) && SpdxId(SpdxRoot(about, aggregate)) == Str(ROOT_ID)
  {
    assert "name"[0] == 'n' && "SPDXID"[0] == 'S';
    LooksUp(SpdxPackage(c, index).members, 1);
    LooksUp(SpdxRoot(about, aggregate).members, 1);
  }

  /**
   No two packages of the SPDX document share an identifier, and its relationships say that the root
   depends on each of the others, in order.
   */
  lemma SpdxRelatesThePackages(about: About, components: seq<Component>, aggregate: string, i: nat, j: nat)
    requires i < |components|
    ensures var packages, relationships := SpdxPackages(about, components, aggregate), SpdxRelationships(|components|);
            && |relationships| + 1 == |packages| && Get(relationships[i], "spdxElementId") == SpdxId(packages[0])
            && Get(relationships[i], "relatedSpdxElement") == SpdxId(packages[i + 1])
            && (j < |packages| && j != i + 1 ==> SpdxId(packages[j]) != SpdxId(packages[i + 1]))
  {
    SpdxIdOf(components[i], about, aggregate, i);
    RelationshipFields(i);
    if j == 0 {
      RootIdDiffers(i);
    } else if j <= |components| && j != i + 1 {
      SpdxIdOf(components[j - 1], about, aggregate, j - 1);
      if PackageId(i) == PackageId(j - 1) {
        PackageIdsDiffer(i, j - 1);
      }
    }
  }

  lemma RelationshipFields(i: nat)
    ensures Get(SpdxRelationship(i), "spdxElementId") == Str(ROOT_ID)
    ensures Get(SpdxRelationship(i), "relatedSpdxElement") == Str(PackageId(i))
  {
    assert "spdxElementId"[0] == 's' && "relationshipType"[5] == 'i' && "relatedSpdxElement"[5] == 'e'
        && "relatedSpdxElement"[0] == 'r';
    LooksUp(SpdxRelationship(i).members, 0);
    LooksUp(SpdxRelationship(i).members, 2);
  }
}
