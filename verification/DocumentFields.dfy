/** The fields of the documents a release writes. */
module DocumentFields {
  import opened Wrappers
  import opened Sorting
  import opened Json
  import opened JsonLaws
  import opened Attestation
  import opened Manifest
  import opened Lockfile
  import opened LockfileLaws
  import opened Documents

  // Objects

  lemma FieldAt(members: seq<(string, Value)>, i: nat, name: string)
    requires Distinct(Keys(members)) && i < |members| && members[i].0 == name
    ensures Get(Obj(members), name) == members[i].1
  {
    assert forall j :: 0 <= j < i ==> Keys(members)[j] != Keys(members)[i];
    LooksUp(members, i);
  }

  lemma NoField(members: seq<(string, Value)>, name: string)
    requires name !in Keys(members)
    ensures Get(Obj(members), name) == Undefined
  {
    NotLookedUp(members, name);
  }

  // CycloneDX

  ghost predicate IsProperty(v: Value, name: string, value: string) {
    v == Obj([("name", Str(name)), ("value", Str(value))])
  }

  /** The library a component of the lock is. */
  ghost predicate IsLibrary(v: Value, c: Component) {
    && Get(v, "type") == Str("library") && Get(v, "bom-ref") == Str(c.purl) && Get(v, "name") == Str(c.name)
    && Get(v, "version") == Str(c.version) && Get(v, "purl") == Str(c.purl)
    && Get(v, "properties") == Arr([Obj([("name", Str("haf:lockPath")), ("value", Str(c.path))])])
    && Get(v, "licenses") ==
       match c.license
       case None => Undefined
       case Some(id) => if id == "" then Undefined else Arr([Obj([("license", Obj([("id", Str(id))]))])])
  }

  lemma PairIsPlain(a: string, v: Value, b: string, w: Value)
    requires a != b && Plain(v) && Plain(w)
    ensures Plain(Obj([(a, v), (b, w)]))
  {
    var m := [(a, v), (b, w)];
    assert Keys(m) == [a, b];
  }

  lemma OneIsPlain(a: string, v: Value)
    requires Plain(v)
    ensures Plain(Obj([(a, v)]))
  {
  }

  lemma PropertyIsPlain(name: string, value: string)
    ensures Plain(Property(name, value)) && IsProperty(Property(name, value), name, value)
  {
    assert "name"[0] == 'n' && "value"[0] == 'v';
    PairIsPlain("name", Str(name), "value", Str(value));
  }

  lemma CycloneKeysDiffer(c: Component)
    ensures Distinct(Keys(CycloneComponent(c).members))
    ensures c.license.None? || c.license.value == "" ==> "licenses" !in Keys(CycloneComponent(c).members)
  {
    var m := CycloneComponent(c).members;
    assert "type"[0] == 't' && "bom-ref"[0] == 'b' && "name"[0] == 'n' && "version"[0] == 'v' && "purl"[0] == 'p'
        && "purl"[1] == 'u' && "licenses"[0] == 'l' && "properties"[0] == 'p' && "properties"[1] == 'r';
    assert forall i, j :: 0 <= i < j < |m| ==> Keys(m)[i][0] != Keys(m)[j][0] || Keys(m)[i][1] != Keys(m)[j][1];
  }

  lemma CycloneComponentFields(c: Component)
    ensures IsLibrary(CycloneComponent(c), c)
  {
    var m := CycloneComponent(c).members;
    CycloneKeysDiffer(c);
    FieldAt(m, 0, "type");
    FieldAt(m, 1, "bom-ref");
    FieldAt(m, 2, "name");
    FieldAt(m, 3, "version");
    FieldAt(m, 4, "purl");
    FieldAt(m, |m| - 1, "properties");
    if c.license.Some? && c.license.value != "" {
      FieldAt(m, 5, "licenses");
    } else {
      NoField(m, "licenses");
    }
  }

  lemma CycloneComponentIsPlain(c: Component)
    ensures Plain(CycloneComponent(c))
  {
    var m := CycloneComponent(c).members;
    CycloneKeysDiffer(c);
    PropertyIsPlain("haf:lockPath", c.path);
    if c.license.Some? && c.license.value != "" {
      OneIsPlain("id", Str(c.license.value));
      OneIsPlain("license", Obj([("id", Str(c.license.value))]));
    }
  }

  ghost predicate IsCyclone(v: Value, encode: string -> string, about: About, components: seq<Component>,
                            aggregate: string) {
    && Get(v, "bomFormat") == Str("CycloneDX") && Get(v, "specVersion") == Str("1.5") && Get(v, "version") == Int(1)
    && IsCycloneMetadata(Get(v, "metadata"), encode, about, aggregate)
    && Get(v, "components").Arr? && |Get(v, "components").items| == |components|
    && forall i :: 0 <= i < |components| ==> IsLibrary(Get(v, "components").items[i], components[i])
  }

  ghost predicate IsCycloneMetadata(v: Value, encode: string -> string, about: About, aggregate: string) {
    && Get(v, "timestamp") == Str(about.generatedAt)
    && Get(v, "properties") == Arr([Obj([("name", Str("haf:sourceManifestSha256")), ("value", Str(aggregate))])])
    && IsApplication(Get(v, "component"), encode, about)
  }

  ghost predicate IsApplication(v: Value, encode: string -> string, about: About) {
    && Get(v, "type") == Str("application") && Get(v, "name") == Str(about.name)
    && Get(v, "version") == Str(about.version)
    && Get(v, "bom-ref").Str? && Locates(encode, about, Get(v, "bom-ref").s)
  }

  /** A package URL whose version is not encoded. */
  ghost predicate Locates(encode: string -> string, about: About, ref: string) {
    exists text: string :: EncodesName(encode, about.name, text) && ref == "pkg:npm/" + text + "@" + about.version
  }

  lemma ApplicationKeysDiffer(encode: string -> string, about: About)
    ensures Distinct(Keys(Application(encode, about).members))
  {
    var m := Application(encode, about).members;
    assert "type"[0] == 't' && "bom-ref"[0] == 'b' && "name"[0] == 'n' && "version"[0] == 'v';
    assert forall i, j :: 0 <= i < j < |m| ==> Keys(m)[i][0] != Keys(m)[j][0];
  }

  lemma ApplicationIsPlain(encode: string -> string, about: About)
    ensures Plain(Application(encode, about))
  {
    ApplicationKeysDiffer(encode, about);
  }

  lemma ApplicationFields(encode: string -> string, about: About)
    ensures IsApplication(Application(encode, about), encode, about)
  {
    var m := Application(encode, about).members;
    ApplicationKeysDiffer(encode, about);
    FieldAt(m, 0, "type");
    FieldAt(m, 1, "bom-ref");
    FieldAt(m, 2, "name");
    FieldAt(m, 3, "version");
    ApplicationLocates(encode, about);
  }

  lemma ApplicationLocates(encode: string -> string, about: About)
    ensures Locates(encode, about, "pkg:npm/" + EncodePurl(encode, about.name) + "@" + about.version)
  {
    PurlOf(encode, about.name, about.version);
  }

  lemma CycloneMetadataKeysDiffer(encode: string -> string, about: About, aggregate: string)
    ensures Distinct(Keys(CycloneMetadata(encode, about, aggregate).members))
  {
    var m := CycloneMetadata(encode, about, aggregate).members;
    assert "timestamp"[0] == 't' && "component"[0] == 'c' && "properties"[0] == 'p';
    assert forall i, j :: 0 <= i < j < |m| ==> Keys(m)[i][0] != Keys(m)[j][0];
  }

  lemma CycloneMetadataIsPlain(encode: string -> string, about: About, aggregate: string)
    ensures Plain(CycloneMetadata(encode, about, aggregate))
  {
    CycloneMetadataKeysDiffer(encode, about, aggregate);
    ApplicationIsPlain(encode, about);
    PropertyIsPlain("haf:sourceManifestSha256", aggregate);
  }

  lemma CycloneMetadataFields(encode: string -> string, about: About, aggregate: string)
    ensures IsCycloneMetadata(CycloneMetadata(encode, about, aggregate), encode, about, aggregate)
  {
    var m := CycloneMetadata(encode, about, aggregate).members;
    CycloneMetadataKeysDiffer(encode, about, aggregate);
    FieldAt(m, 0, "timestamp");
    FieldAt(m, 1, "component");
    FieldAt(m, 2, "properties");
    ApplicationFields(encode, about);
  }

  lemma CycloneDocumentKeysDiffer(encode: string -> string, about: About, components: seq<Component>,
                                  aggregate: string)
    ensures Distinct(Keys(CycloneDocument(encode, about, components, aggregate).members))
  {
    var m := CycloneDocument(encode, about, components, aggregate).members;
    assert "bomFormat"[0] == 'b' && "specVersion"[0] == 's' && "version"[0] == 'v' && "metadata"[0] == 'm'
        && "components"[0] == 'c';
    assert forall i, j :: 0 <= i < j < |m| ==> Keys(m)[i][0] != Keys(m)[j][0];
  }

  lemma ArrayIsPlain(items: seq<Value>)
    requires forall i :: 0 <= i < |items| ==> Plain(items[i])
    ensures Plain(Arr(items))
  {
  }

  lemma CycloneDocumentIsPlain(encode: string -> string, about: About, components: seq<Component>, aggregate: string)
    ensures Plain(CycloneDocument(encode, about, components, aggregate))
  {
    CycloneDocumentKeysDiffer(encode, about, components, aggregate);
    CycloneMetadataIsPlain(encode, about, aggregate);
    forall i | 0 <= i < |components| ensures Plain(CycloneComponents(components)[i]) {
      CycloneComponentIsPlain(components[i]);
    }
    ArrayIsPlain(CycloneComponents(components));
  }

  lemma CycloneDocumentFields(encode: string -> string, about: About, components: seq<Component>, aggregate: string)
    ensures IsCyclone(CycloneDocument(encode, about, components, aggregate), encode, about, components, aggregate)
  {
    var m := CycloneDocument(encode, about, components, aggregate).members;
    CycloneDocumentKeysDiffer(encode, about, components, aggregate);
    FieldAt(m, 0, "bomFormat");
    FieldAt(m, 1, "specVersion");
    FieldAt(m, 2, "version");
    FieldAt(m, 3, "metadata");
    FieldAt(m, 4, "components");
    CycloneMetadataFields(encode, about, aggregate);
    forall i | 0 <= i < |components| ensures IsLibrary(CycloneComponents(components)[i], components[i]) {
      CycloneComponentFields(components[i]);
    }
  }

  // SPDX

  /** The `n`th package behind the root. */
  ghost predicate IsPackage(v: Value, c: Component, n: nat) {
    var license := Str(if c.license.Some? then c.license.value else "NOASSERTION");
    && Get(v, "name") == Str(c.name) && Get(v, "SPDXID") == Str("SPDXRef-Package-" + Digits(n))
    && Get(v, "versionInfo") == Str(c.version) && Get(v, "downloadLocation") == Str("NOASSERTION")
    && Get(v, "filesAnalyzed") == Bool(false)
    && Get(v, "licenseConcluded") == license && Get(v, "licenseDeclared") == license
    && Get(v, "externalRefs").Arr? && |Get(v, "externalRefs").items| == 1
    && IsReference(Get(v, "externalRefs").items[0], c.purl)
  }

  ghost predicate IsReference(v: Value, purl: string) {
    v == Obj([("referenceCategory", Str("PACKAGE-MANAGER")), ("referenceType", Str("purl")),
              ("referenceLocator", Str(purl))])
  }

  ghost predicate IsRoot(v: Value, about: About, aggregate: string) {
    && Get(v, "name") == Str(about.name) && Get(v, "SPDXID") == Str("SPDXRef-Root")
    && Get(v, "versionInfo") == Str(about.version) && Get(v, "downloadLocation") == Str("NOASSERTION")
    && Get(v, "filesAnalyzed") == Bool(false)
    && Get(v, "checksums") == Arr([Obj([("algorithm", Str("SHA256")), ("checksumValue", Str(aggregate))])])
  }

  /** The root depends on the `n`th package. */
  ghost predicate IsDependency(v: Value, n: nat) {
    && Get(v, "spdxElementId") == Str("SPDXRef-Root") && Get(v, "relationshipType") == Str("DEPENDS_ON")
    && Get(v, "relatedSpdxElement") == Str("SPDXRef-Package-" + Digits(n))
  }

  lemma ReferenceIsPlain(purl: string)
    ensures var v := Obj([("referenceCategory", Str("PACKAGE-MANAGER")), ("referenceType", Str("purl")),
                          ("referenceLocator", Str(purl))]);
            Plain(v) && IsReference(v, purl)
  {
    assert "referenceCategory"[9] == 'C' && "referenceType"[9] == 'T' && "referenceLocator"[9] == 'L';
    var m := [("referenceCategory", Str("PACKAGE-MANAGER")), ("referenceType", Str("purl")),
              ("referenceLocator", Str(purl))];
    assert forall i, j :: 0 <= i < j < |m| ==> Keys(m)[i][9] != Keys(m)[j][9];
  }

  lemma SpdxKeysDiffer(c: Component, index: nat)
    ensures Distinct(Keys(SpdxPackage(c, index).members))
  {
    var m := SpdxPackage(c, index).members;
    assert "name"[0] == 'n' && "SPDXID"[0] == 'S' && "versionInfo"[0] == 'v' && "downloadLocation"[0] == 'd'
        && "filesAnalyzed"[0] == 'f' && "licenseConcluded"[0] == 'l' && "licenseDeclared"[0] == 'l'
        && "externalRefs"[0] == 'e';
    assert "licenseConcluded"[7] == 'C' && "licenseDeclared"[7] == 'D';
    assert Keys(m)[5] != Keys(m)[6];
    assert forall i, j :: 0 <= i < j < |m| && !(i == 5 && j == 6) ==> Keys(m)[i][0] != Keys(m)[j][0];
  }

  lemma SpdxPackageFields(c: Component, index: nat)
    ensures IsPackage(SpdxPackage(c, index), c, index + 1)
  {
    var m := SpdxPackage(c, index).members;
    SpdxKeysDiffer(c, index);
    ReferenceIsPlain(c.purl);
    FieldAt(m, 0, "name");
    FieldAt(m, 1, "SPDXID");
    FieldAt(m, 2, "versionInfo");
    FieldAt(m, 3, "downloadLocation");
    FieldAt(m, 4, "filesAnalyzed");
    FieldAt(m, 5, "licenseConcluded");
    FieldAt(m, 6, "licenseDeclared");
    FieldAt(m, 7, "externalRefs");
  }

  lemma SpdxPackageIsPlain(c: Component, index: nat)
    ensures Plain(SpdxPackage(c, index))
  {
    SpdxKeysDiffer(c, index);
    ReferenceIsPlain(c.purl);
  }

  lemma SpdxRootKeysDiffer(about: About, aggregate: string)
    ensures Distinct(Keys(SpdxRoot(about, aggregate).members))
  {
    var m := SpdxRoot(about, aggregate).members;
    assert "name"[0] == 'n' && "SPDXID"[0] == 'S' && "versionInfo"[0] == 'v' && "downloadLocation"[0] == 'd'
        && "filesAnalyzed"[0] == 'f' && "checksums"[0] == 'c';
    assert forall i, j :: 0 <= i < j < |m| ==> Keys(m)[i][0] != Keys(m)[j][0];
  }

  lemma SpdxRootFields(about: About, aggregate: string)
    ensures IsRoot(SpdxRoot(about, aggregate), about, aggregate)
  {
    var m := SpdxRoot(about, aggregate).members;
    SpdxRootKeysDiffer(about, aggregate);
    FieldAt(m, 0, "name");
    FieldAt(m, 1, "SPDXID");
    FieldAt(m, 2, "versionInfo");
    FieldAt(m, 3, "downloadLocation");
    FieldAt(m, 4, "filesAnalyzed");
    FieldAt(m, 5, "checksums");
  }

  lemma SpdxRootIsPlain(about: About, aggregate: string)
    ensures Plain(SpdxRoot(about, aggregate))
  {
    SpdxRootKeysDiffer(about, aggregate);
    assert "algorithm"[0] == 'a' && "checksumValue"[0] == 'c';
    PairIsPlain("algorithm", Str("SHA256"), "checksumValue", Str(aggregate));
  }

  lemma SpdxRelationshipKeysDiffer(index: nat)
    ensures Distinct(Keys(SpdxRelationship(index).members))
  {
    var m := SpdxRelationship(index).members;
    assert "spdxElementId"[5] == 'l' && "relationshipType"[5] == 'i' && "relatedSpdxElement"[5] == 'e';
    assert forall i, j :: 0 <= i < j < |m| ==> Keys(m)[i][5] != Keys(m)[j][5];
  }

  lemma SpdxRelationshipFields(index: nat)
    ensures Plain(SpdxRelationship(index)) && IsDependency(SpdxRelationship(index), index + 1)
  {
    var m := SpdxRelationship(index).members;
    SpdxRelationshipKeysDiffer(index);
    FieldAt(m, 0, "spdxElementId");
    FieldAt(m, 1, "relationshipType");
    FieldAt(m, 2, "relatedSpdxElement");
  }

  ghost predicate IsSpdx(v: Value, encode: string -> string, about: About, components: seq<Component>,
                         aggregate: string) {
    && Get(v, "spdxVersion") == Str("SPDX-2.3") && Get(v, "dataLicense") == Str("CC0-1.0")
    && Get(v, "SPDXID") == Str("SPDXRef-DOCUMENT") && Get(v, "name") == Str(about.name + "-" + about.version)
    && Get(v, "documentNamespace")
       == Str("https://arena.ai/spdx/" + encode(about.name) + "/" + about.version + "/" + aggregate)
    && Get(v, "creationInfo") == Obj([("created", Str(about.generatedAt)),
                                      ("creators", Arr([Str("Tool: haf-release-1.38.0")]))])
    && ListsPackages(Get(v, "packages"), about, components, aggregate)
    && ListsDependencies(Get(v, "relationships"), |components|)
  }

  /** The root, and the components behind it. */
  ghost predicate ListsPackages(v: Value, about: About, components: seq<Component>, aggregate: string) {
    && v.Arr? && |v.items| == |components| + 1 && IsRoot(v.items[0], about, aggregate)
    && forall i :: 0 <= i < |components| ==> IsPackage(v.items[i + 1], components[i], i + 1)
  }

  ghost predicate ListsDependencies(v: Value, n: nat) {
    v.Arr? && |v.items| == n && forall i :: 0 <= i < n ==> IsDependency(v.items[i], i + 1)
  }

  lemma PackagesListed(about: About, components: seq<Component>, aggregate: string)
    ensures ListsPackages(Arr(SpdxPackages(about, components, aggregate)), about, components, aggregate)
    ensures Plain(Arr(SpdxPackages(about, components, aggregate)))
  {
    var packages := SpdxPackages(about, components, aggregate);
    SpdxRootFields(about, aggregate);
    SpdxRootIsPlain(about, aggregate);
    forall i | 0 <= i < |components| ensures IsPackage(packages[i + 1], components[i], i + 1) {
      SpdxPackageFields(components[i], i);
    }
    forall i | 0 <= i < |packages| ensures Plain(packages[i]) {
      if i > 0 {
        SpdxPackageIsPlain(components[i - 1], i - 1);
        assert packages[i - 1 + 1] == SpdxPackage(components[i - 1], i - 1);
      }
    }
    ArrayIsPlain(packages);
  }

  lemma DependenciesListed(n: nat)
    ensures ListsDependencies(Arr(SpdxRelationships(n)), n) && Plain(Arr(SpdxRelationships(n)))
  {
    forall i | 0 <= i < n ensures Plain(SpdxRelationships(n)[i]) && IsDependency(SpdxRelationships(n)[i], i + 1) {
      SpdxRelationshipFields(i);
    }
    ArrayIsPlain(SpdxRelationships(n));
  }

  lemma CreationIsPlain(time: string)
    ensures Plain(Obj([("created", Str(time)), ("creators", Arr([Str("Tool: haf-release-1.38.0")]))]))
  {
    assert "created"[5] == 'e' && "creators"[5] == 'o';
    ArrayIsPlain([Str("Tool: haf-release-1.38.0")]);
    PairIsPlain("created", Str(time), "creators", Arr([Str("Tool: haf-release-1.38.0")]));
  }

  lemma SpdxDocumentKeysDiffer(encode: string -> string, about: About, components: seq<Component>, aggregate: string)
    ensures Distinct(Keys(SpdxDocument(encode, about, components, aggregate).members))
  {
    var m := SpdxDocument(encode, about, components, aggregate).members;
    assert "spdxVersion"[0] == 's' && "dataLicense"[0] == 'd' && "SPDXID"[0] == 'S' && "name"[0] == 'n'
        && "documentNamespace"[0] == 'd' && "creationInfo"[0] == 'c' && "packages"[0] == 'p'
        && "relationships"[0] == 'r';
    assert "dataLicense"[1] == 'a' && "documentNamespace"[1] == 'o';
    assert Keys(m)[1] != Keys(m)[4];
    assert forall i, j :: 0 <= i < j < |m| && !(i == 1 && j == 4) ==> Keys(m)[i][0] != Keys(m)[j][0];
  }

  lemma SpdxDocumentIsPlain(encode: string -> string, about: About, components: seq<Component>, aggregate: string)
    ensures Plain(SpdxDocument(encode, about, components, aggregate))
  {
    SpdxDocumentKeysDiffer(encode, about, components, aggregate);
    CreationIsPlain(about.generatedAt);
    PackagesListed(about, components, aggregate);
    DependenciesListed(|components|);
  }

  lemma SpdxDocumentFields(encode: string -> string, about: About, components: seq<Component>, aggregate: string)
    ensures IsSpdx(SpdxDocument(encode, about, components, aggregate), encode, about, components, aggregate)
  {
    var m := SpdxDocument(encode, about, components, aggregate).members;
    SpdxDocumentKeysDiffer(encode, about, components, aggregate);
    FieldAt(m, 0, "spdxVersion");
    FieldAt(m, 1, "dataLicense");
    FieldAt(m, 2, "SPDXID");
    FieldAt(m, 3, "name");
    FieldAt(m, 4, "documentNamespace");
    FieldAt(m, 5, "creationInfo");
    FieldAt(m, 6, "packages");
    FieldAt(m, 7, "relationships");
    PackagesListed(about, components, aggregate);
    DependenciesListed(|components|);
  }

  // The source manifest

  /** Three octal digits behind a zero. */
  ghost predicate IsMode(text: string, mode: nat) {
    && |text| == 4 && text[0] == '0' && (forall k :: 1 <= k < 4 ==> '0' <= text[k] <= '7')
    && (text[1] as int - 48) * 64 + (text[2] as int - 48) * 8 + (text[3] as int - 48) == mode
  }

  ghost predicate IsEntry(v: Value, e: Entry) {
    && Get(v, "path") == Str(e.path) && Get(v, "bytes") == Int(e.bytes) && Get(v, "sha256") == Str(e.sha256)
    && Get(v, "mode").Str? && IsMode(Get(v, "mode").s, e.mode)
    && (Get(v, "type") == match e.kind case RegularFile => Str("file") case SymbolicLink => Str("symlink"))
    && (Get(v, "linkTarget") == match e.linkTarget case None => Undefined case Some(target) => Str(target))
  }

  lemma OctalDigit(k: nat)
    requires k < 8
    ensures HexDigit(k) as int == 48 + k
  {
    HexDigitsRead(k);
  }

  lemma ModeIs(mode: nat)
    requires mode < 512
    ensures IsMode(ModeText(mode), mode)
  {
    EightTimes(mode);
    OctalDigit(mode / 64 % 8);
    OctalDigit(mode / 8 % 8);
    OctalDigit(mode % 8);
  }

  lemma EntryKeysDiffer(e: Entry)
    ensures Distinct(Keys(EntryMembers(e)))
    ensures e.linkTarget.None? ==> "linkTarget" !in Keys(EntryMembers(e))
  {
    var m := EntryMembers(e);
    assert "path"[0] == 'p' && "type"[0] == 't' && "bytes"[0] == 'b' && "sha256"[0] == 's' && "mode"[0] == 'm'
        && "linkTarget"[0] == 'l';
    assert forall i, j :: 0 <= i < j < |m| ==> Keys(m)[i][0] != Keys(m)[j][0];
  }

  lemma EntryFields(e: Entry)
    requires Recorded(e)
    ensures IsEntry(Obj(EntryMembers(e)), e)
  {
    var m := EntryMembers(e);
    EntryKeysDiffer(e);
    FieldAt(m, 0, "path");
    FieldAt(m, 1, "type");
    FieldAt(m, 2, "bytes");
    FieldAt(m, 3, "sha256");
    FieldAt(m, 4, "mode");
    if e.linkTarget.Some? {
      FieldAt(m, 5, "linkTarget");
    } else {
      NoField(m, "linkTarget");
    }
    ModeIs(e.mode);
  }

  ghost predicate IsManifest(v: Value, about: About, entries: seq<Entry>, aggregate: string) {
    && Get(v, "schemaVersion") == Int(1)
    && Get(v, "project") == Obj([("name", Str(about.name)), ("version", Str(about.version))])
    && Get(v, "generatedAt") == Str(about.generatedAt) && Get(v, "aggregateSha256") == Str(aggregate)
    && Get(v, "entries").Arr? && |Get(v, "entries").items| == |entries|
    && forall i :: 0 <= i < |entries| ==> IsEntry(Get(v, "entries").items[i], entries[i])
  }

  lemma ManifestFields(about: About, entries: seq<Entry>, aggregate: string)
    requires forall e :: e in entries ==> Recorded(e)
    ensures IsManifest(ManifestDocument(about, entries, aggregate), about, entries, aggregate)
  {
    var m := ManifestDocument(about, entries, aggregate).members;
    ManifestIsPlain(about, entries, aggregate);
    FieldAt(m, 0, "schemaVersion");
    FieldAt(m, 1, "project");
    FieldAt(m, 2, "generatedAt");
    FieldAt(m, 3, "entries");
    FieldAt(m, 4, "aggregateSha256");
    forall i | 0 <= i < |entries| ensures IsEntry(EntryValues(entries)[i], entries[i]) {
      assert entries[i] in entries;
      EntryFields(entries[i]);
    }
  }
}
