/** The fields of the provenance, read from its canonical text. */
module ProvenanceFields {
  import opened Wrappers
  import opened Sorting
  import opened Json
  import opened Attestation
  import opened Canonical
  import opened CanonicalLaws
  import opened Documents
  import opened DocumentFields

  // Fields of the normal value

  /** A defined property is there under its name, normalised. */
  lemma NormalFieldAt(le: Order<string>, members: seq<(string, Value)>, i: nat, name: string)
    requires Distinct(Keys(members)) && i < |members| && members[i].0 == name && !members[i].1.Undefined?
    ensures Get(Normal(le, Obj(members)), name) == Normal(le, members[i].1)
  {
    var entries := NormalMembers(le, members);
    var sorted := SortBy(ByKey<Value>(le), entries);
    NormalEntryExists(le, members, i);
    NormalKeysDistinct(le, members);
    DistinctIsInherited(entries, sorted);
    MembersOfPermutation(entries, sorted);
    var j := PositionOf(sorted, NormalMember(le, members[i]));
    FieldAt(sorted, j, name);
  }

  lemma PositionOf<T>(s: seq<T>, x: T) returns (j: nat)
    requires x in s
    ensures j < |s| && s[j] == x
  {
    j :| j < |s| && s[j] == x;
  }

  // The statement

  ghost predicate IsSubject(v: Value, subject: (string, string)) {
    Get(v, "name") == Str(subject.0) && Get(Get(v, "digest"), "sha256") == Str(subject.1)
  }

  ghost predicate IsBuild(v: Value, about: About, dependencies: seq<string>) {
    && Get(v, "buildType") == Str("https://arena.ai/hybrid-agent-fabric/build/v1")
    && Get(Get(v, "externalParameters"), "sourceDateEpoch")
       == (match about.sourceDateEpoch case None => Null case Some(epoch) => Int(epoch))
    && Get(v, "internalParameters") == Obj([])
    && AreUris(Get(v, "resolvedDependencies"), dependencies)
  }

  ghost predicate AreUris(v: Value, uris: seq<string>) {
    && v.Arr? && |v.items| == |uris|
    && forall i :: 0 <= i < |uris| ==> Get(v.items[i], "uri") == Str(uris[i])
  }

  /** Digits of the digest in the layout of a version 4 UUID, section 5.4 of RFC 9562. */
  ghost predicate IsInvocation(digest: string, id: string) {
    |digest| >= 32 ==>
      && |id| == 36 && id[8] == id[13] == id[18] == id[23] == '-' && id[14] == '4' && id[19] == 'a'
      && id[..8] == digest[..8] && id[9..13] == digest[8..12] && id[15..18] == digest[13..16]
      && id[20..23] == digest[17..20] && id[24..] == digest[20..32]
  }

  ghost predicate IsRun(v: Value, hash: string -> string, about: About, aggregate: string) {
    var metadata := Get(v, "metadata");
    && Get(Get(v, "builder"), "id") == Str(about.builderId)
    && Get(metadata, "startedOn") == Str(about.generatedAt) && Get(metadata, "finishedOn") == Str(about.generatedAt)
    && Get(metadata, "invocationId").Str?
    && IsInvocation(hash(aggregate + "\0" + about.generatedAt), Get(metadata, "invocationId").s)
  }

  ghost predicate IsStatement(v: Value, hash: string -> string, about: About, subjects: seq<(string, string)>,
                              aggregate: string) {
    && Get(v, "_type") == Str("https://in-toto.io/Statement/v1")
    && Get(v, "predicateType") == Str("https://slsa.dev/provenance/v1")
    && Get(v, "subject").Arr? && |Get(v, "subject").items| == |subjects|
    && (forall i :: 0 <= i < |subjects| ==> IsSubject(Get(v, "subject").items[i], subjects[i]))
    && IsBuild(Get(Get(v, "predicate"), "buildDefinition"), about,
               [OPEN_HANDS, PRIME_AGENT, HERMES_AGENT, "urn:sha256:" + aggregate])
    && IsRun(Get(Get(v, "predicate"), "runDetails"), hash, about, aggregate)
  }

  // Each part

  lemma SubjectFields(le: Order<string>, subject: (string, string))
    ensures Plain(SubjectValue(subject)) && IsSubject(Normal(le, SubjectValue(subject)), subject)
  {
    var digest := [("sha256", Str(subject.1))];
    var m := [("name", Str(subject.0)), ("digest", Obj(digest))];
    assert "name"[0] == 'n' && "digest"[0] == 'd';
    OneIsPlain("sha256", Str(subject.1));
    PairIsPlain("name", Str(subject.0), "digest", Obj(digest));
    NormalFieldAt(le, m, 0, "name");
    NormalFieldAt(le, m, 1, "digest");
    NormalFieldAt(le, digest, 0, "sha256");
  }

  lemma UriFields(le: Order<string>, uri: string)
    ensures Plain(Uri(uri)) && Get(Normal(le, Uri(uri)), "uri") == Str(uri)
  {
    OneIsPlain("uri", Str(uri));
    NormalFieldAt(le, [("uri", Str(uri))], 0, "uri");
  }

  lemma UrisFields(le: Order<string>, uris: seq<string>)
    ensures Plain(Arr(Uris(uris))) && AreUris(Normal(le, Arr(Uris(uris))), uris)
  {
    forall i | 0 <= i < |uris|
      ensures Plain(Uris(uris)[i]) && Get(NormalItems(le, Uris(uris))[i], "uri") == Str(uris[i])
    {
      UriFields(le, uris[i]);
      NormalItemAt(le, Uris(uris), i);
    }
    ArrayIsPlain(Uris(uris));
  }

  lemma BuildKeysDiffer(about: About, dependencies: seq<string>)
    ensures Distinct(Keys(BuildDefinition(about, dependencies).members))
  {
    var m := BuildDefinition(about, dependencies).members;
    assert "buildType"[0] == 'b' && "externalParameters"[0] == 'e' && "internalParameters"[0] == 'i'
        && "resolvedDependencies"[0] == 'r';
    assert forall i, j :: 0 <= i < j < |m| ==> Keys(m)[i][0] != Keys(m)[j][0];
  }

  lemma BuildIsPlain(le: Order<string>, about: About, dependencies: seq<string>)
    ensures Plain(BuildDefinition(about, dependencies))
  {
    var m := BuildDefinition(about, dependencies).members;
    BuildKeysDiffer(about, dependencies);
    OneIsPlain("sourceDateEpoch", m[1].1.members[0].1);
    UrisFields(le, dependencies);
  }

  lemma BuildFields(le: Order<string>, about: About, dependencies: seq<string>)
    ensures IsBuild(Normal(le, BuildDefinition(about, dependencies)), about, dependencies)
  {
    var m := BuildDefinition(about, dependencies).members;
    BuildKeysDiffer(about, dependencies);
    NormalFieldAt(le, m, 0, "buildType");
    NormalFieldAt(le, m, 1, "externalParameters");
    NormalFieldAt(le, m, 2, "internalParameters");
    NormalFieldAt(le, m, 3, "resolvedDependencies");
    NormalFieldAt(le, m[1].1.members, 0, "sourceDateEpoch");
    UrisFields(le, dependencies);
  }

  lemma InvocationIs(hash: string -> string, aggregate: string, time: string)
    ensures IsInvocation(hash(aggregate + "\0" + time), InvocationId(hash, aggregate, time))
  {
  }

  lemma RunMetadataKeysDiffer(hash: string -> string, about: About, aggregate: string)
    ensures Distinct(Keys(RunMetadata(hash, about, aggregate).members))
  {
    var m := RunMetadata(hash, about, aggregate).members;
    assert "invocationId"[0] == 'i' && "startedOn"[0] == 's' && "finishedOn"[0] == 'f';
    assert forall i, j :: 0 <= i < j < |m| ==> Keys(m)[i][0] != Keys(m)[j][0];
  }

  lemma RunKeysDiffer(hash: string -> string, about: About, aggregate: string)
    ensures Distinct(Keys(RunDetails(hash, about, aggregate).members))
  {
    assert "builder"[0] == 'b' && "metadata"[0] == 'm';
  }

  lemma RunIsPlain(hash: string -> string, about: About, aggregate: string)
    ensures Plain(RunDetails(hash, about, aggregate))
  {
    RunKeysDiffer(hash, about, aggregate);
    RunMetadataKeysDiffer(hash, about, aggregate);
    OneIsPlain("id", Str(about.builderId));
  }

  lemma RunFields(le: Order<string>, hash: string -> string, about: About, aggregate: string)
    ensures IsRun(Normal(le, RunDetails(hash, about, aggregate)), hash, about, aggregate)
  {
    var m, metadata := RunDetails(hash, about, aggregate).members, RunMetadata(hash, about, aggregate).members;
    RunKeysDiffer(hash, about, aggregate);
    RunMetadataKeysDiffer(hash, about, aggregate);
    NormalFieldAt(le, m, 0, "builder");
    NormalFieldAt(le, m, 1, "metadata");
    NormalFieldAt(le, [("id", Str(about.builderId))], 0, "id");
    NormalFieldAt(le, metadata, 0, "invocationId");
    NormalFieldAt(le, metadata, 1, "startedOn");
    NormalFieldAt(le, metadata, 2, "finishedOn");
    InvocationIs(hash, aggregate, about.generatedAt);
  }

  lemma SubjectsFields(le: Order<string>, subjects: Record)
    ensures Plain(Arr(SubjectValues(subjects)))
    ensures forall i :: 0 <= i < |subjects| ==> IsSubject(NormalItems(le, SubjectValues(subjects))[i], subjects[i])
  {
    forall i | 0 <= i < |subjects|
      ensures Plain(SubjectValues(subjects)[i]) && IsSubject(NormalItems(le, SubjectValues(subjects))[i], subjects[i])
    {
      SubjectFields(le, subjects[i]);
      NormalItemAt(le, SubjectValues(subjects), i);
    }
    ArrayIsPlain(SubjectValues(subjects));
  }

  lemma PredicateKeysDiffer(build: Value, run: Value)
    ensures Distinct(Keys([("buildDefinition", build), ("runDetails", run)]))
  {
    assert "buildDefinition"[0] == 'b' && "runDetails"[0] == 'r';
  }

  lemma StatementKeysDiffer(hash: string -> string, about: About, subjects: Record, aggregate: string)
    ensures Distinct(Keys(ProvenanceDocument(hash, about, subjects, aggregate).members))
  {
    var m := ProvenanceDocument(hash, about, subjects, aggregate).members;
    assert "_type"[0] == '_' && "subject"[0] == 's' && "predicateType"[0] == 'p' && "predicate"[0] == 'p';
    assert |"predicateType"| != |"predicate"|;
  }

  lemma StatementIsPlain(le: Order<string>, hash: string -> string, about: About, subjects: Record, aggregate: string)
    ensures Plain(ProvenanceDocument(hash, about, subjects, aggregate))
  {
    var build, run := BuildDefinition(about, Dependencies(aggregate)), RunDetails(hash, about, aggregate);
    StatementKeysDiffer(hash, about, subjects, aggregate);
    BuildIsPlain(le, about, Dependencies(aggregate));
    RunIsPlain(hash, about, aggregate);
    PredicateKeysDiffer(build, run);
    PairIsPlain("buildDefinition", build, "runDetails", run);
    SubjectsFields(le, subjects);
  }

  /** What the canonical text of the provenance says. */
  lemma StatementFields(le: Order<string>, hash: string -> string, about: About, subjects: Record, aggregate: string)
    ensures IsStatement(Normal(le, ProvenanceDocument(hash, about, subjects, aggregate)), hash, about, subjects,
                        aggregate)
  {
    var m := ProvenanceDocument(hash, about, subjects, aggregate).members;
    var build, run := BuildDefinition(about, Dependencies(aggregate)), RunDetails(hash, about, aggregate);
    StatementKeysDiffer(hash, about, subjects, aggregate);
    NormalFieldAt(le, m, 0, "_type");
    NormalFieldAt(le, m, 1, "subject");
    NormalFieldAt(le, m, 2, "predicateType");
    NormalFieldAt(le, m, 3, "predicate");
    PredicateKeysDiffer(build, run);
    NormalFieldAt(le, [("buildDefinition", build), ("runDetails", run)], 0, "buildDefinition");
    NormalFieldAt(le, [("buildDefinition", build), ("runDetails", run)], 1, "runDetails");
    BuildFields(le, about, Dependencies(aggregate));
    RunFields(le, hash, about, aggregate);
    SubjectsFields(le, subjects);
  }
}
