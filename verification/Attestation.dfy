/**
 Signed checksums.  SHA-256 and Ed25519 (section 5.1 of RFC 8032) are unknown functions; all that
 is assumed of them is that a digest is 64 lower-case hex digits and that a signature verifies
 under the public key of the key that made it.
 */
module Attestation {
  import opened Wrappers
  import opened Sorting
  import opened Json
  import opened JsonLaws
  import opened Canonical
  import opened CanonicalLaws

  datatype Crypto = Crypto(
    hash: string -> string,
    publicKeyOf: string -> Option<string>,
    keyDer: string -> Option<string>,
    sign: (string, string) -> string,
    verify: (string, string, string) -> bool
  )

  predicate IsHexDigit(c: char) {
    '0' <= c <= '9' || 'a' <= c <= 'f'
  }

  predicate IsDigest(s: string) {
    |s| == 64 && forall i :: 0 <= i < |s| ==> IsHexDigit(s[i])
  }

  ghost predicate Sound(c: Crypto) {
    && (forall text :: IsDigest(c.hash(text)))
    && (forall key :: c.publicKeyOf(key).Some? ==> c.keyDer(c.publicKeyOf(key).value).Some?)
    && (forall key, text :: c.publicKeyOf(key).Some? ==>
          c.verify(c.publicKeyOf(key).value, text, c.sign(key, text)))
  }

  /** A record of strings, in insertion order. */
  type Record = seq<(string, string)>

  function RecordMembers(r: Record): (m: seq<(string, Value)>)
    ensures |m| == |r| && forall i :: 0 <= i < |m| ==> m[i] == (r[i].0, Str(r[i].1))
  {
    seq(|r|, i requires 0 <= i < |r| => (r[i].0, Str(r[i].1)))
  }

  function SortRecord(le: Order<string>, r: Record): Record {
    SortBy(ByKey<string>(le), r)
  }

  function KeyId(der: string, c: Crypto): string {
    var digest := c.hash(der);
    if |digest| < 32 then digest else digest[..32]
  }

  function PayloadMembers(le: Order<string>, checksums: Record, createdAt: string): seq<(string, Value)> {
    [("schemaVersion", Int(1)), ("createdAt", Str(createdAt)),
     ("checksums", Obj(RecordMembers(SortRecord(le, checksums))))]
  }

  function Payload(le: Order<string>, checksums: Record, createdAt: string): Value {
    Obj(PayloadMembers(le, checksums, createdAt))
  }

  function EnvelopeMembers(keyId: string, publicKey: string, payload: Value, digest: string, signature: string)
    : seq<(string, Value)>
  {
    [("schemaVersion", Int(1)), ("algorithm", Str("Ed25519")), ("keyId", Str(keyId)), ("publicKey", Str(publicKey)),
     ("payload", payload), ("payloadSha256", Str(digest)), ("signature", Str(signature))]
  }

  /** `signChecksums`; without a result when the key is not a usable Ed25519 key. */
  function SignChecksums(le: Order<string>, c: Crypto, checksums: Record, key: string,
                         createdAt: string): Option<Value> {
    var pub :- c.publicKeyOf(key);
    var der :- c.keyDer(pub);
    var payload := Payload(le, checksums, createdAt);
    var bytes := CanonicalJson(le, payload);
    Some(Obj(EnvelopeMembers(KeyId(der, c), pub, payload, c.hash(bytes), c.sign(key, bytes))))
  }

  /** `verifySignedChecksums`; whatever throws inside it makes the answer false. */
  predicate VerifySigned(le: Order<string>, c: Crypto, envelope: Value, expected: Option<Record>) {
    var payload, publicKey, signature := Get(envelope, "payload"), Get(envelope, "publicKey"),
        Get(envelope, "signature");
    && Get(envelope, "schemaVersion") == Int(1)
    && Get(envelope, "algorithm") == Str("Ed25519")
    && publicKey.Str? && signature.Str?
    && !payload.Undefined?
    && var bytes := CanonicalJson(le, payload);
    && Get(envelope, "payloadSha256") == Str(c.hash(bytes))
    && (expected.Some? ==>
          && !Get(payload, "checksums").Undefined?
          && CanonicalJson(le, Get(payload, "checksums"))
             == CanonicalJson(le, Obj(RecordMembers(SortRecord(le, expected.value)))))
    && var der := c.keyDer(publicKey.s);
    && der.Some?
    && Get(envelope, "keyId") == Str(KeyId(der.value, c))
    && c.verify(publicKey.s, bytes, signature.s)
  }

  // Laws

  lemma RecordIsPlain(r: Record)
    requires Distinct(Keys(r))
    ensures Plain(Obj(RecordMembers(r))) && Printable(Obj(RecordMembers(r)))
  {
    assert Keys(RecordMembers(r)) == Keys(r);
    PlainIsPrintable(Obj(RecordMembers(r)));
  }

  lemma SortedRecord(le: Order<string>, r: Record)
    requires Distinct(Keys(r))
    ensures Distinct(Keys(SortRecord(le, r))) && multiset(SortRecord(le, r)) == multiset(r)
  {
    DistinctIsInherited(r, SortRecord(le, r));
  }

  /** Equal canonical texts come from records with the same entries. */
  lemma EqualRecordTexts(le: Order<string>, a: Record, b: Record)
    requires Distinct(Keys(a)) && Distinct(Keys(b))
    requires CanonicalJson(le, Obj(RecordMembers(a))) == CanonicalJson(le, Obj(RecordMembers(b)))
    ensures multiset(a) == multiset(b)
  {
    RecordIsPlain(a);
    RecordIsPlain(b);
    EqualTextMeansSameValue(le, Obj(RecordMembers(a)), Obj(RecordMembers(b)));
    SameRecordEntries(a, b);
    EqualTextMeansSameValue(le, Obj(RecordMembers(b)), Obj(RecordMembers(a)));
    SameRecordEntries(b, a);
    SameElementsOnce(a, b);
  }

  lemma SameRecordEntries(a: Record, b: Record)
    requires Same(Obj(RecordMembers(a)), Obj(RecordMembers(b)))
    ensures forall e :: e in a ==> e in b
  {
    var ma, mb := RecordMembers(a), RecordMembers(b);
    forall e | e in a ensures e in b {
      var i :| 0 <= i < |a| && a[i] == e;
      assert ma[i] == (e.0, Str(e.1));
      assert Has(ma, e.0);
      assert Has(mb, e.0);
      var j :| 0 <= j < |mb| && mb[j].0 == e.0 && !mb[j].1.Undefined?;
      assert Same(ma[i].1, mb[j].1);
      assert b[j] == e;
    }
  }

  lemma {:induction false} LooksUp(members: seq<(string, Value)>, i: nat)
    requires i < |members| && forall j :: 0 <= j < i ==> members[j].0 != members[i].0
    ensures Lookup(members, members[i].0) == members[i].1
  {
    if i > 0 {
      LooksUp(members[1..], i - 1);
    }
  }

  lemma EnvelopeKeysDiffer(keyId: string, publicKey: string, payload: Value, digest: string, signature: string)
    ensures Distinct(Keys(EnvelopeMembers(keyId, publicKey, payload, digest, signature)))
  {
    var m := EnvelopeMembers(keyId, publicKey, payload, digest, signature);
    assert "algorithm"[0] == 'a' && "publicKey"[0] == 'p' && "signature"[0] == 's';
    assert "schemaVersion"[0] == 's' && "payloadSha256"[0] == 'p';
    assert |m| == 7;
  }

  lemma EnvelopeLookups(keyId: string, publicKey: string, payload: Value, digest: string, signature: string)
    ensures var e := Obj(EnvelopeMembers(keyId, publicKey, payload, digest, signature));
            && Get(e, "schemaVersion") == Int(1) && Get(e, "algorithm") == Str("Ed25519")
            && Get(e, "keyId") == Str(keyId) && Get(e, "publicKey") == Str(publicKey)
            && Get(e, "payload") == payload && Get(e, "payloadSha256") == Str(digest)
            && Get(e, "signature") == Str(signature)
  {
    var m := EnvelopeMembers(keyId, publicKey, payload, digest, signature);
    EnvelopeKeysDiffer(keyId, publicKey, payload, digest, signature);
    forall i | 0 <= i < |m| ensures Lookup(m, m[i].0) == m[i].1 {
      assert forall j :: 0 <= j < i ==> Keys(m)[j] != Keys(m)[i];
      LooksUp(m, i);
    }
    assert m[0].0 == "schemaVersion" && m[1].0 == "algorithm" && m[2].0 == "keyId" && m[3].0 == "publicKey";
    assert m[4].0 == "payload" && m[5].0 == "payloadSha256" && m[6].0 == "signature";
  }

  lemma PayloadLookup(le: Order<string>, checksums: Record, createdAt: string)
    ensures Get(Payload(le, checksums, createdAt), "checksums") == Obj(RecordMembers(SortRecord(le, checksums)))
    ensures Distinct(Keys(PayloadMembers(le, checksums, createdAt)))
  {
    var m := PayloadMembers(le, checksums, createdAt);
    assert "createdAt"[1] == 'r' && "checksums"[1] == 'h';
    LooksUp(m, 2);
  }

  lemma PayloadIsPlain(le: Order<string>, checksums: Record, createdAt: string)
    requires Distinct(Keys(checksums))
    ensures Plain(Payload(le, checksums, createdAt))
  {
    SortedRecord(le, checksums);
    RecordIsPlain(SortRecord(le, checksums));
    PayloadLookup(le, checksums, createdAt);
  }

  lemma EnvelopeOfPlainPayload(keyId: string, publicKey: string, payload: Value, digest: string, signature: string)
    requires Plain(payload)
    ensures Plain(Obj(EnvelopeMembers(keyId, publicKey, payload, digest, signature)))
  {
    EnvelopeKeysDiffer(keyId, publicKey, payload, digest, signature);
  }

  lemma EnvelopeIsPlain(le: Order<string>, c: Crypto, checksums: Record, key: string, createdAt: string)
    requires Distinct(Keys(checksums)) && SignChecksums(le, c, checksums, key, createdAt).Some?
    ensures Plain(SignChecksums(le, c, checksums, key, createdAt).value)
  {
    var payload := Payload(le, checksums, createdAt);
    PayloadIsPlain(le, checksums, createdAt);
    var pub := c.publicKeyOf(key).value;
    var bytes := CanonicalJson(le, payload);
    EnvelopeOfPlainPayload(KeyId(c.keyDer(pub).value, c), pub, payload, c.hash(bytes), c.sign(key, bytes));
  }

  /** A usable key always signs. */
  lemma UsableKeySigns(le: Order<string>, c: Crypto, checksums: Record, key: string, createdAt: string)
    requires Sound(c)
    ensures SignChecksums(le, c, checksums, key, createdAt).Some? <==> c.publicKeyOf(key).Some?
  {
  }

  lemma SignedFields(le: Order<string>, c: Crypto, checksums: Record, key: string, createdAt: string, expected: Record)
    requires Sound(c) && c.publicKeyOf(key).Some?
    ensures SignChecksums(le, c, checksums, key, createdAt).Some?
    ensures VerifySigned(le, c, SignChecksums(le, c, checksums, key, createdAt).value, Some(expected)) <==>
            CanonicalJson(le, Obj(RecordMembers(SortRecord(le, checksums))))
            == CanonicalJson(le, Obj(RecordMembers(SortRecord(le, expected))))
    ensures VerifySigned(le, c, SignChecksums(le, c, checksums, key, createdAt).value, None)
  {
    UsableKeySigns(le, c, checksums, key, createdAt);
    var pub := c.publicKeyOf(key).value;
    var bytes := CanonicalJson(le, Payload(le, checksums, createdAt));
    EnvelopeLookups(KeyId(c.keyDer(pub).value, c), pub, Payload(le, checksums, createdAt), c.hash(bytes),
                    c.sign(key, bytes));
    PayloadLookup(le, checksums, createdAt);
  }

  lemma {:induction false} RecordIsNormal(le: Order<string>, r: Record)
    ensures NormalMembers(le, RecordMembers(r)) == RecordMembers(r)
  {
    if r == [] {
      assert RecordMembers(r) == [];
    } else {
      RecordIsNormal(le, r[1..]);
      var m := RecordMembers(r);
      assert m[1..] == RecordMembers(r[1..]) && m == [m[0]] + m[1..];
      assert NormalMember(le, m[0]) == m[0];
    }
  }

  lemma SortedIsNormal(le: Order<string>, r: Record)
    requires TotalPreorder(le)
    ensures Normal(le, Obj(RecordMembers(SortRecord(le, r)))) == Obj(RecordMembers(SortRecord(le, r)))
  {
    var sorted := SortRecord(le, r);
    ByKeyIsAPreorder<string>(le);
    SortBySorts(ByKey<string>(le), r);
    RecordIsNormal(le, sorted);
    MembersAreSorted(le, sorted);
    SortOfSorted(ByKey<Value>(le), RecordMembers(sorted));
  }

  lemma MembersAreSorted(le: Order<string>, r: Record)
    requires Sorted(ByKey<string>(le), r)
    ensures Sorted(ByKey<Value>(le), RecordMembers(r))
  {
    var byKey, m := ByKey<Value>(le), RecordMembers(r);
    forall i, j | 0 <= i < j < |m| ensures byKey(m[i], m[j]) {
      assert ByKey<string>(le)(r[i], r[j]);
      assert m[i].0 == r[i].0 && m[j].0 == r[j].0;
    }
  }

  /** What is signed of a record shows its sorted list, and nothing else. */
  lemma SignedTextShowsTheSortedRecord(le: Order<string>, a: Record, b: Record)
    requires TotalPreorder(le) && Distinct(Keys(a)) && Distinct(Keys(b))
    ensures CanonicalJson(le, Obj(RecordMembers(SortRecord(le, a))))
            == CanonicalJson(le, Obj(RecordMembers(SortRecord(le, b))))
            <==> SortRecord(le, a) == SortRecord(le, b)
  {
    var x, y := SortRecord(le, a), SortRecord(le, b);
    SortedRecordText(le, a);
    SortedRecordText(le, b);
    if Stringify(Obj(RecordMembers(x))) == Stringify(Obj(RecordMembers(y))) {
      StringifyIsInjective(Obj(RecordMembers(x)), Obj(RecordMembers(y)));
      RecordsOfMembers(x, y);
    }
  }

  lemma SortedRecordText(le: Order<string>, r: Record)
    requires TotalPreorder(le) && Distinct(Keys(r))
    ensures Plain(Obj(RecordMembers(SortRecord(le, r))))
    ensures CanonicalJson(le, Obj(RecordMembers(SortRecord(le, r)))) == Stringify(Obj(RecordMembers(SortRecord(le, r))))
  {
    SortedRecord(le, r);
    RecordIsPlain(SortRecord(le, r));
    CanonicalIsCompactNormal(le, Obj(RecordMembers(SortRecord(le, r))));
    SortedIsNormal(le, r);
  }

  lemma RecordsOfMembers(a: Record, b: Record)
    requires RecordMembers(a) == RecordMembers(b)
    ensures a == b
  {
    forall i | 0 <= i < |a| ensures a[i] == b[i] {
      assert RecordMembers(a)[i] == RecordMembers(b)[i];
    }
  }

  /** A signed envelope verifies against a checksum record exactly when both are sorted into one list. */
  lemma SignedVerifiesExactly(le: Order<string>, c: Crypto, checksums: Record, key: string, createdAt: string,
                              expected: Record)
    requires TotalPreorder(le) && Sound(c) && c.publicKeyOf(key).Some?
    requires Distinct(Keys(checksums)) && Distinct(Keys(expected))
    ensures SignChecksums(le, c, checksums, key, createdAt).Some?
    ensures VerifySigned(le, c, SignChecksums(le, c, checksums, key, createdAt).value, Some(expected))
            <==> SortRecord(le, expected) == SortRecord(le, checksums)
    ensures VerifySigned(le, c, SignChecksums(le, c, checksums, key, createdAt).value, None)
  {
    SignedFields(le, c, checksums, key, createdAt, expected);
    SignedTextShowsTheSortedRecord(le, checksums, expected);
  }

  /** Records sorted into one list have the same entries; the converse holds when no names tie. */
  lemma SortedAlikeMeansSameEntries(le: Order<string>, a: Record, b: Record)
    requires TotalPreorder(le) && Distinct(Keys(a))
    ensures SortRecord(le, a) == SortRecord(le, b) ==> multiset(a) == multiset(b)
    ensures NoTies(le, Keys(a)) ==> (SortRecord(le, a) == SortRecord(le, b) <==> multiset(a) == multiset(b))
  {
    if NoTies(le, Keys(a)) && multiset(a) == multiset(b) {
      SameEntriesSortAlike(le, a, b);
    }
  }

  /** The signature is accepted for its record in whatever order that was built. */
  ghost predicate AcceptedInEveryOrder(le: Order<string>, c: Crypto, envelope: Value, checksums: Record) {
    forall r :: multiset(r) == multiset(checksums) ==> VerifySigned(le, c, envelope, Some(r))
  }

  /** That is so exactly when the collation tells the names of the record apart. */
  lemma OrderIsHiddenExactlyWithoutTies(le: Order<string>, c: Crypto, checksums: Record, key: string, createdAt: string)
    requires TotalPreorder(le) && Sound(c) && c.publicKeyOf(key).Some? && Distinct(Keys(checksums))
    ensures SignChecksums(le, c, checksums, key, createdAt).Some?
    ensures AcceptedInEveryOrder(le, c, SignChecksums(le, c, checksums, key, createdAt).value, checksums)
        <==> NoTies(le, Keys(checksums))
  {
    UsableKeySigns(le, c, checksums, key, createdAt);
    RecordHidesOrderExactlyWithoutTies(le, checksums);
    var envelope := SignChecksums(le, c, checksums, key, createdAt).value;
    forall r | multiset(r) == multiset(checksums)
      ensures VerifySigned(le, c, envelope, Some(r)) <==> SortRecord(le, r) == SortRecord(le, checksums)
    {
      AcceptedWhenSortedAlike(le, c, checksums, key, createdAt, r);
    }
    AcceptedOrSortedAlike(le, c, envelope, checksums);
  }

  lemma AcceptedOrSortedAlike(le: Order<string>, c: Crypto, envelope: Value, checksums: Record)
    requires forall r :: multiset(r) == multiset(checksums) ==>
               (VerifySigned(le, c, envelope, Some(r)) <==> SortRecord(le, r) == SortRecord(le, checksums))
    ensures AcceptedInEveryOrder(le, c, envelope, checksums)
        <==> SortsAlikeInEveryOrder(ByKey<string>(le), checksums)
  {
    if AcceptedInEveryOrder(le, c, envelope, checksums) {
      forall r | multiset(r) == multiset(checksums)
        ensures SortBy(ByKey<string>(le), r) == SortBy(ByKey<string>(le), checksums)
      {
        assert VerifySigned(le, c, envelope, Some(r));
        assert SortRecord(le, r) == SortRecord(le, checksums);
      }
    } else {
      var r :| multiset(r) == multiset(checksums) && !VerifySigned(le, c, envelope, Some(r));
      assert SortRecord(le, r) != SortRecord(le, checksums);
    }
  }

  lemma AcceptedWhenSortedAlike(le: Order<string>, c: Crypto, checksums: Record, key: string, createdAt: string,
                                r: Record)
    requires TotalPreorder(le) && Sound(c) && c.publicKeyOf(key).Some? && Distinct(Keys(checksums))
    requires multiset(r) == multiset(checksums)
    ensures SignChecksums(le, c, checksums, key, createdAt).Some?
    ensures VerifySigned(le, c, SignChecksums(le, c, checksums, key, createdAt).value, Some(r))
        <==> SortRecord(le, r) == SortRecord(le, checksums)
  {
    DistinctIsInherited(checksums, r);
    SignedVerifiesExactly(le, c, checksums, key, createdAt, r);
  }

  /**
   Whatever an accepted envelope says is what was expected: its checksums are the same record, and
   its signature verifies over exactly the canonical text of its payload, under the named key.
   */
  lemma AcceptedEnvelopeIsExpected(le: Order<string>, c: Crypto, envelope: Value, expected: Record)
    requires VerifySigned(le, c, envelope, Some(expected)) && Distinct(Keys(expected))
    requires Printable(Get(Get(envelope, "payload"), "checksums"))
    ensures Same(Get(Get(envelope, "payload"), "checksums"), Obj(RecordMembers(SortRecord(le, expected))))
    ensures c.verify(Get(envelope, "publicKey").s, CanonicalJson(le, Get(envelope, "payload")),
                     Get(envelope, "signature").s)
  {
    SortedRecord(le, expected);
    RecordIsPlain(SortRecord(le, expected));
    EqualTextMeansSameValue(le, Get(Get(envelope, "payload"), "checksums"),
                            Obj(RecordMembers(SortRecord(le, expected))));
  }

  // What an accepted envelope says of itself

  /** The first 32 digits of the digest of the public key's DER form. */
  ghost predicate IsKeyId(c: Crypto, publicKey: string, keyId: Value) {
    && c.keyDer(publicKey).Some?
    && var digest := c.hash(c.keyDer(publicKey).value);
    && (|digest| >= 32 ==> keyId == Str(digest[..32]))
    && (|digest| < 32 ==> keyId == Str(digest))
  }

  /**
   An accepted envelope is of the one version and algorithm there is, its digest is that of the
   canonical text of its payload, its key id that of its key, and its signature one of that text.
   */
  lemma AcceptedEnvelopeIsInOrder(le: Order<string>, c: Crypto, envelope: Value, expected: Option<Record>)
    requires VerifySigned(le, c, envelope, expected)
    ensures Get(envelope, "schemaVersion") == Int(1) && Get(envelope, "algorithm") == Str("Ed25519")
    ensures !Get(envelope, "payload").Undefined?
    ensures Get(envelope, "payloadSha256") == Str(c.hash(CanonicalJson(le, Get(envelope, "payload"))))
    ensures Get(envelope, "publicKey").Str? && IsKeyId(c, Get(envelope, "publicKey").s, Get(envelope, "keyId"))
    ensures Get(envelope, "signature").Str?
    ensures c.verify(Get(envelope, "publicKey").s, CanonicalJson(le, Get(envelope, "payload")),
                     Get(envelope, "signature").s)
  {
  }

  /** `members` with another value under a name it has. */
  function Replaced(members: seq<(string, Value)>, name: string, value: Value): seq<(string, Value)> {
    if members == [] then []
    else if members[0].0 == name then [(name, value)] + members[1..]
    else [members[0]] + Replaced(members[1..], name, value)
  }

  lemma {:induction false} ReplacedLookup(members: seq<(string, Value)>, name: string, value: Value, other: string)
    ensures Lookup(Replaced(members, name, value), other)
         == if other == name && name in Keys(members) then value else Lookup(members, other)
  {
    if members != [] {
      ReplacedLookup(members[1..], name, value, other);
      HasKeyStep(members, name);
      if members[0].0 == name {
        LookupStep((name, value), members[1..], other);
      } else {
        LookupStep(members[0], Replaced(members[1..], name, value), other);
      }
    }
  }

  lemma HasKeyStep(members: seq<(string, Value)>, name: string)
    requires members != []
    ensures name in Keys(members) <==> name == members[0].0 || name in Keys(members[1..])
  {
    assert Keys(members) == [members[0].0] + Keys(members[1..]);
  }

  /** The fields of an envelope that its other fields determine. */
  predicate IsDetermined(name: string) {
    name in {"schemaVersion", "algorithm", "payloadSha256", "keyId"}
  }

  lemma DeterminedFieldsAreThere(keyId: string, publicKey: string, payload: Value, digest: string, signature: string,
                                 name: string)
    requires IsDetermined(name)
    ensures name in Keys(EnvelopeMembers(keyId, publicKey, payload, digest, signature))
  {
    var keys := Keys(EnvelopeMembers(keyId, publicKey, payload, digest, signature));
    assert keys[0] == "schemaVersion" && keys[1] == "algorithm" && keys[2] == "keyId" && keys[5] == "payloadSha256";
  }

  lemma OtherFieldsDiffer(name: string)
    requires IsDetermined(name)
    ensures name != "payload" && name != "publicKey"
  {
    assert "schemaVersion"[0] == 's' && "algorithm"[0] == 'a' && "keyId"[0] == 'k' && "payload"[0] == 'p'
        && "publicKey"[0] == 'p';
    assert |"payloadSha256"| == 13 && |"payload"| == 7 && |"publicKey"| == 9;
  }

  /** Two accepted envelopes with one payload and one key agree in the fields these determine. */
  lemma DeterminedFieldsAgree(le: Order<string>, c: Crypto, a: Value, b: Value, x: Option<Record>, y: Option<Record>,
                              name: string)
    requires IsDetermined(name) && VerifySigned(le, c, a, x) && VerifySigned(le, c, b, y)
    requires Get(a, "payload") == Get(b, "payload") && Get(a, "publicKey") == Get(b, "publicKey")
    ensures Get(a, name) == Get(b, name)
  {
    AcceptedEnvelopeIsInOrder(le, c, a, x);
    AcceptedEnvelopeIsInOrder(le, c, b, y);
  }

  /** So what `signChecksums` made is refused with another version, algorithm, digest or key id in it. */
  lemma ReplacedFieldIsNoticed(le: Order<string>, c: Crypto, checksums: Record, key: string, createdAt: string,
                               name: string, value: Value, expected: Option<Record>)
    requires Sound(c) && c.publicKeyOf(key).Some? && IsDetermined(name)
    ensures SignChecksums(le, c, checksums, key, createdAt).Some?
    ensures var e := SignChecksums(le, c, checksums, key, createdAt).value;
            && e.Obj?
            && (value != Get(e, name) ==> !VerifySigned(le, c, Obj(Replaced(e.members, name, value)), expected))
  {
    SignedFields(le, c, checksums, key, createdAt, checksums);
    var e := SignChecksums(le, c, checksums, key, createdAt).value;
    var pub := c.publicKeyOf(key).value;
    var bytes := CanonicalJson(le, Payload(le, checksums, createdAt));
    DeterminedFieldsAreThere(KeyId(c.keyDer(pub).value, c), pub, Payload(le, checksums, createdAt), c.hash(bytes),
                             c.sign(key, bytes), name);
    var changed := Obj(Replaced(e.members, name, value));
    OtherFieldsDiffer(name);
    ReplacedLookup(e.members, name, value, name);
    ReplacedLookup(e.members, name, value, "payload");
    ReplacedLookup(e.members, name, value, "publicKey");
    if VerifySigned(le, c, changed, expected) {
      DeterminedFieldsAgree(le, c, changed, e, expected, None, name);
    }
  }

  /** What is signed: the one version there is, the time, and the checksums in ascending order of their names. */
  lemma SignedPayload(le: Order<string>, c: Crypto, checksums: Record, key: string, createdAt: string)
    requires TotalPreorder(le) && SignChecksums(le, c, checksums, key, createdAt).Some?
    ensures var payload := Get(SignChecksums(le, c, checksums, key, createdAt).value, "payload");
            && Get(payload, "schemaVersion") == Int(1) && Get(payload, "createdAt") == Str(createdAt)
            && Get(payload, "checksums").Obj?
            && var m := Get(payload, "checksums").members;
            && multiset(m) == multiset(RecordMembers(checksums))
            && forall i, j :: 0 <= i < j < |m| ==> le(m[i].0, m[j].0)
  {
    var pub, payload := c.publicKeyOf(key).value, Payload(le, checksums, createdAt);
    var bytes := CanonicalJson(le, payload);
    EnvelopeLookups(KeyId(c.keyDer(pub).value, c), pub, payload, c.hash(bytes), c.sign(key, bytes));
    PayloadLookup(le, checksums, createdAt);
    PayloadTimes(le, checksums, createdAt);
    SortedMembers(le, checksums);
  }

  lemma PayloadTimes(le: Order<string>, checksums: Record, createdAt: string)
    ensures Get(Payload(le, checksums, createdAt), "schemaVersion") == Int(1)
    ensures Get(Payload(le, checksums, createdAt), "createdAt") == Str(createdAt)
  {
    var m := PayloadMembers(le, checksums, createdAt);
    assert "schemaVersion"[0] == 's' && "createdAt"[0] == 'c';
    LooksUp(m, 0);
    LooksUp(m, 1);
  }

  lemma SortedMembers(le: Order<string>, checksums: Record)
    requires TotalPreorder(le)
    ensures var m := RecordMembers(SortRecord(le, checksums));
            && multiset(m) == multiset(RecordMembers(checksums))
            && forall i, j :: 0 <= i < j < |m| ==> le(m[i].0, m[j].0)
  {
    var sorted := SortRecord(le, checksums);
    ByKeyIsAPreorder<string>(le);
    SortBySorts(ByKey<string>(le), checksums);
    forall i, j | 0 <= i < j < |sorted| ensures le(sorted[i].0, sorted[j].0) {
      assert ByKey<string>(le)(sorted[i], sorted[j]);
    }
    var f := (e: (string, string)) => (e.0, Value.Str(e.1));
    MapPermutes(f, sorted, checksums);
    assert RecordMembers(sorted) == MapSeq(f, sorted) && RecordMembers(checksums) == MapSeq(f, checksums);
  }

  /** The envelope survives being written as indented JSON and read back. */
  lemma EnvelopeSurvivesItsFile(le: Order<string>, c: Crypto, checksums: Record, key: string, createdAt: string)
    requires Distinct(Keys(checksums)) && SignChecksums(le, c, checksums, key, createdAt).Some?
    ensures var e := SignChecksums(le, c, checksums, key, createdAt).value;
            Parse(Print(e, "  ", "") + "\n") == Some(e)
  {
    EnvelopeIsPlain(le, c, checksums, key, createdAt);
    ParseUndoesPrint(SignChecksums(le, c, checksums, key, createdAt).value, "  ", "\n");
  }
}
