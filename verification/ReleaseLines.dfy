/** The checksum file as text: how its lines are read back, and what line breaks in names do to them. */
module ReleaseLines {
  import opened Wrappers
  import opened Text
  import opened Sorting
  import opened Attestation
  import opened Release

  // One line of the checksum file

  lemma LineParses(name: string, digest: string)
    requires IsDigest(digest)
    ensures ParseSumLine(SumLine((name, digest))) == if SafeName(name) then Some((name, digest)) else None
  {
    var line := SumLine((name, digest));
    assert line[..64] == digest && line[64..66] == "  " && line[66..] == name;
  }

  /** The entry's file is where it says and hashes to what it says. */
  ghost predicate Intact(hash: string -> string, dir: Directory, e: (string, string)) {
    Resolve(e.0) == e.0 && e.0 != "" && e.0 in dir && hash(dir[e.0]) == e.1
  }

  lemma LineChecks(hash: string -> string, dir: Directory, e: (string, string))
    requires IsDigest(e.1) && (SafeName(e.0) ==> Intact(hash, dir, e))
    ensures CheckLine(hash, dir, SumLine(e)) == if SafeName(e.0) then Ok(e) else Err(Malformed)
  {
    LineParses(e.0, e.1);
  }

  ghost predicate AllIntact(hash: string -> string, dir: Directory, entries: Record) {
    forall i :: 0 <= i < |entries| ==>
      IsDigest(entries[i].1) && (SafeName(entries[i].0) ==> Intact(hash, dir, entries[i]))
  }

  ghost predicate AllSafe(entries: Record) {
    forall i :: 0 <= i < |entries| ==> SafeName(entries[i].0)
  }

  /** The lines read back as the entries exactly when every name is safe. */
  lemma {:induction false} LinesCheck(hash: string -> string, dir: Directory, entries: Record)
    requires AllIntact(hash, dir, entries)
    ensures AllSafe(entries) ==> CheckLines(hash, dir, SumLines(entries) + [""]) == Ok(entries)
    ensures !AllSafe(entries) ==> CheckLines(hash, dir, SumLines(entries) + [""]).Err?
    decreases |entries|
  {
    var lines := SumLines(entries) + [""];
    if entries == [] {
      assert lines == [""];
      assert lines[1..] == [];
    } else {
      assert lines[0] == SumLine(entries[0]) && lines[0] != "";
      assert lines[1..] == SumLines(entries[1..]) + [""];
      LineChecks(hash, dir, entries[0]);
      LinesCheck(hash, dir, entries[1..]);
      assert entries == [entries[0]] + entries[1..];
      assert AllSafe(entries) <==> SafeName(entries[0].0) && AllSafe(entries[1..]);
    }
  }

  lemma {:induction false} JoinEmptyLast(parts: seq<string>)
    requires parts != []
    ensures Join(parts + [""], "\n") == Join(parts, "\n") + "\n"
  {
    assert (parts + [""])[1..] == parts[1..] + [""];
    if |parts| == 1 {
      assert (parts + [""])[1..] == [""];
      assert Join(parts + [""], "\n") == parts[0] + "\n" + "";
    } else {
      JoinEmptyLast(parts[1..]);
    }
  }

  lemma SumsTextSplits(le: Order<string>, checksums: Record)
    requires checksums != [] && forall e :: e in checksums ==> IsDigest(e.1) && '\n' !in e.0
    ensures SplitOn(SumsText(le, checksums), '\n') == SumLines(SortRecord(le, checksums)) + [""]
  {
    var sorted := SortRecord(le, checksums);
    MembersOfPermutation(checksums, sorted);
    var lines := SumLines(sorted);
    forall i | 0 <= i < |lines| ensures '\n' !in lines[i] {
      assert sorted[i] in checksums;
      LineHasNoBreak(sorted[i]);
    }
    JoinEmptyLast(lines);
    SplitJoin(lines + [""], '\n');
  }

  lemma LineHasNoBreak(e: (string, string))
    requires IsDigest(e.1) && '\n' !in e.0
    ensures '\n' !in SumLine(e)
  {
  }

  lemma SplitSums(le: Order<string>, c: Record)
    requires forall e :: e in c ==> IsDigest(e.1) && '\n' !in e.0
    ensures SplitOn(SumsText(le, c), '\n') == if c == [] then ["", ""] else SumLines(SortRecord(le, c)) + [""]
    ensures c == [] <==> SplitOn(SumsText(le, c), '\n')[0] == ""
  {
    if c == [] {
      assert SumsText(le, c) == "\n" && "\n"[1..] == "";
    } else {
      SumsTextSplits(le, c);
      var lines := SumLines(SortRecord(le, c));
      assert (lines + [""])[0] == lines[0] == SumLine(SortRecord(le, c)[0]);
    }
  }

  lemma LinesTellEntries(c: Record, d: Record)
    requires SumLines(c) == SumLines(d)
    requires (forall e :: e in c ==> IsDigest(e.1)) && (forall e :: e in d ==> IsDigest(e.1))
    ensures c == d
  {
    forall i | 0 <= i < |c| ensures c[i] == d[i] {
      assert c[i] in c && d[i] in d;
      assert SumLines(c)[i] == SumLines(d)[i];
      LineTellsEntry(c[i], d[i]);
    }
  }

  lemma LineTellsEntry(e: (string, string), f: (string, string))
    requires IsDigest(e.1) && IsDigest(f.1) && SumLine(e) == SumLine(f)
    ensures e == f
  {
    assert SumLine(e)[..64] == e.1 && SumLine(f)[..64] == f.1;
    assert SumLine(e)[66..] == e.0 && SumLine(f)[66..] == f.0;
  }

  /** Without line breaks in names, the checksum file tells the sorted record, and so its entries. */
  lemma SumsTextTellsTheRecord(le: Order<string>, c: Record, d: Record)
    requires forall e :: e in c ==> IsDigest(e.1) && '\n' !in e.0
    requires forall e :: e in d ==> IsDigest(e.1) && '\n' !in e.0
    requires SumsText(le, c) == SumsText(le, d)
    ensures SortRecord(le, c) == SortRecord(le, d) && multiset(c) == multiset(d)
  {
    SplitSums(le, c);
    SplitSums(le, d);
    var x, y := SortRecord(le, c), SortRecord(le, d);
    MembersOfPermutation(c, x);
    MembersOfPermutation(d, y);
    if c != [] {
      DropLast(SumLines(x), SumLines(y), "");
      LinesTellEntries(x, y);
    }
  }

  lemma DropLast<T>(a: seq<T>, b: seq<T>, x: T)
    requires a + [x] == b + [x]
    ensures a == b
  {
    assert |a + [x]| == |b + [x]|;
    forall i | 0 <= i < |a| ensures a[i] == b[i] {
      assert (a + [x])[i] == (b + [x])[i];
    }
  }

  // The record rebuilt from the lines

  lemma {:induction false} AssignsAppend(r: Record, entries: Record)
    requires Distinct(Keys(r + entries)) && forall e :: e in entries ==> e.0 != "__proto__"
    ensures AssignAll(r, entries) == r + entries
    decreases |entries|
  {
    if entries == [] {
      assert r + entries == r;
    } else {
      var e := entries[0];
      assert e in entries;
      assert r + entries == (r + [e]) + entries[1..];
      forall i | 0 <= i < |r| ensures r[i].0 != e.0 {
        assert Keys(r + entries)[i] != Keys(r + entries)[|r|];
      }
      AssignAppends(r, e);
      AssignsAppend(r + [e], entries[1..]);
    }
  }

  lemma {:induction false} AssignAppends(r: Record, e: (string, string))
    requires e.0 != "__proto__" && forall i :: 0 <= i < |r| ==> r[i].0 != e.0
    ensures Assign(r, e.0, e.1) == r + [e]
  {
    if r != [] {
      AssignAppends(r[1..], e);
      assert r == [r[0]] + r[1..];
    }
  }

  // Names with line breaks

  lemma LineHead(e: (string, string))
    requires IsDigest(e.1)
    ensures SplitOn(SumLine(e), '\n') == [SumLine((SplitOn(e.0, '\n')[0], e.1))] + SplitOn(e.0, '\n')[1..]
  {
    var head := e.1 + "  ";
    assert forall i :: 0 <= i < |head| ==> head[i] != '\n';
    SplitBehind(head, '\n', e.0);
    assert SumLine(e) == head + e.0;
  }

  /** A safe name that resolves to a file of this digest. */
  ghost predicate NamesFile(hash: string -> string, dir: Directory, name: string, digest: string) {
    SafeName(name) && Resolve(name) != "" && Resolve(name) in dir && hash(dir[Resolve(name)]) == digest
  }

  /** Nothing, or a digest, two spaces and the name of a file of that digest. */
  ghost predicate LineOk(hash: string -> string, dir: Directory, line: string) {
    line == "" ||
    (|line| > 66 && IsDigest(line[..64]) && line[64..66] == "  " && NamesFile(hash, dir, line[66..], line[..64]))
  }

  lemma CheckedExactly(hash: string -> string, dir: Directory, line: string)
    ensures LineOk(hash, dir, line) <==> line == "" || CheckLine(hash, dir, line).Ok?
  {
  }

  lemma EntryLineOk(hash: string -> string, dir: Directory, name: string, digest: string)
    requires IsDigest(digest)
    ensures LineOk(hash, dir, SumLine((name, digest))) <==> NamesFile(hash, dir, name, digest)
  {
    var line := SumLine((name, digest));
    assert line[..64] == digest && line[64..66] == "  " && line[66..] == name;
  }

  /**
   The entry reads as lines of a checksum file: its name up to the first line break names a file of
   its digest, and each piece behind a line break is empty, or a digest, two spaces and the name of a
   file of that digest.
   */
  ghost predicate ReadsAsLines(hash: string -> string, dir: Directory, e: (string, string)) {
    var pieces := SplitOn(e.0, '\n');
    && NamesFile(hash, dir, pieces[0], e.1)
    && forall k :: 1 <= k < |pieces| ==> LineOk(hash, dir, pieces[k])
  }

  lemma LinesStep(hash: string -> string, dir: Directory, lines: seq<string>)
    requires lines != []
    ensures CheckLines(hash, dir, lines).Ok? <==> LineOk(hash, dir, lines[0]) && CheckLines(hash, dir, lines[1..]).Ok?
  {
    CheckedExactly(hash, dir, lines[0]);
  }

  lemma {:induction false} AllLinesOk(hash: string -> string, dir: Directory, lines: seq<string>)
    ensures CheckLines(hash, dir, lines).Ok? <==> forall line :: line in lines ==> LineOk(hash, dir, line)
  {
    if lines != [] {
      LinesStep(hash, dir, lines);
      AllLinesOk(hash, dir, lines[1..]);
      HeadAndRest(lines, []);
      assert forall line :: line in [lines[0]] + lines[1..] <==> line == lines[0] || line in lines[1..];
    }
  }

  lemma EntryReadsAsLines(hash: string -> string, dir: Directory, e: (string, string))
    requires IsDigest(e.1)
    ensures (forall line :: line in SplitOn(SumLine(e), '\n') ==> LineOk(hash, dir, line))
        <==> ReadsAsLines(hash, dir, e)
  {
    LineHead(e);
    var lines, pieces := SplitOn(SumLine(e), '\n'), SplitOn(e.0, '\n');
    assert lines[0] == SumLine((pieces[0], e.1));
    EntryLineOk(hash, dir, pieces[0], e.1);
    assert forall k :: 1 <= k < |pieces| ==> lines[k] == pieces[k];
    if forall line :: line in lines ==> LineOk(hash, dir, line) {
      assert lines[0] in lines;
      forall k | 1 <= k < |pieces| ensures LineOk(hash, dir, pieces[k]) {
        assert lines[k] in lines;
      }
    }
  }

  /** The lines of the checksum file are those its entries make. */
  lemma SumsHasLine(le: Order<string>, c: Record, line: string)
    requires c != []
    ensures line in SplitOn(SumsText(le, c), '\n') <==>
            line == "" || exists e :: e in c && line in SplitOn(SumLine(e), '\n')
  {
    var sorted := SortRecord(le, c);
    MembersOfPermutation(c, sorted);
    var lines := SumLines(sorted);
    SplitAt(Join(lines, "\n"), '\n', "");
    assert Join(lines, "\n") + "\n" + "" == SumsText(le, c);
    LinesOfJoin(lines, '\n', line);
    if i :| 0 <= i < |lines| && line in SplitOn(lines[i], '\n') {
      assert sorted[i] in sorted;
    }
    if e :| e in c && line in SplitOn(SumLine(e), '\n') {
      var i :| 0 <= i < |sorted| && sorted[i] == e;
      assert lines[i] == SumLine(e);
    }
  }

  /** A checksum file is read without an error exactly when each of its entries reads as lines that check. */
  lemma SumsReadExactly(le: Order<string>, hash: string -> string, dir: Directory, c: Record)
    requires c != [] && forall e :: e in c ==> IsDigest(e.1)
    ensures CheckLines(hash, dir, SplitOn(SumsText(le, c), '\n')).Ok?
        <==> forall e :: e in c ==> ReadsAsLines(hash, dir, e)
  {
    var lines := SplitOn(SumsText(le, c), '\n');
    AllLinesOk(hash, dir, lines);
    if CheckLines(hash, dir, lines).Ok? {
      forall e | e in c ensures ReadsAsLines(hash, dir, e) {
        forall line | line in SplitOn(SumLine(e), '\n') ensures LineOk(hash, dir, line) {
          SumsHasLine(le, c, line);
        }
        EntryReadsAsLines(hash, dir, e);
      }
    }
    if forall e :: e in c ==> ReadsAsLines(hash, dir, e) {
      forall line | line in lines ensures LineOk(hash, dir, line) {
        SumsHasLine(le, c, line);
        if line != "" {
          var e :| e in c && line in SplitOn(SumLine(e), '\n');
          EntryReadsAsLines(hash, dir, e);
        }
      }
    }
  }

  lemma UnbrokenReads(hash: string -> string, dir: Directory, e: (string, string))
    requires '\n' !in e.0
    ensures ReadsAsLines(hash, dir, e) <==> NamesFile(hash, dir, e.0, e.1)
  {
    SplitWhole(e.0, '\n');
  }

  // What is read has no line break in a name

  ghost predicate Unbroken(r: Record) {
    forall e :: e in r ==> '\n' !in e.0
  }

  lemma SafeNamesAreUnbroken(name: string)
    requires SafeName(name)
    ensures '\n' !in name
  {
    assert forall i :: 0 <= i < |name| ==> IsNameChar(name[i]) && name[i] != '\n';
  }

  lemma {:induction false} CheckedIsUnbroken(hash: string -> string, dir: Directory, lines: seq<string>)
    requires CheckLines(hash, dir, lines).Ok?
    ensures Unbroken(CheckLines(hash, dir, lines).value)
  {
    if lines != [] {
      CheckedIsUnbroken(hash, dir, lines[1..]);
      if lines[0] != "" {
        SafeNamesAreUnbroken(CheckLine(hash, dir, lines[0]).value.0);
      }
    }
  }

  lemma {:induction false} AssignKeepsNames(r: Record, name: string, value: string)
    ensures forall k :: k in Keys(Assign(r, name, value)) ==> k in Keys(r) || k == name
    ensures Distinct(Keys(r)) ==> Distinct(Keys(Assign(r, name, value)))
  {
    if r != [] && name != "__proto__" {
      HeadAndRest(r, []);
      KeysStep(r[0], r[1..]);
      if r[0].0 == name {
        KeysStep((name, value), r[1..]);
      } else {
        AssignKeepsNames(r[1..], name, value);
        KeysStep(r[0], Assign(r[1..], name, value));
      }
    }
  }

  lemma UnbrokenKeys(r: Record)
    ensures Unbroken(r) <==> forall k :: k in Keys(r) ==> '\n' !in k
  {
    if Unbroken(r) {
      forall i | 0 <= i < |r| ensures '\n' !in Keys(r)[i] {
        assert r[i] in r;
      }
    }
    if forall k :: k in Keys(r) ==> '\n' !in k {
      forall i | 0 <= i < |r| ensures '\n' !in r[i].0 {
        assert Keys(r)[i] in Keys(r);
      }
    }
  }

  lemma AssignKeepsUnbroken(r: Record, name: string, value: string)
    requires Unbroken(r) && '\n' !in name && Distinct(Keys(r))
    ensures Unbroken(Assign(r, name, value)) && Distinct(Keys(Assign(r, name, value)))
  {
    AssignKeepsNames(r, name, value);
    UnbrokenKeys(r);
    UnbrokenKeys(Assign(r, name, value));
  }

  lemma {:induction false} AssignAllKeepsUnbroken(r: Record, entries: Record)
    requires Unbroken(r) && Unbroken(entries) && Distinct(Keys(r))
    ensures Unbroken(AssignAll(r, entries)) && Distinct(Keys(AssignAll(r, entries)))
    decreases |entries|
  {
    if entries != [] {
      assert entries[0] in entries;
      AssignKeepsUnbroken(r, entries[0].0, entries[0].1);
      AssignAllKeepsUnbroken(Assign(r, entries[0].0, entries[0].1), entries[1..]);
    }
  }

  // Files whose names hold a line break are never read

  lemma {:induction false} PiecesHaveNoBreak(s: string)
    requires '\n' !in s
    ensures forall i :: 0 <= i < |SplitOn(s, '/')| ==> '\n' !in SplitOn(s, '/')[i]
  {
    if s != "" {
      assert s[0] in s && forall c :: c in s[1..] ==> c in s;
      PiecesHaveNoBreak(s[1..]);
    }
  }

  lemma {:induction false} SolidHasNoBreak(segments: seq<string>)
    requires forall i :: 0 <= i < |segments| ==> '\n' !in segments[i]
    ensures forall i :: 0 <= i < |Solid(segments)| ==> '\n' !in Solid(segments)[i]
  {
    if segments != [] {
      SolidHasNoBreak(segments[1..]);
    }
  }

  lemma {:induction false} JoinHasNoBreak(segments: seq<string>)
    requires forall i :: 0 <= i < |segments| ==> '\n' !in segments[i]
    ensures '\n' !in Join(segments, "/")
  {
    if |segments| > 1 {
      JoinHasNoBreak(segments[1..]);
    }
  }

  lemma ResolvedHasNoBreak(name: string)
    requires '\n' !in name
    ensures '\n' !in Resolve(name)
  {
    PiecesHaveNoBreak(name);
    SolidHasNoBreak(SplitOn(name, '/'));
    JoinHasNoBreak(Solid(SplitOn(name, '/')));
  }

  /** The same files, but for those with a line break in their names. */
  ghost predicate SameUnbrokenFiles(a: Directory, b: Directory) {
    forall path :: '\n' !in path ==> (path in a <==> path in b) && (path in a ==> a[path] == b[path])
  }

  lemma {:induction false} LinesIgnoreBrokenFiles(hash: string -> string, a: Directory, b: Directory,
                                                  lines: seq<string>)
    requires SameUnbrokenFiles(a, b)
    ensures CheckLines(hash, a, lines) == CheckLines(hash, b, lines)
  {
    if lines != [] {
      LinesIgnoreBrokenFiles(hash, a, b, lines[1..]);
      if ParseSumLine(lines[0]).Some? {
        SafeNamesAreUnbroken(ParseSumLine(lines[0]).value.0);
        ResolvedHasNoBreak(ParseSumLine(lines[0]).value.0);
      }
    }
  }

  lemma AttestationIgnoresBrokenFiles(p: Platform, a: Directory, b: Directory, read: Record)
    requires SameUnbrokenFiles(a, b)
    ensures CheckAttestation(p, a, read) == CheckAttestation(p, b, read)
  {
    SpecialFilesAreUnbroken();
  }

  /** Whatever becomes of files with a line break in their names, verification does not notice. */
  lemma BrokenFilesAreNeverRead(p: Platform, unit: Order<string>, a: Directory, b: Directory)
    requires SameUnbrokenFiles(a, b)
    ensures VerifyOutcome(p, unit, a) == VerifyOutcome(p, unit, b)
  {
    SpecialFilesAreUnbroken();
    if SUMS_FILE in a {
      var checked := CheckLines(p.crypto.hash, a, SplitOn(a[SUMS_FILE], '\n'));
      LinesIgnoreBrokenFiles(p.crypto.hash, a, b, SplitOn(a[SUMS_FILE], '\n'));
      if checked.Ok? {
        AttestationIgnoresBrokenFiles(p, a, b, AssignAll([], checked.value));
      }
    }
  }

  lemma SpecialFilesAreUnbroken()
    ensures '\n' !in SUMS_FILE && '\n' !in ATTESTATION_FILE
  {
  }
}
