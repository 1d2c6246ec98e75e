/** What decides the outcome of checking a release: the first bad line, and then the attestation. */
module VerifyVerdicts {
  import opened Wrappers
  import opened Text
  import opened Sorting
  import opened Json
  import opened Attestation
  import opened Release
  import opened ReleaseLines

  // Lines

  predicate IsHex(c: char) {
    '0' <= c <= '9' || 'a' <= c <= 'f'
  }

  predicate IsLegal(c: char) {
    'A' <= c <= 'Z' || 'a' <= c <= 'z' || '0' <= c <= '9' || c == '.' || c == '_' || c == '/' || c == '-'
  }

  /** 64 lower-case hex digits, two blanks, and a relative name of legal characters without two dots in a row. */
  ghost predicate IsSumLine(line: string, digest: string, name: string) {
    && line == digest + "  " + name
    && |digest| == 64 && (forall i :: 0 <= i < 64 ==> IsHex(digest[i]))
    && name != "" && name[0] != '/' && (forall i :: 0 <= i < |name| ==> IsLegal(name[i]))
    && !exists i :: 0 <= i < |name| - 1 && name[i] == '.' && name[i + 1] == '.'
  }

  lemma {:induction false} TwoDots(s: string)
    ensures Contains(s, "..") <==> exists i :: 0 <= i < |s| - 1 && s[i] == '.' && s[i + 1] == '.'
  {
    if s != "" {
      TwoDots(s[1..]);
      if |s| >= 2 {
        assert s[..2] == [s[0], s[1]];
      }
      if i :| 0 <= i < |s| - 1 && s[i] == '.' && s[i + 1] == '.' {
        if i > 0 {
          assert s[1..][i - 1] == '.' && s[1..][i] == '.';
        }
      }
    }
  }

  lemma SumLineParses(line: string)
    ensures match ParseSumLine(line)
            case Some((name, digest)) => IsSumLine(line, digest, name)
            case None => !exists digest, name :: IsSumLine(line, digest, name)
  {
    if |line| > 66 {
      TwoDots(line[66..]);
      assert line == line[..64] + line[64..66] + line[66..];
    }
    if digest, name :| IsSumLine(line, digest, name) {
      assert line[..64] == digest && line[64..66] == "  " && line[66..] == name;
    }
  }

  // Paths

  /** The segments of the name but for empty ones and single dots, in order. */
  ghost predicate IsPathOf(name: string, path: string) {
    exists p: seq<nat>, parts: seq<string> ::
      && Selects(p, SplitOn(name, '/'), parts) && path == Join(parts, "/")
      && forall i: nat :: i in p <==>
           i < |SplitOn(name, '/')| && SplitOn(name, '/')[i] != "" && SplitOn(name, '/')[i] != "."
  }

  predicate IsSolid(segment: string) {
    segment != "" && segment != "."
  }

  lemma SolidStep(segments: seq<string>)
    requires segments != []
    ensures Solid(segments) == (if IsSolid(segments[0]) then [segments[0]] else []) + Solid(segments[1..])
  {
  }

  lemma {:induction false} SolidInOrder(segments: seq<string>) returns (p: seq<nat>)
    ensures Selects(p, segments, Solid(segments))
    ensures forall i: nat :: i in p <==> i < |segments| && segments[i] != "" && segments[i] != "."
  {
    if segments == [] {
      p := [];
    } else {
      var q := SolidInOrder(segments[1..]);
      p := Shifted(q, IsSolid(segments[0]));
      SolidStep(segments);
      HeadAndRest(segments, []);
      SelectsOneMore(q, segments[0], segments[1..], Solid(segments[1..]), IsSolid(segments[0]));
      forall i: nat ensures i in p <==> i < |segments| && segments[i] != "" && segments[i] != "." {
        ShiftedIn(q, IsSolid(segments[0]), i);
      }
    }
  }

  lemma ResolvedIsPath(name: string)
    ensures IsPathOf(name, Resolve(name))
  {
    var p := SolidInOrder(SplitOn(name, '/'));
  }

  // Errors

  /** What the line says of the directory: a digest, a name, and the path the name stands for. */
  ghost predicate Says(line: string, digest: string, name: string, path: string) {
    IsSumLine(line, digest, name) && IsPathOf(name, path)
  }

  /** What each outcome of checking one line means. */
  ghost predicate LineMeans(hash: string -> string, dir: Directory, line: string,
                            r: Result<(string, string), VerifyError>) {
    match r
    case Ok((name, digest)) =>
      exists path :: Says(line, digest, name, path) && path != "" && path in dir && hash(dir[path]) == digest
    case Err(Malformed) => !exists digest, name :: IsSumLine(line, digest, name)
    case Err(Escapes) => exists digest, name :: Says(line, digest, name, "")
    case Err(Unreadable(name)) => exists digest, path :: Says(line, digest, name, path) && path != "" && path !in dir
    case Err(Mismatch(name)) =>
      exists digest, path :: Says(line, digest, name, path) && path != "" && path in dir && hash(dir[path]) != digest
    case _ => false
  }

  lemma LineDecides(hash: string -> string, dir: Directory, line: string)
    ensures LineMeans(hash, dir, line, CheckLine(hash, dir, line))
  {
    SumLineParses(line);
    match ParseSumLine(line)
    case None =>
    case Some((name, digest)) =>
      ResolvedIsPath(name);
      assert Says(line, digest, name, Resolve(name));
  }

  /** The first line that is not empty and does not check. */
  ghost predicate FirstBad(hash: string -> string, dir: Directory, lines: seq<string>, k: nat, error: VerifyError) {
    && k < |lines| && lines[k] != "" && LineMeans(hash, dir, lines[k], Err(error))
    && forall j :: 0 <= j < k ==> lines[j] == "" || Checks(hash, dir, lines[j])
  }

  ghost predicate Checks(hash: string -> string, dir: Directory, line: string) {
    exists name, digest :: LineMeans(hash, dir, line, Ok((name, digest)))
  }

  /** The entries are what the lines that are not empty say, in order. */
  ghost predicate AllCheck(hash: string -> string, dir: Directory, lines: seq<string>,
                           entries: seq<(string, string)>) {
    exists p: seq<nat>, solid: seq<string> ::
      && Selects(p, lines, solid) && (forall i: nat :: i in p <==> i < |lines| && lines[i] != "")
      && AreEntries(hash, dir, solid, entries)
  }

  ghost predicate AreEntries(hash: string -> string, dir: Directory, lines: seq<string>,
                             entries: seq<(string, string)>) {
    && |entries| == |lines|
    && forall k :: 0 <= k < |lines| ==> LineMeans(hash, dir, lines[k], Ok(entries[k]))
  }

  lemma {:induction false} LinesFail(hash: string -> string, dir: Directory, lines: seq<string>) returns (k: nat)
    requires CheckLines(hash, dir, lines).Err?
    ensures FirstBad(hash, dir, lines, k, CheckLines(hash, dir, lines).error)
  {
    LineDecides(hash, dir, lines[0]);
    if lines[0] != "" && CheckLine(hash, dir, lines[0]).Err? {
      k := 0;
    } else {
      k := LinesFail(hash, dir, lines[1..]);
      BadBehind(hash, dir, lines, k, CheckLines(hash, dir, lines).error);
      k := k + 1;
    }
  }

  lemma BadBehind(hash: string -> string, dir: Directory, lines: seq<string>, k: nat, error: VerifyError)
    requires lines != [] && (lines[0] == "" || Checks(hash, dir, lines[0]))
    requires FirstBad(hash, dir, lines[1..], k, error)
    ensures FirstBad(hash, dir, lines, k + 1, error)
  {
    assert forall j :: 1 <= j < |lines| ==> lines[j] == lines[1..][j - 1];
  }

  /** The lines that are not empty. */
  function NotEmpty(lines: seq<string>): seq<string> {
    if lines == [] then []
    else (if lines[0] != "" then [lines[0]] else []) + NotEmpty(lines[1..])
  }

  lemma {:induction false} NotEmptyInOrder(lines: seq<string>) returns (p: seq<nat>)
    ensures Selects(p, lines, NotEmpty(lines))
    ensures forall i: nat :: i in p <==> i < |lines| && lines[i] != ""
  {
    if lines == [] {
      p := [];
    } else {
      var q := NotEmptyInOrder(lines[1..]);
      p := Shifted(q, lines[0] != "");
      HeadAndRest(lines, []);
      SelectsOneMore(q, lines[0], lines[1..], NotEmpty(lines[1..]), lines[0] != "");
      forall i: nat ensures i in p <==> i < |lines| && lines[i] != "" {
        ShiftedIn(q, lines[0] != "", i);
      }
    }
  }

  lemma OneMoreEntry(hash: string -> string, dir: Directory, line: string, entry: (string, string),
                     lines: seq<string>, entries: seq<(string, string)>)
    requires LineMeans(hash, dir, line, Ok(entry)) && AreEntries(hash, dir, lines, entries)
    ensures AreEntries(hash, dir, [line] + lines, [entry] + entries)
  {
  }

  lemma {:induction false} EntriesOfLines(hash: string -> string, dir: Directory, lines: seq<string>)
    requires CheckLines(hash, dir, lines).Ok?
    ensures AreEntries(hash, dir, NotEmpty(lines), CheckLines(hash, dir, lines).value)
  {
    if lines != [] {
      EntriesOfLines(hash, dir, lines[1..]);
      if lines[0] != "" {
        LineDecides(hash, dir, lines[0]);
        OneMoreEntry(hash, dir, lines[0], CheckLine(hash, dir, lines[0]).value, NotEmpty(lines[1..]),
                     CheckLines(hash, dir, lines[1..]).value);
      }
    }
  }

  lemma LinesCheck(hash: string -> string, dir: Directory, lines: seq<string>)
    requires CheckLines(hash, dir, lines).Ok?
    ensures AllCheck(hash, dir, lines, CheckLines(hash, dir, lines).value)
  {
    var p := NotEmptyInOrder(lines);
    EntriesOfLines(hash, dir, lines);
  }

  // The checksums an attestation is held against

  /** The digest last read under each name, but for "__proto__". */
  ghost predicate IsRecordOf(record: seq<(string, string)>, entries: seq<(string, string)>) {
    && Distinct(Keys(record))
    && forall e :: e in record <==> e.0 != "__proto__" && IsLast(entries, e)
  }

  ghost predicate IsLast(entries: seq<(string, string)>, e: (string, string)) {
    exists k :: 0 <= k < |entries| && entries[k] == e && forall j :: k < j < |entries| ==> entries[j].0 != e.0
  }

  lemma LastOfRest(first: (string, string), rest: seq<(string, string)>, e: (string, string))
    requires IsLast(rest, e)
    ensures IsLast([first] + rest, e)
  {
    var k :| 0 <= k < |rest| && rest[k] == e && forall j :: k < j < |rest| ==> rest[j].0 != e.0;
    assert ([first] + rest)[k + 1] == e;
  }

  lemma OnlyFirst(first: (string, string), rest: seq<(string, string)>)
    requires first.0 !in Keys(rest)
    ensures IsLast([first] + rest, first)
  {
    var all := [first] + rest;
    assert all[0] == first;
    forall j | 0 < j < |all| ensures all[j].0 != first.0 {
      assert all[j].0 == Keys(rest)[j - 1];
    }
  }

  lemma LastOfAll(first: (string, string), rest: seq<(string, string)>, e: (string, string))
    requires IsLast([first] + rest, e)
    ensures IsLast(rest, e) || (first == e && e.0 !in Keys(rest))
  {
    var all := [first] + rest;
    var k :| 0 <= k < |all| && all[k] == e && forall j :: k < j < |all| ==> all[j].0 != e.0;
    if k > 0 {
      assert rest[k - 1] == e;
      forall j | k - 1 < j < |rest| ensures rest[j].0 != e.0 {
        assert all[j + 1] == rest[j];
      }
    } else {
      forall j | 0 <= j < |rest| ensures Keys(rest)[j] != e.0 {
        assert all[j + 1] == rest[j];
      }
    }
  }

  lemma Among<T>(x: T, rest: seq<T>, e: T)
    ensures e in [x] + rest <==> e == x || e in rest
  {
  }

  lemma HasItsKey(r: Record, e: (string, string))
    requires e in r
    ensures e.0 in Keys(r)
  {
    var i :| 0 <= i < |r| && r[i] == e;
    assert Keys(r)[i] == e.0;
  }

  lemma {:induction false} AssignHas(r: Record, name: string, value: string, e: (string, string))
    requires Distinct(Keys(r)) && name != "__proto__"
    ensures e in Assign(r, name, value) <==> if e.0 == name then e.1 == value else e in r
    decreases r
  {
    if r != [] {
      HeadAndRest(r, []);
      KeysStep(r[0], r[1..]);
      Among(r[0], r[1..], e);
      if r[0].0 == name {
        Among((name, value), r[1..], e);
        if e in r[1..] {
          HasItsKey(r[1..], e);
        }
      } else {
        AssignHas(r[1..], name, value, e);
        Among(r[0], Assign(r[1..], name, value), e);
      }
    }
  }

  /** What is in a record after a run of assignments. */
  lemma {:induction false} AssignAllHas(r: Record, entries: Record, e: (string, string))
    requires Distinct(Keys(r)) && "__proto__" !in Keys(r)
    ensures Distinct(Keys(AssignAll(r, entries)))
    ensures e in AssignAll(r, entries) <==>
            (e.0 != "__proto__" && IsLast(entries, e)) || (e in r && e.0 !in Keys(entries))
    decreases |entries|
  {
    if entries != [] {
      var (first, rest) := (entries[0], entries[1..]);
      HeadAndRest(entries, []);
      KeysStep(first, rest);
      AssignKeepsNames(r, first.0, first.1);
      AssignAllHas(Assign(r, first.0, first.1), rest, e);
      if first.0 != "__proto__" {
        AssignHas(r, first.0, first.1, e);
      }
      FirstOrRest(first, rest, e);
      if e in r {
        HasItsKey(r, e);
      }
    }
  }

  lemma FirstOrRest(first: (string, string), rest: seq<(string, string)>, e: (string, string))
    ensures IsLast([first] + rest, e) <==> IsLast(rest, e) || (first == e && e.0 !in Keys(rest))
  {
    if IsLast([first] + rest, e) {
      LastOfAll(first, rest, e);
    }
    if IsLast(rest, e) {
      LastOfRest(first, rest, e);
    }
    if first == e && e.0 !in Keys(rest) {
      OnlyFirst(first, rest);
    }
  }

  lemma AssignedIsRecord(entries: Record)
    ensures IsRecordOf(AssignAll([], entries), entries)
  {
    forall e ensures e in AssignAll([], entries) <==> e.0 != "__proto__" && IsLast(entries, e) {
      AssignAllHas([], entries, e);
    }
    AssignAllHas([], entries, ("", ""));
  }

  // The verdict

  /** The names read, in ascending order. */
  ghost predicate AreNames(unit: Order<string>, entries: seq<(string, string)>, files: seq<string>) {
    Sorted(unit, files) && multiset(files) == multiset(Keys(entries))
  }

  /** When every line checks, the attestation decides, if there is one. */
  ghost predicate Concludes(p: Platform, unit: Order<string>, dir: Directory, entries: seq<(string, string)>,
                            record: seq<(string, string)>, r: Result<Verified, VerifyError>) {
    && (r.Ok? ==> AreNames(unit, entries, r.value.files))
    && if "attestation.ed25519.json" !in dir then r.Ok? && r.value.signature == Absent
       else
         match Parse(dir["attestation.ed25519.json"])
         case None => r == Err(BadAttestation)
         case Some(envelope) =>
           if VerifySigned(p.le, p.crypto, envelope, Some(record)) then r.Ok? && r.value.signature == Valid
           else r == Err(InvalidSignature)
  }

  ghost predicate EndsAtFirstBad(hash: string -> string, dir: Directory, lines: seq<string>,
                                 r: Result<Verified, VerifyError>) {
    exists k: nat :: r.Err? && FirstBad(hash, dir, lines, k, r.error)
  }

  ghost predicate EndsWithAttestation(p: Platform, unit: Order<string>, dir: Directory, lines: seq<string>,
                                      r: Result<Verified, VerifyError>) {
    exists entries, record ::
      && AllCheck(p.crypto.hash, dir, lines, entries) && IsRecordOf(record, entries)
      && Concludes(p, unit, dir, entries, record, r)
  }

  lemma NamesInOrder(unit: Order<string>, entries: Record)
    requires TotalPreorder(unit)
    ensures AreNames(unit, entries, SortBy(unit, Keys(entries)))
  {
    SortBySorts(unit, Keys(entries));
  }

  lemma ReadThrough(p: Platform, unit: Order<string>, dir: Directory)
    requires TotalPreorder(unit) && SUMS_FILE in dir
    requires CheckLines(p.crypto.hash, dir, SplitOn(dir[SUMS_FILE], '\n')).Ok?
    ensures EndsWithAttestation(p, unit, dir, SplitOn(dir[SUMS_FILE], '\n'), VerifyOutcome(p, unit, dir))
  {
    var lines := SplitOn(dir[SUMS_FILE], '\n');
    var entries := CheckLines(p.crypto.hash, dir, lines).value;
    LinesCheck(p.crypto.hash, dir, lines);
    AssignedIsRecord(entries);
    NamesInOrder(unit, entries);
    assert Concludes(p, unit, dir, entries, AssignAll([], entries), VerifyOutcome(p, unit, dir));
  }

  /**
   A directory without a checksum file is an error.  With one, the first line that is not empty and
   does not check decides; when they all check, the attestation does.
   */
  lemma VerdictIs(p: Platform, unit: Order<string>, dir: Directory)
    requires TotalPreorder(unit)
    ensures var r := VerifyOutcome(p, unit, dir);
            if "SHA256SUMS" !in dir then r == Err(NoSums)
            else
              var lines := SplitOn(dir["SHA256SUMS"], '\n');
              EndsAtFirstBad(p.crypto.hash, dir, lines, r) || EndsWithAttestation(p, unit, dir, lines, r)
  {
    if SUMS_FILE in dir {
      var lines := SplitOn(dir[SUMS_FILE], '\n');
      if CheckLines(p.crypto.hash, dir, lines).Err? {
        var k := LinesFail(p.crypto.hash, dir, lines);
      } else {
        ReadThrough(p, unit, dir);
      }
    }
  }
}
