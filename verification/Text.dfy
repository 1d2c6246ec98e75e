/** String helpers the source takes from its languages' standard libraries. */
module Text {

  predicate StartsWith(s: string, prefix: string) {
    prefix <= s
  }

  /** `Array.prototype.join`. */
  function Join(parts: seq<string>, separator: string): string {
    if parts == [] then ""
    else if |parts| == 1 then parts[0]
    else parts[0] + separator + Join(parts[1..], separator)
  }

  lemma Associative<T>(a: seq<T>, b: seq<T>, c: seq<T>)
    ensures (a + b) + c == a + (b + c)
  {
  }

  lemma HeadAndRest<T>(a: seq<T>, b: seq<T>)
    requires a != []
    ensures a == [a[0]] + a[1..]
    ensures a + b == [a[0]] + (a[1..] + b)
  {
  }

  lemma Halves<T>(s: seq<T>, i: nat)
    requires i <= |s|
    ensures s[..i] + s[i..] == s
  {
  }

  lemma CutAt<T>(s: seq<T>, i: nat)
    requires i < |s|
    ensures s == s[..i] + ([s[i]] + s[i + 1..])
  {
  }

  function Concat(parts: seq<string>): string {
    if parts == [] then "" else parts[0] + Concat(parts[1..])
  }

  lemma {:induction false} ConcatAppend(a: seq<string>, b: seq<string>)
    ensures Concat(a + b) == Concat(a) + Concat(b)
  {
    if a == [] {
      assert a + b == b;
    } else {
      assert (a + b)[1..] == a[1..] + b;
      ConcatAppend(a[1..], b);
    }
  }

  /** `String.prototype.split` with a separator of one character. */
  function SplitOn(s: string, c: char): (r: seq<string>)
    ensures r != []
  {
    if s == "" then [""]
    else
      var rest := SplitOn(s[1..], c);
      if s[0] == c then [""] + rest else [[s[0]] + rest[0]] + rest[1..]
  }

  lemma {:induction false} SplitWhole(s: string, c: char)
    requires c !in s
    ensures SplitOn(s, c) == [s]
  {
    if s != "" {
      SplitWhole(s[1..], c);
      assert s == [s[0]] + s[1..];
    }
  }

  /** Up to its first separator a text is one piece. */
  lemma {:induction false} SplitHead(s: string, c: char, rest: string)
    requires c !in s
    ensures SplitOn(s + [c] + rest, c) == [s] + SplitOn(rest, c)
  {
    var text := s + [c] + rest;
    if s == "" {
      assert text == [c] + rest;
      assert text[1..] == rest;
    } else {
      assert text[1..] == s[1..] + [c] + rest;
      SplitHead(s[1..], c, rest);
      assert s == [s[0]] + s[1..];
    }
  }

  /** Splitting a text at a separator and splitting the two parts is splitting all of it. */
  lemma {:induction false} SplitAt(a: string, c: char, b: string)
    ensures SplitOn(a + [c] + b, c) == SplitOn(a, c) + SplitOn(b, c)
  {
    var text := a + [c] + b;
    if a == "" {
      assert text == [c] + b;
      assert text[1..] == b;
    } else {
      assert text[1..] == a[1..] + [c] + b;
      SplitAt(a[1..], c, b);
    }
  }

  /** What stands before the first separator stays with the first piece. */
  lemma {:induction false} SplitBehind(s: string, c: char, t: string)
    requires c !in s
    ensures SplitOn(s + t, c) == [s + SplitOn(t, c)[0]] + SplitOn(t, c)[1..]
  {
    if s == "" {
      assert s + t == t;
      assert s + SplitOn(t, c)[0] == SplitOn(t, c)[0];
      HeadAndRest(SplitOn(t, c), []);
    } else {
      assert (s + t)[1..] == s[1..] + t;
      SplitBehind(s[1..], c, t);
      var pieces, rest := SplitOn(t, c), SplitOn(s[1..] + t, c);
      assert rest[0] == s[1..] + pieces[0] && rest[1..] == pieces[1..];
      assert [s[0]] + (s[1..] + pieces[0]) == s + pieces[0];
    }
  }

  /** A line of joined parts is a line of one of them. */
  lemma {:induction false} LinesOfJoin(parts: seq<string>, c: char, line: string)
    requires parts != []
    ensures line in SplitOn(Join(parts, [c]), c) <==> exists i :: 0 <= i < |parts| && line in SplitOn(parts[i], c)
  {
    if |parts| > 1 {
      SplitAt(parts[0], c, Join(parts[1..], [c]));
      LinesOfJoin(parts[1..], c, line);
      assert forall i :: 1 <= i < |parts| ==> parts[i] == parts[1..][i - 1];
      assert line in SplitOn(parts[0], c) + SplitOn(Join(parts[1..], [c]), c)
        <==> line in SplitOn(parts[0], c) || line in SplitOn(Join(parts[1..], [c]), c);
    }
  }

  /** Splitting undoes joining when no part holds the separator. */
  lemma {:induction false} SplitJoin(parts: seq<string>, c: char)
    requires parts != [] && forall i :: 0 <= i < |parts| ==> c !in parts[i]
    ensures SplitOn(Join(parts, [c]), c) == parts
  {
    if |parts| == 1 {
      SplitWhole(parts[0], c);
    } else {
      SplitHead(parts[0], c, Join(parts[1..], [c]));
      SplitJoin(parts[1..], c);
      assert parts == [parts[0]] + parts[1..];
    }
  }

  /** Joining undoes splitting. */
  lemma {:induction false} JoinSplit(s: string, c: char)
    ensures Join(SplitOn(s, c), [c]) == s
    ensures forall i :: 0 <= i < |SplitOn(s, c)| ==> c !in SplitOn(s, c)[i]
  {
    if s != "" {
      JoinSplit(s[1..], c);
      var rest := SplitOn(s[1..], c);
      var parts := SplitOn(s, c);
      if s[0] == c {
        assert parts[1..] == rest;
        assert Join(parts, [c]) == "" + [c] + Join(rest, [c]);
      } else {
        assert parts[1..] == rest[1..];
      }
      assert s == [s[0]] + s[1..];
    }
  }

  predicate Contains(s: string, t: string) {
    StartsWith(s, t) || (s != "" && Contains(s[1..], t))
  }

  predicate EndsWith(s: string, suffix: string) {
    |suffix| <= |s| && s[|s| - |suffix|..] == suffix
  }

  /** `Buffer.byteLength`: the length of the UTF-8 encoding. */
  function ByteLength(s: string): nat {
    if s == "" then 0 else CharBytes(s[0]) + ByteLength(s[1..])
  }

  function CharBytes(c: char): nat {
    if c < '\U{80}' then 1 else if c < '\U{800}' then 2 else if c < '\U{10000}' then 3 else 4
  }
}
