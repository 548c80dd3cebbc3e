/**
 * Python's str.split / str.join over one separator character, and the
 * ASCII character classes that the source's regular expressions use.
 */
module Strings {

  /** `\d` and str.isdigit restricted to ASCII. */
  predicate IsDigitChar(c: char) { '0' <= c <= '9' }

  /** `\w` restricted to ASCII. */
  predicate IsWordChar(c: char) {
    ('a' <= c <= 'z') || ('A' <= c <= 'Z') || IsDigitChar(c) || c == '_'
  }

  /** str.isdigit() and re.fullmatch(r'\d+', s): non-empty and digits only. */
  predicate IsDigits(s: string) {
    |s| > 0 && forall i :: 0 <= i < |s| ==> IsDigitChar(s[i])
  }

  /** sep.join(parts); joining no parts gives the empty string. */
  function Join(parts: seq<string>, sep: char): string
  {
    if parts == [] then ""
    else if |parts| == 1 then parts[0]
    else parts[0] + [sep] + Join(parts[1..], sep)
  }

  /** s.split(sep): never empty, no part holds the separator, and joining the parts gives s back. */
  function Split(s: string, sep: char): (parts: seq<string>)
    ensures |parts| >= 1
    ensures forall i :: 0 <= i < |parts| ==> sep !in parts[i]
    ensures Join(parts, sep) == s
  {
    if s == [] then [""]
    else
      var rest := Split(s[1..], sep);
      if s[0] == sep then
        assert s == [sep] + s[1..];
        [""] + rest
      else
        assert s == [s[0]] + s[1..];
        [[s[0]] + rest[0]] + rest[1..]
  }

  lemma {:induction false} SplitNoSep(x: string, sep: char)
    requires sep !in x
    ensures Split(x, sep) == [x]
  {
    if x != [] {
      assert sep !in x[1..];
      SplitNoSep(x[1..], sep);
    }
  }

  lemma {:induction false} SplitAfterSegment(x: string, y: string, sep: char)
    requires sep !in x
    ensures Split(x + [sep] + y, sep) == [x] + Split(y, sep)
  {
    if x == [] {
      assert x + [sep] + y == [sep] + y;
      assert ([sep] + y)[1..] == y;
    } else {
      assert (x + [sep] + y)[1..] == x[1..] + [sep] + y;
      assert sep !in x[1..];
      SplitAfterSegment(x[1..], y, sep);
      assert [x[0]] + x[1..] == x;
    }
  }

  /** The other half of the round trip: splitting a join of separator-free parts gives the parts back. */
  lemma {:induction false} SplitJoin(parts: seq<string>, sep: char)
    requires |parts| >= 1
    requires forall i :: 0 <= i < |parts| ==> sep !in parts[i]
    ensures Split(Join(parts, sep), sep) == parts
  {
    if |parts| == 1 {
      SplitNoSep(parts[0], sep);
    } else {
      SplitJoin(parts[1..], sep);
      SplitAfterSegment(parts[0], Join(parts[1..], sep), sep);
      assert [parts[0]] + parts[1..] == parts;
    }
  }

  /** The string has the separator exactly when it splits into two parts or more. */
  lemma SplitCount(s: string, sep: char)
    ensures sep in s <==> |Split(s, sep)| >= 2
  {
    if sep !in s {
      SplitNoSep(s, sep);
    }
    if |Split(s, sep)| == 1 {
      assert Join(Split(s, sep), sep) == Split(s, sep)[0];
    }
  }

  lemma {:induction false} JoinSnoc(parts: seq<string>, x: string, sep: char)
    requires parts != []
    ensures Join(parts + [x], sep) == Join(parts, sep) + [sep] + x
  {
    if |parts| > 1 {
      assert (parts + [x])[1..] == parts[1..] + [x];
      JoinSnoc(parts[1..], x, sep);
    }
  }

  /** s.split(sep)[-1], which is also s.rsplit(sep, 1)[-1]. */
  function LastSegment(s: string, sep: char): (r: string)
    ensures sep !in r
  {
    var parts := Split(s, sep);
    parts[|parts| - 1]
  }

  /** sep.join(s.split(sep)[:-1]): the empty string when s has no separator. */
  function DropLastSegment(s: string, sep: char): string
  {
    var parts := Split(s, sep);
    Join(parts[..|parts| - 1], sep)
  }

  /** s.rsplit(sep, 1)[0]: everything before the last separator, or all of s when there is none. */
  function RSplitHead(s: string, sep: char): string
  {
    if sep in s then DropLastSegment(s, sep) else s
  }

  /** Removing the last segment and putting it back with the separator gives the string again. */
  lemma LastSegmentSplit(s: string, sep: char)
    ensures sep in s ==> DropLastSegment(s, sep) + [sep] + LastSegment(s, sep) == s
    ensures sep !in s ==> DropLastSegment(s, sep) == "" && LastSegment(s, sep) == s
    ensures sep in s ==> RSplitHead(s, sep) == DropLastSegment(s, sep)
    ensures sep !in s ==> RSplitHead(s, sep) == s
  {
    var parts := Split(s, sep);
    SplitCount(s, sep);
    if sep in s {
      var n := |parts|;
      assert parts[..n - 1] + [parts[n - 1]] == parts;
      JoinSnoc(parts[..n - 1], parts[n - 1], sep);
    } else {
      SplitNoSep(s, sep);
    }
  }

  /** s.split(sep)[0] is the text before the first separator. */
  lemma FirstSegment(s: string, sep: char)
    ensures var p := Split(s, sep)[0]; |p| <= |s| && s[..|p|] == p && sep !in p
    ensures var p := Split(s, sep)[0]; sep in s ==> |p| < |s| && s[|p|] == sep
  {
    var parts := Split(s, sep);
    SplitCount(s, sep);
    if |parts| == 1 {
      assert Join(parts, sep) == parts[0];
    } else {
      assert Join(parts, sep) == parts[0] + [sep] + Join(parts[1..], sep);
    }
  }
}
