/**
 * The regular expression `\[(.*?)\]` that both tag parsers use: re.search
 * (its leftmost match), str.contains (whether it matches at all) and
 * re.sub with an empty replacement (remove every match).  As in Python,
 * `.` matches any character except a line break and `*?` is lazy, so a
 * match runs from a `[` to the first `]` after it, provided no line break
 * comes first.
 */
module Patterns {
  import opened Wrappers

  /** Where `.*?\]` ends when tried from position k: the first `]` at or after k that no line break precedes. */
  function CloseBracket(s: string, k: nat): (r: Option<nat>)
    decreases |s| - k
    ensures r.Some? ==> k <= r.value < |s| && s[r.value] == ']'
    ensures r.Some? ==> forall m :: k <= m < r.value ==> s[m] != ']' && s[m] != '\n'
    ensures r.None? ==> forall m :: k <= m < |s| && s[m] == ']' ==> BreakBetween(s, k, m)
  {
    if k >= |s| then None
    else if s[k] == ']' then Some(k)
    else if s[k] == '\n' then None
    else
      var r := CloseBracket(s, k + 1);
      assert r.None? ==> forall m :: k + 1 <= m < |s| && s[m] == ']' ==> BreakBetween(s, k, m) by {
        if r.None? {
          forall m | k + 1 <= m < |s| && s[m] == ']' ensures BreakBetween(s, k, m) {
            assert BreakBetween(s, k + 1, m);
          }
        }
      }
      r
  }

  /** A line break lies at or after k and before m. */
  predicate BreakBetween(s: string, k: nat, m: nat)
  {
    exists j :: k <= j < m && j < |s| && s[j] == '\n'
  }

  /** `\[(.*?)\]` matches starting at position m. */
  predicate MatchAt(s: string, m: nat)
  {
    m < |s| && s[m] == '[' && CloseBracket(s, m + 1).Some?
  }

  /** The positions of the `[` and the `]` of a match. */
  datatype Span = Span(open: nat, close: nat)

  /** re.search(r"\[(.*?)\]", s[i..]) reported in positions of s: the leftmost match at or after i. */
  function SearchBracketGroup(s: string, i: nat): (r: Option<Span>)
    decreases |s| - i
    ensures r.Some? ==> i <= r.value.open && MatchAt(s, r.value.open)
    ensures r.Some? ==> CloseBracket(s, r.value.open + 1) == Some(r.value.close)
    ensures r.Some? ==> forall m :: i <= m < r.value.open ==> !MatchAt(s, m)
    ensures r.None? ==> forall m :: i <= m < |s| ==> !MatchAt(s, m)
  {
    if i >= |s| then None
    else if MatchAt(s, i) then Some(Span(i, CloseBracket(s, i + 1).value))
    else SearchBracketGroup(s, i + 1)
  }

  /** re.sub(r"\[.*?\]", "", s[i..]): every match, scanned left to right, removed. */
  function RemoveBracketGroups(s: string, i: nat): (r: string)
    decreases |s| - i
    ensures i <= |s| ==> |r| <= |s| - i
  {
    if i >= |s| then ""
    else if MatchAt(s, i) then RemoveBracketGroups(s, CloseBracket(s, i + 1).value + 1)
    else [s[i]] + RemoveBracketGroups(s, i + 1)
  }

  /** Without a match nothing is removed. */
  lemma {:induction false} RemoveWithoutMatch(s: string, i: nat)
    requires i <= |s|
    requires SearchBracketGroup(s, i).None?
    ensures RemoveBracketGroups(s, i) == s[i..]
    decreases |s| - i
  {
    if i < |s| {
      RemoveWithoutMatch(s, i + 1);
      assert s[i..] == [s[i]] + s[i + 1..];
    }
  }

  /** Text with no `[` is kept as it is, character for character. */
  lemma {:induction false} RemoveKeepsPlain(s: string, i: nat, j: nat)
    requires i <= j <= |s|
    requires forall m :: i <= m < j ==> s[m] != '['
    ensures RemoveBracketGroups(s, i) == s[i..j] + RemoveBracketGroups(s, j)
    decreases j - i
  {
    if i < j {
      var rest := RemoveBracketGroups(s, j);
      RemoveKeepsPlain(s, i + 1, j);
      assert RemoveBracketGroups(s, i) == [s[i]] + (s[i + 1..j] + rest);
      assert s[i..j] == [s[i]] + s[i + 1..j];
      ConcatAssoc([s[i]], s[i + 1..j], rest);
    }
  }

  /**
   * A match is deleted: on a single line, text without `[` up to a `[`
   * is kept, and everything from that `[` to the first `]` after it is
   * dropped before the removal carries on.
   */
  lemma RemoveDropsGroup(s: string, i: nat, open: nat, close: nat)
    requires '\n' !in s
    requires i <= open < close < |s| && s[open] == '[' && s[close] == ']'
    requires forall m :: i <= m < open ==> s[m] != '['
    requires forall m :: open < m < close ==> s[m] != ']'
    ensures RemoveBracketGroups(s, i) == s[i..open] + RemoveBracketGroups(s, close + 1)
  {
    RemoveKeepsPlain(s, i, open);
    CloseFinds(s, open + 1, close);
  }

  /**
   * A single trailing group is removed entirely: text without `[`
   * followed by `[`, text without `]`, and `]` (all on one line) loses
   * everything from the `[` on.
   */
  lemma RemoveTrailingGroup(x: string, d: string)
    requires '[' !in x && ']' !in d && '\n' !in x && '\n' !in d
    ensures RemoveBracketGroups(x + "[" + d + "]", 0) == x
  {
    var s := x + "[" + d + "]";
    var open := |x|;
    var close := |x| + 1 + |d|;
    assert s[open] == '[' && s[close] == ']';
    assert forall m :: 0 <= m < open ==> s[m] == x[m];
    assert forall m :: open < m < close ==> s[m] == d[m - open - 1];
    assert '\n' !in s by {
      assert forall m :: 0 <= m < |s| ==> s[m] != '\n' by {
        forall m | 0 <= m < |s| ensures s[m] != '\n' {
          if m < open { assert s[m] == x[m]; }
          else if open < m < close { assert s[m] == d[m - open - 1]; }
        }
      }
    }
    RemoveDropsGroup(s, 0, open, close);
    assert s[0..open] == x;
  }

  /** With no line break in s, the leftmost match opens at the first `[` and closes at the first `]` after it. */
  lemma {:induction false} SearchFindsFirstBracket(s: string, i: nat, open: nat, close: nat)
    requires '\n' !in s
    requires i <= open < close < |s| && s[open] == '[' && s[close] == ']'
    requires forall m :: i <= m < open ==> s[m] != '['
    requires forall m :: open < m < close ==> s[m] != ']'
    ensures SearchBracketGroup(s, i) == Some(Span(open, close))
    decreases open - i
  {
    CloseFinds(s, open + 1, close);
    if i < open {
      SearchFindsFirstBracket(s, i + 1, open, close);
    }
  }

  lemma {:induction false} CloseFinds(s: string, k: nat, close: nat)
    requires '\n' !in s
    requires k <= close < |s| && s[close] == ']'
    requires forall m :: k <= m < close ==> s[m] != ']'
    ensures CloseBracket(s, k) == Some(close)
    decreases close - k
  {
    if k < close {
      assert s[k] != '\n';
      CloseFinds(s, k + 1, close);
    }
  }
}
