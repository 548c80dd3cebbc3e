/**
 * The older row parser (src/excel_processor.py), not wired into the
 * pipeline.  It takes the Prefix from the tag minus its last segment,
 * adjusts it by whether the segment before holds a `[...]` group, finds
 * the InstanceName after a `].` or as the second-to-last segment, and uses
 * the last segment as the bit without checking that it is a number.
 * extract_prefix and process_prefix, which src/excel_processor_new.py
 * repeats word for word without calling them, are modelled once, here.
 */
module LegacyParser {
  import opened Wrappers
  import opened Strings
  import opened Patterns
  import opened Table

  /** extract_prefix's two columns: Prefix and Prefix_last_part. */
  datatype PrefixParts = PrefixParts(prefix: string, lastPart: string)

  /** Why a row cannot be parsed: the tag has no `].` run and no second segment, so `split(".")[-2]` fails. */
  datatype LegacyError = NoSecondToLastSegment(tag: string)

  /**
   * extract_prefix: the Prefix is the tag without its last `.`-segment
   * (the whole tag when it has no dot), and Prefix_last_part the last
   * segment of that Prefix.
   */
  function ExtractPrefix(tag: string): (r: PrefixParts)
    ensures '.' in tag ==> r.prefix + "." + LastSegment(tag, '.') == tag
    ensures '.' !in tag ==> r.prefix == tag
    ensures '.' !in r.lastPart
    ensures '.' in r.prefix ==> RSplitHead(r.prefix, '.') + "." + r.lastPart == r.prefix
    ensures '.' !in r.prefix ==> r.lastPart == r.prefix
  {
    LastSegmentSplit(tag, '.');
    var prefix := RSplitHead(tag, '.');
    LastSegmentSplit(prefix, '.');
    PrefixParts(prefix, LastSegment(prefix, '.'))
  }

  /** The mask of process_prefix: str.contains(r'\[.*?\]') on Prefix_last_part. */
  predicate HasBracketGroup(part: string)
  {
    SearchBracketGroup(part, 0).Some?
  }

  /**
   * process_prefix: when Prefix_last_part holds a `[...]` group, every
   * such group is removed from it and it replaces the last segment of the
   * Prefix; otherwise the last segment of the Prefix is dropped.
   */
  function ProcessPrefix(parts: PrefixParts): (r: string)
    ensures !HasBracketGroup(parts.lastPart) && '.' in parts.prefix ==> r + "." + LastSegment(parts.prefix, '.') == parts.prefix
    ensures !HasBracketGroup(parts.lastPart) && '.' !in parts.prefix ==> r == parts.prefix
    ensures HasBracketGroup(parts.lastPart) ==>
      var head := RSplitHead(parts.prefix, '.');
      |head| < |r| && r[..|head|] == head && r[|head|] == '.' && r[|head| + 1..] == RemoveBracketGroups(parts.lastPart, 0)
  {
    LastSegmentSplit(parts.prefix, '.');
    if HasBracketGroup(parts.lastPart) then
      RSplitHead(parts.prefix, '.') + "." + RemoveBracketGroups(parts.lastPart, 0)
    else
      RSplitHead(parts.prefix, '.')
  }

  /** The Prefix column after extract_prefix and process_prefix. */
  function LegacyPrefix(tag: string): (r: string)
    ensures !HasBracketGroup(ExtractPrefix(tag).lastPart) ==> |r| <= |tag| && tag[..|r|] == r
  {
    PrefixLeads(tag);
    ProcessPrefix(ExtractPrefix(tag))
  }

  /** Without a bracket group both steps only cut segments off the end, so the Prefix leads the tag. */
  lemma PrefixLeads(tag: string)
    ensures var pp := ExtractPrefix(tag); var r := ProcessPrefix(pp);
      !HasBracketGroup(pp.lastPart) ==> |r| <= |tag| && tag[..|r|] == r
  {
    var pp := ExtractPrefix(tag);
    var r := ProcessPrefix(pp);
    if !HasBracketGroup(pp.lastPart) {
      assert |pp.prefix| <= |tag| && tag[..|pp.prefix|] == pp.prefix by {
        if '.' in tag {
          LeadingPart(pp.prefix, "." + LastSegment(tag, '.'));
          ConcatAssoc(pp.prefix, ".", LastSegment(tag, '.'));
        }
      }
      assert |r| <= |pp.prefix| && pp.prefix[..|r|] == r by {
        if '.' in pp.prefix {
          LeadingPart(r, "." + LastSegment(pp.prefix, '.'));
          ConcatAssoc(r, ".", LastSegment(pp.prefix, '.'));
        }
      }
      TakeTake(tag, |pp.prefix|, |r|);
    }
  }

  lemma LeadingPart(a: string, b: string)
    ensures (a + b)[..|a|] == a
  {
  }

  /**
   * A tag of one or two segments: the Prefix column is its first segment,
   * since rsplit of a string without a dot gives the whole string; a
   * bracket group in that segment makes it the segment, a dot, and the
   * segment with its groups removed.
   */
  lemma PrefixShortTag(tag: string)
    requires |Split(tag, '.')| <= 2
    ensures var h := Split(tag, '.')[0];
      LegacyPrefix(tag) == if HasBracketGroup(h) then h + "." + RemoveBracketGroups(h, 0) else h
  {
    var parts := Split(tag, '.');
    var h := parts[0];
    SplitCount(tag, '.');
    if |parts| == 1 {
      assert Join(parts, '.') == h;
    } else {
      assert parts[..1] == [h];
      assert DropLastSegment(tag, '.') == h;
    }
    LastSegmentSplit(tag, '.');
    LastSegmentSplit(h, '.');
  }

  /**
   * Without a bracket group in the second-to-last segment, a tag of three
   * segments or more loses its last two: Prefix + "." + those two is the tag.
   */
  lemma PrefixDropsTwoSegments(tag: string)
    requires |Split(tag, '.')| >= 3
    requires !HasBracketGroup(Split(tag, '.')[|Split(tag, '.')| - 2])
    ensures var parts := Split(tag, '.'); var n := |parts|;
      LegacyPrefix(tag) + "." + parts[n - 2] + "." + parts[n - 1] == tag
  {
    PrefixColumns(tag);
    SplitCount(tag, '.');
    SplitCount(ExtractPrefix(tag).prefix, '.');
  }

  /**
   * With a bracket group in the second-to-last segment, the Prefix keeps
   * that segment with every bracket group removed.
   */
  lemma PrefixStripsBracketGroups(tag: string)
    requires |Split(tag, '.')| >= 3
    requires HasBracketGroup(Split(tag, '.')[|Split(tag, '.')| - 2])
    ensures var parts := Split(tag, '.'); var n := |parts|;
      LegacyPrefix(tag) == Join(parts[..n - 2], '.') + "." + RemoveBracketGroups(parts[n - 2], 0)
  {
    PrefixColumns(tag);
    var pp := ExtractPrefix(tag);
    assert LegacyPrefix(tag) == RSplitHead(pp.prefix, '.') + "." + RemoveBracketGroups(pp.lastPart, 0);
  }

  /** For a tag of three segments or more, extract_prefix's columns in terms of the tag's segments. */
  lemma PrefixColumns(tag: string)
    requires |Split(tag, '.')| >= 3
    ensures var parts := Split(tag, '.'); var n := |parts|; var pp := ExtractPrefix(tag);
      && Split(pp.prefix, '.') == parts[..n - 1]
      && pp.lastPart == parts[n - 2]
      && RSplitHead(pp.prefix, '.') == Join(parts[..n - 2], '.')
  {
    var parts := Split(tag, '.');
    var n := |parts|;
    SplitCount(tag, '.');
    var front := parts[..n - 1];
    var prefix := Join(front, '.');
    assert RSplitHead(tag, '.') == prefix;
    forall i | 0 <= i < |front| ensures '.' !in front[i] {
      assert front[i] == parts[i];
    }
    SplitJoin(front, '.');
    assert Split(prefix, '.') == front;
    SplitCount(prefix, '.');
    assert LastSegment(prefix, '.') == parts[n - 2];
    assert RSplitHead(prefix, '.') == Join(front[..n - 2], '.');
    TakeTake(parts, n - 1, n - 2);
  }

  /** The end of the run of `\w` characters that starts at k. */
  function WordRunEnd(s: string, k: nat): (e: nat)
    requires k <= |s|
    decreases |s| - k
    ensures k <= e <= |s|
    ensures forall m :: k <= m < e ==> IsWordChar(s[m])
    ensures e < |s| ==> !IsWordChar(s[e])
  {
    if k < |s| && IsWordChar(s[k]) then WordRunEnd(s, k + 1) else k
  }

  /** `\]\.(\w+)` matches starting at position m. */
  predicate CloseDotWordAt(s: string, m: nat)
  {
    m + 2 < |s| && s[m] == ']' && s[m + 1] == '.' && IsWordChar(s[m + 2])
  }

  /** The position of the leftmost match of `\]\.(\w+)` at or after i. */
  function SearchCloseDotWord(s: string, i: nat): (r: Option<nat>)
    decreases |s| - i
    ensures r.Some? ==> i <= r.value && CloseDotWordAt(s, r.value)
    ensures r.Some? ==> forall m :: i <= m < r.value ==> !CloseDotWordAt(s, m)
    ensures r.None? ==> forall m :: i <= m < |s| ==> !CloseDotWordAt(s, m)
  {
    if i >= |s| then None
    else if CloseDotWordAt(s, i) then Some(i)
    else SearchCloseDotWord(s, i + 1)
  }

  /**
   * extract_instance_name: the `\w+` run after the leftmost `].` that one
   * follows, and otherwise the second-to-last `.`-segment, which a tag
   * without a dot lacks.
   */
  function ExtractInstanceName(tag: string): (r: Result<string, LegacyError>)
    ensures r.Err? <==> SearchCloseDotWord(tag, 0).None? && '.' !in tag
    ensures r.Err? ==> r.error == NoSecondToLastSegment(tag)
    ensures SearchCloseDotWord(tag, 0).Some? ==>
      var m := SearchCloseDotWord(tag, 0).value;
      && r.Ok? && |r.value| > 0 && m + 2 + |r.value| <= |tag| && tag[m + 2..m + 2 + |r.value|] == r.value
      && (forall k :: 0 <= k < |r.value| ==> IsWordChar(r.value[k]))
      && (m + 2 + |r.value| < |tag| ==> !IsWordChar(tag[m + 2 + |r.value|]))
    ensures SearchCloseDotWord(tag, 0).None? && r.Ok? ==>
      var parts := Split(tag, '.'); r.value == parts[|parts| - 2]
  {
    match SearchCloseDotWord(tag, 0)
    case Some(m) => Ok(WordAt(tag, m + 2))
    case None => SecondToLastSegment(tag)
  }

  /** The `\w+` run that starts at k, when s[k] is a word character. */
  function WordAt(s: string, k: nat): (w: string)
    requires k < |s| && IsWordChar(s[k])
    ensures |w| > 0 && k + |w| <= |s| && s[k..k + |w|] == w
    ensures forall j :: 0 <= j < |w| ==> IsWordChar(w[j])
    ensures k + |w| < |s| ==> !IsWordChar(s[k + |w|])
  {
    var e := WordRunEnd(s, k);
    var w := s[k..e];
    assert forall j :: 0 <= j < |w| ==> w[j] == s[k + j];
    w
  }

  /** tag.split('.')[-2], an IndexError for a tag without a dot. */
  function SecondToLastSegment(tag: string): (r: Result<string, LegacyError>)
    ensures r.Err? <==> '.' !in tag
    ensures r.Err? ==> r.error == NoSecondToLastSegment(tag)
    ensures r.Ok? ==> var parts := Split(tag, '.'); r.value == parts[|parts| - 2]
  {
    SplitCount(tag, '.');
    var parts := Split(tag, '.');
    if |parts| >= 2 then Ok(parts[|parts| - 2]) else Err(NoSecondToLastSegment(tag))
  }

  /** extract_bit: the last `.`-segment, unconditionally; with the Prefix of extract_prefix it rebuilds the tag. */
  function ExtractBit(tag: string): (r: string)
    ensures '.' !in r
    ensures '.' in tag ==> ExtractPrefix(tag).prefix + "." + r == tag
    ensures '.' !in tag ==> r == tag
  {
    LastSegmentSplit(tag, '.');
    LastSegment(tag, '.')
  }

  /** One surviving row through the legacy pipeline (extract_prefix to reorder_columns). */
  function ParseRow(e: Entry): (r: Result<Record, LegacyError>)
    ensures r.Err? <==> SearchCloseDotWord(e.tag, 0).None? && '.' !in e.tag
    ensures r.Ok? ==> '.' in e.tag && r.value.description == e.description
    ensures r.Ok? ==> r.value.prefix == LegacyPrefix(e.tag) && ExtractInstanceName(e.tag) == Ok(r.value.instanceName)
    ensures r.Ok? ==> r.value.bit.Some? && ExtractPrefix(e.tag).prefix + "." + r.value.bit.value == e.tag
  {
    assert SearchCloseDotWord(e.tag, 0).Some? ==> e.tag[SearchCloseDotWord(e.tag, 0).value + 1] == '.';
    match ExtractInstanceName(e.tag)
    case Err(err) => Err(err)
    case Ok(name) => Ok(Record(LegacyPrefix(e.tag), name, Some(ExtractBit(e.tag)), e.description))
  }

  /** Every surviving row parsed in order; the first failing row fails the batch. */
  function ParseAll(entries: seq<Entry>): (r: Result<seq<Record>, LegacyError>)
    ensures r.Ok? <==> forall i :: 0 <= i < |entries| ==> ParseRow(entries[i]).Ok?
    ensures r.Ok? ==> |r.value| == |entries|
    ensures r.Ok? ==> forall i :: 0 <= i < |entries| ==> ParseRow(entries[i]) == Ok(r.value[i])
    ensures r.Err? ==>
      (exists i :: 0 <= i < |entries| && ParseRow(entries[i]) == Err(r.error) &&
        (forall j :: 0 <= j < i ==> ParseRow(entries[j]).Ok?))
  {
    CollectMap(entries, ParseRow)
  }

  /** The legacy process_excel without read_excel. */
  function ProcessExcel(rows: seq<Row>): (r: Result<seq<Record>, LegacyError>)
    ensures r.Ok? ==> |r.value| == |Survivors(rows)|
    ensures r.Ok? ==> forall k :: 0 <= k < |r.value| ==> r.value[k].bit.Some?
    ensures r.Ok? ==> forall k :: 0 <= k < |r.value| ==> r.value[k].description != Some(NA)
  {
    ParseAll(Survivors(rows))
  }
}
