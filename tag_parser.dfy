/**
 * The row parser that the pipeline uses (src/excel_processor_new.py):
 * clean, drop wildcard rows, take the bit off the end of the tag, then
 * split what is left into Prefix and InstanceName.
 */
module TagParser {
  import opened Wrappers
  import opened Strings
  import opened Patterns
  import opened Table

  /** extract_bit_number's two new columns: Bit, and the tag without its last segment (Tag_Helper). */
  datatype BitSplit = BitSplit(bit: Option<string>, helper: string)

  /** The tag body split into the Prefix and InstanceName columns. */
  datatype Details = Details(prefix: string, instanceName: string)

  /** Why a row cannot be parsed: the helper has both brackets but no `[...]` group, so `.group(1)` fails on None. */
  datatype ParseError = NoBracketGroup(helper: string)

  /**
   * extract_bit_number on one tag: the bit is the last `.`-segment when
   * it is all digits; the helper always loses the last segment, whatever
   * it is, so helper + "." + last segment gives the tag back.
   */
  function ExtractBitNumber(tag: string): (r: BitSplit)
    ensures r.bit.Some? <==> IsDigits(LastSegment(tag, '.'))
    ensures r.bit.Some? ==> r.bit.value == LastSegment(tag, '.') && '.' !in r.bit.value
    ensures '.' in tag ==> r.helper + "." + LastSegment(tag, '.') == tag
    ensures '.' !in tag ==> r.helper == ""
  {
    LastSegmentSplit(tag, '.');
    var last := LastSegment(tag, '.');
    BitSplit(if IsDigits(last) then Some(last) else None, DropLastSegment(tag, '.'))
  }

  /** The helper takes the bracket branch of extract_details. */
  predicate HasBrackets(helper: string)
  {
    '[' in helper && ']' in helper
  }

  /**
   * extract_details: with both brackets present, the Prefix is the text
   * before the first `[` and the InstanceName the contents of the leftmost
   * `[...]` group (an error when there is none); otherwise the InstanceName
   * is the last `.`-segment and the Prefix the segments before it.
   */
  function ExtractDetails(helper: string): (r: Result<Details, ParseError>)
    ensures r.Err? <==> HasBrackets(helper) && SearchBracketGroup(helper, 0).None?
    ensures r.Err? ==> r.error == NoBracketGroup(helper)
    ensures HasBrackets(helper) && r.Ok? ==>
      var p := r.value.prefix;
      var sp := SearchBracketGroup(helper, 0).value;
      && |p| < |helper| && helper[..|p|] == p && '[' !in p && helper[|p|] == '['
      && r.value.instanceName == helper[sp.open + 1..sp.close]
    ensures !HasBrackets(helper) && '.' in helper ==> r.value.prefix + "." + r.value.instanceName == helper
    ensures !HasBrackets(helper) && '.' !in helper ==> r.value.prefix == "" && r.value.instanceName == helper
    ensures !HasBrackets(helper) ==> '.' !in r.value.instanceName
  {
    if HasBrackets(helper) then
      FirstSegment(helper, '[');
      match SearchBracketGroup(helper, 0)
      case None => Err(NoBracketGroup(helper))
      case Some(sp) => Ok(Details(Split(helper, '[')[0], helper[sp.open + 1..sp.close]))
    else
      LastSegmentSplit(helper, '.');
      Ok(Details(DropLastSegment(helper, '.'), LastSegment(helper, '.')))
  }

  /**
   * On a single-line helper the bracket branch reads exactly as intended:
   * the InstanceName is the text between the first `[` and the first `]`
   * after it, and everything after that `]` is discarded.
   */
  lemma BracketDetails(helper: string, close: nat)
    requires '\n' !in helper
    requires var p := |Split(helper, '[')[0]|;
      p < close < |helper| && helper[close] == ']' && forall m :: p < m < close ==> helper[m] != ']'
    ensures var p := Split(helper, '[')[0];
      ExtractDetails(helper) == Ok(Details(p, helper[|p| + 1..close]))
  {
    var p := Split(helper, '[')[0];
    FirstSegment(helper, '[');
    assert '[' in helper by { assert helper[|p|] == '['; }
    forall m | 0 <= m < |p| ensures helper[m] != '[' {
      assert helper[m] == p[m];
    }
    SearchFindsFirstBracket(helper, 0, |p|, close);
  }

  /** On a single-line helper with no `]` after the first `[` (but one before it), parsing fails. */
  lemma BracketDetailsFail(helper: string)
    requires '\n' !in helper && HasBrackets(helper)
    requires forall m :: |Split(helper, '[')[0]| < m < |helper| ==> helper[m] != ']'
    ensures ExtractDetails(helper).Err?
  {
    var p := Split(helper, '[')[0];
    FirstSegment(helper, '[');
    forall m | 0 <= m < |helper| ensures !MatchAt(helper, m) {
      if m < |p| {
        assert helper[m] == p[m];
      } else if helper[m] == '[' {
        assert CloseBracket(helper, m + 1).None?;
      }
    }
  }

  /** One surviving row through extract_bit_number, extract_instance_name_and_prefix and reorder_columns. */
  function ParseRow(e: Entry): (r: Result<Record, ParseError>)
    ensures r.Ok? ==> var b := ExtractBitNumber(e.tag);
      r.value.bit == b.bit && ExtractDetails(b.helper) == Ok(Details(r.value.prefix, r.value.instanceName))
    ensures r.Err? <==> var h := ExtractBitNumber(e.tag).helper; HasBrackets(h) && SearchBracketGroup(h, 0).None?
    ensures r.Ok? ==> r.value.description == e.description
    ensures r.Ok? ==> (r.value.bit.Some? <==> IsDigits(LastSegment(e.tag, '.')))
    ensures r.Ok? && !HasBrackets(ExtractBitNumber(e.tag).helper) && '.' in ExtractBitNumber(e.tag).helper ==>
      '.' in e.tag && r.value.prefix + "." + r.value.instanceName + "." + LastSegment(e.tag, '.') == e.tag
  {
    var b := ExtractBitNumber(e.tag);
    match ExtractDetails(b.helper)
    case Err(err) => Err(err)
    case Ok(d) => Ok(Record(d.prefix, d.instanceName, b.bit, e.description))
  }

  /**
   * Parsing every surviving row: one record per row, in order; the first
   * row that fails to parse fails the whole batch.
   */
  function ParseAll(entries: seq<Entry>): (r: Result<seq<Record>, ParseError>)
    ensures r.Ok? <==> forall i :: 0 <= i < |entries| ==> ParseRow(entries[i]).Ok?
    ensures r.Ok? ==> |r.value| == |entries|
    ensures r.Ok? ==> forall i :: 0 <= i < |entries| ==> ParseRow(entries[i]) == Ok(r.value[i])
    ensures r.Err? ==>
      (exists i :: 0 <= i < |entries| && ParseRow(entries[i]) == Err(r.error) &&
        (forall j :: 0 <= j < i ==> ParseRow(entries[j]).Ok?))
  {
    CollectMap(entries, ParseRow)
  }

  /** process_excel without read_excel: rows in, the Prefix/InstanceName/Bit/Description table out. */
  function ProcessExcel(rows: seq<Row>): (r: Result<seq<Record>, ParseError>)
    ensures r.Ok? ==> |r.value| == |Survivors(rows)|
    ensures r.Ok? ==> forall k :: 0 <= k < |r.value| ==> r.value[k].description != Some(NA)
  {
    ParseAll(Survivors(rows))
  }
}
