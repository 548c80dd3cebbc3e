/**
 * The spreadsheet rows and parsed records that flow through the parsers,
 * and the two row filters that both parser files define identically:
 * clean_data and remove_wildcard_rows.
 */
module Table {
  import opened Wrappers
  import opened Strings

  /** The marker a spreadsheet cell uses for "no value". */
  const NA: string := "N/A"

  /** The wildcard last segment that marks a template row. */
  const Wildcard: string := "*"

  /** One spreadsheet row as read: a Tag cell and a Description cell, None for an empty cell. */
  datatype Row = Row(tag: Option<string>, description: Option<string>)

  /** A row that survived clean_data: its Tag is a real string. */
  datatype Entry = Entry(tag: string, description: Option<string>)

  /** One output row of process_excel, columns Prefix, InstanceName, Bit, Description. */
  datatype Record = Record(prefix: string, instanceName: string, bit: Option<string>, description: Option<string>)

  /** df.replace("N/A", pd.NA) applied to one cell. */
  function NullIfNA(cell: Option<string>): (r: Option<string>)
    ensures r.None? <==> cell.None? || cell == Some(NA)
    ensures r.Some? ==> r == cell
  {
    if cell == Some(NA) then None else cell
  }

  /** What clean_data makes of one row: None when the row is dropped. */
  function CleanRow(row: Row): (r: Option<Entry>)
    ensures r.None? <==> row.tag.None? || row.tag == Some(NA)
    ensures r.Some? ==> Some(r.value.tag) == row.tag && r.value.description == NullIfNA(row.description)
  {
    match NullIfNA(row.tag)
    case None => None
    case Some(t) => Some(Entry(t, NullIfNA(row.description)))
  }

  /**
   * clean_data: rows whose Tag is null or "N/A" are dropped, the others
   * kept in order, and every "N/A" Description becomes null.
   */
  function CleanData(rows: seq<Row>): (r: seq<Entry>)
    ensures |r| <= |rows|
    ensures forall k :: 0 <= k < |r| ==> r[k].tag != NA && r[k].description != Some(NA)
    ensures forall i :: 0 <= i < |rows| && CleanRow(rows[i]).Some? ==> CleanRow(rows[i]).value in r
    ensures forall k :: 0 <= k < |r| ==> exists i :: 0 <= i < |rows| && CleanRow(rows[i]) == Some(r[k])
  {
    if rows == [] then []
    else
      var rest := CleanData(rows[1..]);
      assert forall i :: 1 <= i < |rows| ==> rows[i] == rows[1..][i - 1];
      match CleanRow(rows[0])
      case None => rest
      case Some(e) => [e] + rest
  }

  /** clean_data keeps input order: cleaning a concatenation is concatenating the cleaned parts. */
  lemma {:induction false} CleanDataAppend(a: seq<Row>, b: seq<Row>)
    ensures CleanData(a + b) == CleanData(a) + CleanData(b)
  {
    if a != [] {
      assert (a + b)[1..] == a[1..] + b;
      CleanDataAppend(a[1..], b);
    } else {
      assert a + b == b;
    }
  }

  /** A row whose Tag is already good is never dropped. */
  lemma {:induction false} CleanDataKeepsAll(rows: seq<Row>)
    requires forall i :: 0 <= i < |rows| ==> CleanRow(rows[i]).Some?
    ensures |CleanData(rows)| == |rows|
  {
    if rows != [] {
      CleanDataKeepsAll(rows[1..]);
    }
  }

  /** The row's Tag ends in the wildcard segment: `^\*$` matches its last `.`-segment. */
  predicate IsWildcard(e: Entry)
  {
    LastSegment(e.tag, '.') == Wildcard
  }

  /** remove_wildcard_rows: exactly the rows whose last segment is not "*", in their original order. */
  function RemoveWildcardRows(entries: seq<Entry>): (r: seq<Entry>)
    ensures |r| <= |entries|
    ensures forall k :: 0 <= k < |r| ==> !IsWildcard(r[k]) && r[k] in entries
    ensures forall i :: 0 <= i < |entries| && !IsWildcard(entries[i]) ==> entries[i] in r
  {
    if entries == [] then []
    else
      var rest := RemoveWildcardRows(entries[1..]);
      assert forall i :: 1 <= i < |entries| ==> entries[i] == entries[1..][i - 1];
      if IsWildcard(entries[0]) then rest else [entries[0]] + rest
  }

  /** remove_wildcard_rows keeps input order. */
  lemma {:induction false} RemoveWildcardRowsAppend(a: seq<Entry>, b: seq<Entry>)
    ensures RemoveWildcardRows(a + b) == RemoveWildcardRows(a) + RemoveWildcardRows(b)
  {
    if a != [] {
      assert (a + b)[1..] == a[1..] + b;
      RemoveWildcardRowsAppend(a[1..], b);
    } else {
      assert a + b == b;
    }
  }

  /** The rows both parsers go on to parse. */
  function Survivors(rows: seq<Row>): seq<Entry>
  {
    RemoveWildcardRows(CleanData(rows))
  }
}
