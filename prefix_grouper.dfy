/**
 * group_by_prefix (src/data_grouper.py): pandas' groupby on Prefix, which
 * sorts the group keys (sort=True by default), keeps each group's rows in
 * input order, and drops the Prefix column from every chunk.
 */
module PrefixGrouper {
  import opened Wrappers
  import opened Table

  /** A chunk row: a record without its Prefix column. */
  datatype Item = Item(instanceName: string, bit: Option<string>, description: Option<string>)

  /** One entry of the returned dict: a Prefix and its chunk. */
  datatype Group = Group(prefix: string, items: seq<Item>)

  /** group.drop(columns=['Prefix']) on one row: every other field is kept. */
  function DropPrefix(r: Record): (it: Item)
    ensures it.instanceName == r.instanceName && it.bit == r.bit && it.description == r.description
  {
    Item(r.instanceName, r.bit, r.description)
  }

  /** Python's `<` on str: lexicographic by code point, a proper prefix first. */
  predicate StrLess(a: string, b: string)
    decreases |a|
  {
    if a == [] then b != []
    else b != [] && (a[0] < b[0] || (a[0] == b[0] && StrLess(a[1..], b[1..])))
  }

  lemma {:induction false} StrLessIrreflexive(a: string)
    ensures !StrLess(a, a)
    decreases |a|
  {
    if a != [] {
      StrLessIrreflexive(a[1..]);
    }
  }

  lemma {:induction false} StrLessTransitive(a: string, b: string, c: string)
    requires StrLess(a, b) && StrLess(b, c)
    ensures StrLess(a, c)
    decreases |a|
  {
    if a != [] && a[0] == b[0] && b[0] == c[0] {
      StrLessTransitive(a[1..], b[1..], c[1..]);
    }
  }

  lemma {:induction false} StrLessTotal(a: string, b: string)
    requires a != b
    ensures StrLess(a, b) || StrLess(b, a)
    decreases |a|
  {
    if a != [] && b != [] && a[0] == b[0] {
      assert a == [a[0]] + a[1..] && b == [b[0]] + b[1..];
      StrLessTotal(a[1..], b[1..]);
    }
  }

  /** Strictly ascending, hence also free of repeats. */
  predicate Ascending(keys: seq<string>)
  {
    forall i, j :: 0 <= i < j < |keys| ==> StrLess(keys[i], keys[j])
  }

  lemma AscendingDistinct(keys: seq<string>)
    requires Ascending(keys)
    ensures forall i, j :: 0 <= i < j < |keys| ==> keys[i] != keys[j]
  {
    forall i, j | 0 <= i < j < |keys| ensures keys[i] != keys[j] {
      StrLessIrreflexive(keys[i]);
    }
  }

  /** Adding one key to an ascending key list. */
  function Insert(keys: seq<string>, k: string): (r: seq<string>)
    requires Ascending(keys)
    ensures Ascending(r)
    ensures forall x :: x in r <==> x in keys || x == k
  {
    if keys == [] then [k]
    else if k == keys[0] then keys
    else if StrLess(k, keys[0]) then
      assert forall j :: 0 <= j < |keys| ==> StrLess(k, keys[j]) by {
        forall j | 0 <= j < |keys| ensures StrLess(k, keys[j]) {
          if j > 0 { StrLessTransitive(k, keys[0], keys[j]); }
        }
      }
      [k] + keys
    else
      StrLessTotal(k, keys[0]);
      var rest := Insert(keys[1..], k);
      assert forall x :: x in keys <==> x == keys[0] || x in keys[1..] by {
        assert keys == [keys[0]] + keys[1..];
      }
      assert forall j :: 0 <= j < |rest| ==> StrLess(keys[0], rest[j]) by {
        forall j | 0 <= j < |rest| ensures StrLess(keys[0], rest[j]) {
          if rest[j] != k {
            assert rest[j] in rest;
            assert rest[j] in keys[1..];
            var m :| 0 <= m < |keys[1..]| && keys[1..][m] == rest[j];
            assert keys[m + 1] == rest[j];
          }
        }
      }
      [keys[0]] + rest
  }

  /** The Prefix values occurring in the records. */
  function Prefixes(records: seq<Record>): set<string>
  {
    set i | 0 <= i < |records| :: records[i].prefix
  }

  /** The group keys: every Prefix that occurs, each once, ascending. */
  function SortedPrefixes(records: seq<Record>): (keys: seq<string>)
    ensures Ascending(keys)
    ensures forall x :: x in keys <==> x in Prefixes(records)
  {
    if records == [] then []
    else
      var n := |records| - 1;
      var keys := Insert(SortedPrefixes(records[..n]), records[n].prefix);
      assert forall x :: x in Prefixes(records) <==> x in Prefixes(records[..n]) || x == records[n].prefix by {
        forall x ensures x in Prefixes(records) <==> x in Prefixes(records[..n]) || x == records[n].prefix {
          if x in Prefixes(records) {
            var i :| 0 <= i < |records| && records[i].prefix == x;
            if i < n { assert records[..n][i] == records[i]; }
          }
          if x in Prefixes(records[..n]) {
            var i :| 0 <= i < n && records[..n][i].prefix == x;
            assert records[i].prefix == x;
          }
        }
      }
      keys
  }

  /** The chunk for one key: the records with that Prefix, in input order, Prefix removed. */
  function Select(records: seq<Record>, key: string): (items: seq<Item>)
    ensures |items| <= |records|
    ensures key !in Prefixes(records) ==> items == []
  {
    if records == [] then []
    else
      assert forall x :: x in Prefixes(records[1..]) ==> x in Prefixes(records) by {
        forall x | x in Prefixes(records[1..]) ensures x in Prefixes(records) {
          var i :| 0 <= i < |records[1..]| && records[1..][i].prefix == x;
          assert records[i + 1].prefix == x;
        }
      }
      (if records[0].prefix == key then [DropPrefix(records[0])] else []) + Select(records[1..], key)
  }

  /** Grouping keeps relative input order: the chunk of a concatenation is the concatenation of the chunks. */
  lemma {:induction false} SelectAppend(a: seq<Record>, b: seq<Record>, key: string)
    ensures Select(a + b, key) == Select(a, key) + Select(b, key)
  {
    if a == [] {
      assert a + b == b;
    } else {
      var head := if a[0].prefix == key then [DropPrefix(a[0])] else [];
      assert (a + b)[0] == a[0] && (a + b)[1..] == a[1..] + b;
      assert Select(a + b, key) == head + Select(a[1..] + b, key);
      SelectAppend(a[1..], b, key);
      ConcatAssoc(head, Select(a[1..], key), Select(b, key));
    }
  }

  /** A record is in the chunk of its own Prefix. */
  lemma {:induction false} SelectHas(records: seq<Record>, i: nat)
    requires i < |records|
    ensures DropPrefix(records[i]) in Select(records, records[i].prefix)
  {
    if i > 0 {
      SelectHas(records[1..], i - 1);
    }
  }

  /** Every item of a chunk comes from a record with that Prefix. */
  lemma {:induction false} SelectFrom(records: seq<Record>, key: string, it: Item)
    requires it in Select(records, key)
    ensures exists i :: 0 <= i < |records| && records[i].prefix == key && DropPrefix(records[i]) == it
  {
    if records[0].prefix == key && it == DropPrefix(records[0]) {
    } else {
      SelectFrom(records[1..], key, it);
      var i :| 0 <= i < |records[1..]| && records[1..][i].prefix == key && DropPrefix(records[1..][i]) == it;
      assert records[i + 1] == records[1..][i];
    }
  }

  /** One group per key, in the order of the keys. */
  function GroupsFor(keys: seq<string>, records: seq<Record>): (groups: seq<Group>)
    ensures |groups| == |keys|
    ensures forall g :: 0 <= g < |groups| ==> groups[g] == Group(keys[g], Select(records, keys[g]))
  {
    if keys == [] then [] else [Group(keys[0], Select(records, keys[0]))] + GroupsFor(keys[1..], records)
  }

  /**
   * group_by_prefix: one group per distinct Prefix, in ascending Prefix
   * order (not first-seen order), each holding its records in input order.
   */
  function GroupByPrefix(records: seq<Record>): (groups: seq<Group>)
    ensures forall g, h :: 0 <= g < h < |groups| ==> StrLess(groups[g].prefix, groups[h].prefix)
    ensures forall g :: 0 <= g < |groups| ==> groups[g].prefix in Prefixes(records)
    ensures forall i :: 0 <= i < |records| ==> exists g :: 0 <= g < |groups| && groups[g].prefix == records[i].prefix
    ensures forall g :: 0 <= g < |groups| ==> groups[g].items == Select(records, groups[g].prefix)
  {
    var keys := SortedPrefixes(records);
    var groups := GroupsFor(keys, records);
    assert forall i :: 0 <= i < |records| ==> records[i].prefix in keys by {
      forall i | 0 <= i < |records| ensures records[i].prefix in keys {
        assert records[i].prefix in Prefixes(records);
      }
    }
    groups
  }

  /** Every record lands in exactly one group, the one keyed by its Prefix, and appears there. */
  lemma RecordInOneGroup(records: seq<Record>, i: nat)
    requires i < |records|
    ensures var groups := GroupByPrefix(records);
      exists g :: 0 <= g < |groups| && groups[g].prefix == records[i].prefix && DropPrefix(records[i]) in groups[g].items
    ensures var groups := GroupByPrefix(records);
      forall g, h :: 0 <= g < |groups| && 0 <= h < |groups| && groups[g].prefix == records[i].prefix && groups[h].prefix == records[i].prefix ==> g == h
  {
    var groups := GroupByPrefix(records);
    var g :| 0 <= g < |groups| && groups[g].prefix == records[i].prefix;
    assert groups[g] == Group(records[i].prefix, Select(records, records[i].prefix)) by {
      assert groups == GroupsFor(SortedPrefixes(records), records);
    }
    SelectHas(records, i);
    assert DropPrefix(records[i]) in groups[g].items;
    GroupKeysDistinct(records);
  }

  /** No two groups share a Prefix. */
  lemma GroupKeysDistinct(records: seq<Record>)
    ensures var groups := GroupByPrefix(records);
      forall g, h :: 0 <= g < |groups| && 0 <= h < |groups| && g != h ==> groups[g].prefix != groups[h].prefix
  {
    var groups := GroupByPrefix(records);
    forall g, h | 0 <= g < |groups| && 0 <= h < |groups| && g != h ensures groups[g].prefix != groups[h].prefix {
      if g < h {
        StrLessIrreflexive(groups[g].prefix);
      } else {
        StrLessIrreflexive(groups[h].prefix);
      }
    }
  }

  /** Every group's chunk is non-empty and holds only records of its Prefix. */
  lemma GroupContents(records: seq<Record>, g: nat, it: Item)
    requires g < |GroupByPrefix(records)|
    ensures |GroupByPrefix(records)[g].items| > 0
    ensures it in GroupByPrefix(records)[g].items ==>
      exists i :: 0 <= i < |records| && records[i].prefix == GroupByPrefix(records)[g].prefix && DropPrefix(records[i]) == it
  {
    var groups := GroupByPrefix(records);
    var i :| 0 <= i < |records| && records[i].prefix == groups[g].prefix;
    SelectHas(records, i);
    if it in groups[g].items {
      SelectFrom(records, groups[g].prefix, it);
    }
  }

  /** The total number of rows over all chunks. */
  function TotalSize(groups: seq<Group>): nat
  {
    if groups == [] then 0 else |groups[0].items| + TotalSize(groups[1..])
  }

  /** How many times a key occurs in a key list. */
  function Occurrences(keys: seq<string>, k: string): nat
  {
    if keys == [] then 0 else (if keys[0] == k then 1 else 0) + Occurrences(keys[1..], k)
  }

  lemma {:induction false} OccursOnce(keys: seq<string>, k: string)
    requires Ascending(keys) && k in keys
    ensures Occurrences(keys, k) == 1
  {
    AscendingDistinct(keys);
    if keys[0] == k {
      OccursNot(keys[1..], k);
    } else {
      OccursOnce(keys[1..], k);
    }
  }

  lemma {:induction false} OccursNot(keys: seq<string>, k: string)
    requires k !in keys
    ensures Occurrences(keys, k) == 0
  {
    if keys != [] {
      OccursNot(keys[1..], k);
    }
  }

  lemma {:induction false} TotalSizeStep(keys: seq<string>, r: Record, rest: seq<Record>)
    ensures TotalSize(GroupsFor(keys, [r] + rest)) == TotalSize(GroupsFor(keys, rest)) + Occurrences(keys, r.prefix)
  {
    if keys != [] {
      assert ([r] + rest)[1..] == rest;
      TotalSizeStep(keys[1..], r, rest);
    }
  }

  lemma {:induction false} TotalSizeCovers(keys: seq<string>, records: seq<Record>)
    requires Ascending(keys)
    requires forall i :: 0 <= i < |records| ==> records[i].prefix in keys
    ensures TotalSize(GroupsFor(keys, records)) == |records|
  {
    if records == [] {
      TotalSizeEmpty(keys);
    } else {
      assert records == [records[0]] + records[1..];
      TotalSizeStep(keys, records[0], records[1..]);
      OccursOnce(keys, records[0].prefix);
      TotalSizeCovers(keys, records[1..]);
    }
  }

  lemma {:induction false} TotalSizeEmpty(keys: seq<string>)
    ensures TotalSize(GroupsFor(keys, [])) == 0
  {
    if keys != [] {
      TotalSizeEmpty(keys[1..]);
    }
  }

  /** No row is lost or duplicated: the chunk sizes add up to the number of records. */
  lemma GroupSizesSum(records: seq<Record>)
    ensures TotalSize(GroupByPrefix(records)) == |records|
  {
    var keys := SortedPrefixes(records);
    forall i | 0 <= i < |records| ensures records[i].prefix in keys {
      assert records[i].prefix in Prefixes(records);
    }
    TotalSizeCovers(keys, records);
  }
}
