/**
 * Template instantiation in src/folder_structure_builder.py: choosing a
 * template by the shape of the instance name (select_udt_name), mapping
 * bits to descriptions (prepare_bit_descriptions), writing descriptions
 * into the template's `<digits>_description` placeholders
 * (overwrite_udt_tags) and wrapping the result as a UdtInstance
 * (process_instance).
 */
module UdtInstances {
  import opened Wrappers
  import opened Strings
  import opened Forest
  import opened PrefixGrouper

  /** The template for numeric instance names, and the fallback. */
  const NumericUdt: string := "AlarmsDINT"
  /** The template for other bracket-free instance names. */
  const TextUdt: string := "AlarmsDINT2"
  /** The namespace in front of the template name in an instance's typeId. */
  const TypeIdNamespace: string := "AmazonUDTs/AlarmsUDTs/"
  const UdtInstanceType: string := "UdtInstance"
  /** The top-level folder of a template whose children are the placeholders. */
  const BitsFolderName: string := "bitsDescription"
  const PlaceholderSuffix: string := "_description"

  /** The loaded templates: template name to its "tags" list. */
  type Templates = map<string, seq<Node>>

  /** Bit number (as a string) to description. */
  type BitDescriptions = map<string, Option<string>>

  predicate HasNoBracket(s: string)
  {
    '[' !in s && ']' !in s
  }

  /**
   * select_udt_name: AlarmsDINT2 exactly for a non-empty name that is not
   * all digits and has no bracket; AlarmsDINT otherwise, which covers the
   * all-digit names and, as a silent default, the empty and bracketed ones.
   */
  function SelectUdtName(name: string): (r: string)
    ensures r == NumericUdt || r == TextUdt
    ensures r == TextUdt <==> |name| > 0 && !IsDigits(name) && HasNoBracket(name)
    ensures IsDigits(name) ==> r == NumericUdt
  {
    if IsDigits(name) then NumericUdt
    else if |name| > 0 && HasNoBracket(name) then TextUdt
    else NumericUdt
  }

  /** re.match(r"^(\d+)_description$", name).group(1), or None when it does not match. */
  function PlaceholderBit(name: string): (r: Option<string>)
    ensures r.Some? ==> IsDigits(r.value) && name == r.value + PlaceholderSuffix
  {
    var n := |name| - |PlaceholderSuffix|;
    if n > 0 && name[n..] == PlaceholderSuffix && IsDigits(name[..n]) then Some(name[..n]) else None
  }

  /** Every `<digits>_description` name is a placeholder for exactly those digits. */
  lemma PlaceholderBitOf(d: string)
    requires IsDigits(d)
    ensures PlaceholderBit(d + PlaceholderSuffix) == Some(d)
  {
    var name := d + PlaceholderSuffix;
    assert name[|d|..] == PlaceholderSuffix && name[..|d|] == d;
  }

  /** A top-level tag whose children overwrite_udt_tags visits. */
  predicate IsBitsFolder(n: Node)
  {
    n.name == BitsFolderName && IsFolder(n)
  }

  /** One child of a bitsDescription folder after overwriting. */
  function FillPlaceholder(child: Node, bits: BitDescriptions): Node
  {
    match PlaceholderBit(child.name)
    case Some(b) => if b in bits then child.(value := bits[b]) else child
    case None => child
  }

  /** One top-level tag after overwriting: only a bitsDescription folder has its children filled. */
  function OverwriteTop(tag: Node, bits: BitDescriptions): Node
  {
    if IsBitsFolder(tag) then
      tag.(tags := seq(|tag.tags|, j requires 0 <= j < |tag.tags| => FillPlaceholder(tag.tags[j], bits)))
    else tag
  }

  /** Same length, names, tagTypes and typeIds at every depth; only values may differ. */
  predicate SameShape(a: seq<Node>, b: seq<Node>)
    decreases a
  {
    |a| == |b| &&
    forall i :: 0 <= i < |a| ==>
      a[i].name == b[i].name && a[i].tagType == b[i].tagType && a[i].typeId == b[i].typeId && SameShape(a[i].tags, b[i].tags)
  }

  lemma {:induction false} SameShapeRefl(a: seq<Node>)
    ensures SameShape(a, a)
    decreases a
  {
    forall i | 0 <= i < |a| ensures SameShape(a[i].tags, a[i].tags) {
      SameShapeRefl(a[i].tags);
    }
  }

  /**
   * The tag list after overwrite_udt_tags.  Only the value of a direct
   * child of a top-level bitsDescription Folder changes, and only when the
   * child is a placeholder whose digits are a key of the map: it becomes
   * that key's description.  Every other value, every name and tagType,
   * the order and all deeper structure stay as they were.
   */
  function Overwritten(tags: seq<Node>, bits: BitDescriptions): (r: seq<Node>)
    ensures |r| == |tags|
    ensures forall i :: 0 <= i < |tags| && !IsBitsFolder(tags[i]) ==> r[i] == tags[i]
    ensures forall i :: 0 <= i < |tags| && IsBitsFolder(tags[i]) ==>
      SameHead(r[i], tags[i]) && |r[i].tags| == |tags[i].tags|
    ensures forall i, j :: 0 <= i < |tags| && IsBitsFolder(tags[i]) && 0 <= j < |tags[i].tags| ==>
      var c := tags[i].tags[j];
      && SameHead(r[i].tags[j], c.(value := r[i].tags[j].value))
      && r[i].tags[j].tags == c.tags
      && r[i].tags[j].value == (if PlaceholderBit(c.name).Some? && PlaceholderBit(c.name).value in bits
                                then bits[PlaceholderBit(c.name).value] else c.value)
  {
    seq(|tags|, i requires 0 <= i < |tags| => OverwriteTop(tags[i], bits))
  }

  /** overwrite_udt_tags preserves the whole shape of the tag list. */
  lemma OverwrittenShape(tags: seq<Node>, bits: BitDescriptions)
    ensures SameShape(tags, Overwritten(tags, bits))
  {
    var r := Overwritten(tags, bits);
    forall i | 0 <= i < |tags| ensures SameShape(tags[i].tags, r[i].tags) {
      if IsBitsFolder(tags[i]) {
        forall j | 0 <= j < |tags[i].tags| ensures SameShape(tags[i].tags[j].tags, r[i].tags[j].tags) {
          SameShapeRefl(tags[i].tags[j].tags);
        }
      } else {
        SameShapeRefl(tags[i].tags);
      }
    }
  }

  /** Overwriting twice with the same map is overwriting once. */
  lemma OverwrittenIdempotent(tags: seq<Node>, bits: BitDescriptions)
    ensures Overwritten(Overwritten(tags, bits), bits) == Overwritten(tags, bits)
  {
    var r := Overwritten(tags, bits);
    var rr := Overwritten(r, bits);
    forall i | 0 <= i < |tags| ensures rr[i] == r[i] {
      if IsBitsFolder(tags[i]) {
        assert IsBitsFolder(r[i]);
        assert |rr[i].tags| == |r[i].tags|;
        forall j | 0 <= j < |r[i].tags| ensures rr[i].tags[j] == r[i].tags[j] {
        }
        assert rr[i].tags == r[i].tags;
      }
    }
  }

  /** An empty map changes nothing. */
  lemma OverwrittenEmpty(tags: seq<Node>)
    ensures Overwritten(tags, map[]) == tags
  {
    var r := Overwritten(tags, map[]);
    forall i | 0 <= i < |tags| ensures r[i] == tags[i] {
      if IsBitsFolder(tags[i]) {
        assert r[i].tags == tags[i].tags;
      }
    }
  }

  /** Some direct child of a top-level bitsDescription folder is the placeholder for this bit. */
  predicate HasPlaceholder(tags: seq<Node>, bit: string)
  {
    exists i, j :: 0 <= i < |tags| && IsBitsFolder(tags[i]) && 0 <= j < |tags[i].tags| &&
      PlaceholderBit(tags[i].tags[j].name) == Some(bit)
  }

  /** A map key with no placeholder in the template is silently ignored. */
  lemma OverwrittenIgnoresUnusedKey(tags: seq<Node>, bits: BitDescriptions, bit: string)
    requires !HasPlaceholder(tags, bit)
    ensures Overwritten(tags, bits) == Overwritten(tags, bits - {bit})
  {
    var r := Overwritten(tags, bits);
    var r' := Overwritten(tags, bits - {bit});
    forall i | 0 <= i < |tags| ensures r[i] == r'[i] {
      if IsBitsFolder(tags[i]) {
        forall j | 0 <= j < |tags[i].tags| ensures r[i].tags[j] == r'[i].tags[j] {
          assert PlaceholderBit(tags[i].tags[j].name) != Some(bit);
        }
        assert r[i].tags == r'[i].tags;
      }
    }
  }

  /** overwrite_udt_tags: the for loops of the source, filling the placeholders one by one. */
  method OverwriteUdtTags(udtTags: seq<Node>, bits: BitDescriptions) returns (r: seq<Node>)
    ensures r == Overwritten(udtTags, bits)
  {
    r := udtTags;
    var i := 0;
    while i < |r|
      invariant 0 <= i <= |r| == |udtTags|
      invariant forall k :: 0 <= k < i ==> r[k] == OverwriteTop(udtTags[k], bits)
      invariant forall k :: i <= k < |r| ==> r[k] == udtTags[k]
    {
      var tag := r[i];
      if tag.name == BitsFolderName && tag.tagType == FolderType {
        var children := tag.tags;
        var j := 0;
        while j < |children|
          invariant 0 <= j <= |children| == |tag.tags|
          invariant forall m :: 0 <= m < j ==> children[m] == FillPlaceholder(tag.tags[m], bits)
          invariant forall m :: j <= m < |children| ==> children[m] == tag.tags[m]
        {
          var bitTag := children[j];
          var bit := PlaceholderBit(bitTag.name);
          if bit.Some? && bit.value in bits {
            children := children[j := bitTag.(value := bits[bit.value])];
          }
          j := j + 1;
        }
        r := r[i := tag.(tags := children)];
      }
      i := i + 1;
    }
    assert forall k :: 0 <= k < |r| ==> r[k] == Overwritten(udtTags, bits)[k];
  }

  /** str(row['Bit']): the bit itself, or "None" for a row without one. */
  function BitKey(bit: Option<string>): (k: string)
    ensures bit.Some? && IsDigits(bit.value) ==> k == bit.value
    ensures bit.None? ==> !IsDigits(k)
  {
    match bit
    case Some(b) => b
    case None => assert !IsDigitChar("None"[0]); "None"
  }

  /** The keys produced by a chunk. */
  function BitKeys(items: seq<Item>): set<string>
  {
    set i | 0 <= i < |items| :: BitKey(items[i].bit)
  }

  /** prepare_bit_descriptions: the dict comprehension over the rows, in order, so a later row overrides. */
  function PrepareBitDescriptions(items: seq<Item>): (m: BitDescriptions)
    ensures m.Keys == BitKeys(items)
  {
    if items == [] then map[]
    else
      var n := |items| - 1;
      var m := PrepareBitDescriptions(items[..n])[BitKey(items[n].bit) := items[n].description];
      assert BitKeys(items) == BitKeys(items[..n]) + {BitKey(items[n].bit)} by {
        forall k ensures k in BitKeys(items) <==> k in BitKeys(items[..n]) || k == BitKey(items[n].bit) {
          if k in BitKeys(items) {
            var i :| 0 <= i < |items| && BitKey(items[i].bit) == k;
            if i < n { assert items[..n][i] == items[i]; }
          }
          if k in BitKeys(items[..n]) {
            var i :| 0 <= i < n && BitKey(items[..n][i].bit) == k;
            assert items[i] == items[..n][i];
          }
        }
      }
      m
  }

  /** For a duplicate bit the last row wins. */
  lemma {:induction false} LastRowWins(items: seq<Item>, i: nat)
    requires i < |items|
    requires forall k :: i < k < |items| ==> BitKey(items[k].bit) != BitKey(items[i].bit)
    ensures PrepareBitDescriptions(items)[BitKey(items[i].bit)] == items[i].description
  {
    var n := |items| - 1;
    if i < n {
      assert forall k :: i < k < n ==> items[..n][k] == items[k];
      LastRowWins(items[..n], i);
      assert items[..n][i] == items[i];
    }
  }

  /**
   * process_instance: a UdtInstance named after the instance, whose typeId
   * names the selected template and whose tags are an overwritten copy of
   * that template's tags; a missing template is an error naming it.
   */
  function ProcessInstance(name: string, items: seq<Item>, templates: Templates): (r: Result<Node, string>)
    ensures r.Err? <==> SelectUdtName(name) !in templates
    ensures r.Err? ==> r.error == SelectUdtName(name)
    ensures r.Ok? ==> r.value.name == name && r.value.tagType == UdtInstanceType && r.value.value == None
    ensures r.Ok? ==> r.value.typeId == Some(TypeIdNamespace + SelectUdtName(name))
    ensures r.Ok? ==> SameShape(templates[SelectUdtName(name)], r.value.tags)
    ensures r.Ok? ==> r.value.tags == Overwritten(templates[SelectUdtName(name)], PrepareBitDescriptions(items))
  {
    var udt := SelectUdtName(name);
    if udt !in templates then Err(udt)
    else
      var tags := Overwritten(templates[udt], PrepareBitDescriptions(items));
      OverwrittenShape(templates[udt], PrepareBitDescriptions(items));
      Ok(Node(name, UdtInstanceType, Some(TypeIdNamespace + udt), None, tags))
  }

  /**
   * The placeholder for a bit gets the description of the last row with
   * that bit; the template itself is a value and is left as it was.
   */
  lemma InstancePlaceholderFilled(name: string, items: seq<Item>, templates: Templates, i: nat, j: nat, k: nat)
    requires SelectUdtName(name) in templates
    requires var t := templates[SelectUdtName(name)];
      i < |t| && IsBitsFolder(t[i]) && j < |t[i].tags|
    requires k < |items| && PlaceholderBit(templates[SelectUdtName(name)][i].tags[j].name) == Some(BitKey(items[k].bit))
    requires forall l :: k < l < |items| ==> BitKey(items[l].bit) != BitKey(items[k].bit)
    ensures ProcessInstance(name, items, templates).value.tags[i].tags[j].value == items[k].description
  {
    LastRowWins(items, k);
  }

  /** A placeholder whose bit no row has keeps the template's value. */
  lemma InstancePlaceholderKept(name: string, items: seq<Item>, templates: Templates, i: nat, j: nat)
    requires SelectUdtName(name) in templates
    requires var t := templates[SelectUdtName(name)];
      i < |t| && IsBitsFolder(t[i]) && j < |t[i].tags|
    requires var c := templates[SelectUdtName(name)][i].tags[j];
      forall l :: 0 <= l < |items| ==> PlaceholderBit(c.name) != Some(BitKey(items[l].bit))
    ensures ProcessInstance(name, items, templates).value.tags[i].tags[j] == templates[SelectUdtName(name)][i].tags[j]
  {
    var c := templates[SelectUdtName(name)][i].tags[j];
    match PlaceholderBit(c.name)
    case None =>
    case Some(b) =>
      assert forall l :: 0 <= l < |items| ==> BitKey(items[l].bit) != b;
      assert b !in BitKeys(items);
  }
}
