/**
 * The folder tree of src/folder_structure_builder.py: bracket-to-paren
 * normalisation of folder names, the walk that finds or creates a folder
 * per prefix component (build_folder_hierarchy), and the step that appends
 * one UdtInstance per distinct instance name (build_folder_structure).
 * The shared folder list is the `tags` field of a FolderTree object; the
 * inner list that build_folder_hierarchy returns by reference is an index
 * path into it.
 */
module FolderBuilder {
  import opened Wrappers
  import opened Strings
  import opened Forest
  import opened PrefixGrouper
  import opened UdtInstances

  /** The end of the run of ASCII digits that starts at k. */
  function DigitRunEnd(s: string, k: nat): (e: nat)
    requires k <= |s|
    decreases |s| - k
    ensures k <= e <= |s|
    ensures forall m :: k <= m < e ==> IsDigitChar(s[m])
    ensures e < |s| ==> !IsDigitChar(s[e])
  {
    if k < |s| && IsDigitChar(s[k]) then DigitRunEnd(s, k + 1) else k
  }

  lemma {:induction false} DigitRunEndIs(s: string, k: nat, e: nat)
    requires k <= e <= |s|
    requires forall m :: k <= m < e ==> IsDigitChar(s[m])
    requires e < |s| ==> !IsDigitChar(s[e])
    ensures DigitRunEnd(s, k) == e
    decreases e - k
  {
    if k < e {
      DigitRunEndIs(s, k + 1, e);
    }
  }

  /** The length of the match of `\[(\d+)\]` at the start of s, or 0 when it does not match there. */
  function GroupLen(s: string): (n: nat)
    ensures n == 0 || (3 <= n <= |s| && s[0] == '[' && s[n - 1] == ']' && IsDigits(s[1..n - 1]))
  {
    if |s| > 0 && s[0] == '[' then
      var e := DigitRunEnd(s, 1);
      if e > 1 && e < |s| && s[e] == ']' then e + 1 else 0
    else 0
  }

  /** The only changes the conversion makes to one character. */
  predicate Converted(a: char, b: char)
  {
    b == a || (a == '[' && b == '(') || (a == ']' && b == ')')
  }

  /**
   * convert_brackets_to_parentheses: re.sub(r"\[(\d+)\]", r"(\1)", s).
   * Only a `[` or `]` ever changes, into `(` or `)`; the length stays.
   */
  function ConvertBrackets(s: string): (r: string)
    decreases |s|
    ensures |r| == |s|
  {
    if s == [] then []
    else
      var n := GroupLen(s);
      if n > 0 then ['('] + s[1..n - 1] + [')'] + ConvertBrackets(s[n..])
      else [s[0]] + ConvertBrackets(s[1..])
  }

  /** Only a `[` or `]` ever changes, into `(` or `)`. */
  lemma {:induction false} ConvertOnlyBrackets(s: string, i: nat)
    requires i < |s|
    ensures Converted(s[i], ConvertBrackets(s)[i])
    decreases |s|
  {
    var n := GroupLen(s);
    var r := ConvertBrackets(s);
    if n > 0 {
      if n <= i {
        assert r[i] == ConvertBrackets(s[n..])[i - n];
        ConvertOnlyBrackets(s[n..], i - n);
      } else if 0 < i < n - 1 {
        assert r[i] == s[1..n - 1][i - 1];
      }
    } else if i > 0 {
      assert r[i] == ConvertBrackets(s[1..])[i - 1];
      ConvertOnlyBrackets(s[1..], i - 1);
    }
  }

  /** Text with no `[` in front passes through unchanged. */
  lemma {:induction false} ConvertAfterPlain(x: string, y: string)
    requires '[' !in x
    ensures ConvertBrackets(x + y) == x + ConvertBrackets(y)
  {
    if x == [] {
      assert x + y == y;
    } else {
      assert (x + y)[1..] == x[1..] + y;
      assert '[' !in x[1..];
      ConvertAfterPlain(x[1..], y);
    }
  }

  /** A string with no `[` is returned unchanged. */
  lemma NoBracketUnchanged(s: string)
    requires '[' !in s
    ensures ConvertBrackets(s) == s
  {
    ConvertAfterPlain(s, "");
    assert s + "" == s;
  }

  /** A `[digits]` group at the very start becomes `(digits)`. */
  lemma ConvertGroupAtStart(d: string, y: string)
    requires IsDigits(d)
    ensures ConvertBrackets("[" + (d + ("]" + y))) == "(" + (d + (")" + ConvertBrackets(y)))
  {
    var g := "[" + (d + ("]" + y));
    var e := |d| + 1;
    forall m | 1 <= m < e ensures IsDigitChar(g[m]) {
      assert g[m] == d[m - 1];
    }
    assert g[e] == ']';
    DigitRunEndIs(g, 1, e);
    assert GroupLen(g) == e + 1;
    assert g[1..e] == d;
    assert g[e + 1..] == y;
    ConcatAssoc("(", d, ")");
    ConcatAssoc("(" + d, ")", ConvertBrackets(y));
    ConcatAssoc("(", d, ")" + ConvertBrackets(y));
  }

  /** Each `[digits]` group, scanned left to right, becomes `(digits)`. */
  lemma ConvertGroup(x: string, d: string, y: string)
    requires '[' !in x && IsDigits(d)
    ensures ConvertBrackets(x + "[" + d + "]" + y) == x + "(" + d + ")" + ConvertBrackets(y)
  {
    var g := "[" + (d + ("]" + y));
    calc {
      x + "[" + d + "]" + y;
    == { ConcatAssoc(x + "[" + d, "]", y); }
      x + "[" + d + ("]" + y);
    == { ConcatAssoc(x + "[", d, "]" + y); }
      x + "[" + (d + ("]" + y));
    == { ConcatAssoc(x, "[", d + ("]" + y)); }
      x + g;
    }
    ConvertAfterPlain(x, g);
    ConvertGroupAtStart(d, y);
    var cy := ConvertBrackets(y);
    calc {
      x + "(" + d + ")" + cy;
    == { ConcatAssoc(x + "(" + d, ")", cy); }
      x + "(" + d + (")" + cy);
    == { ConcatAssoc(x + "(", d, ")" + cy); }
      x + "(" + (d + (")" + cy));
    == { ConcatAssoc(x, "(", d + (")" + cy)); }
      x + ("(" + (d + (")" + cy)));
    }
  }

  /** The first character of the converted text. */
  lemma ConvertHead(t: string)
    requires t != []
    ensures ConvertBrackets(t)[0] == if GroupLen(t) > 0 then '(' else t[0]
  {
  }

  /** Applying the conversion twice is applying it once. */
  lemma {:induction false} ConvertIdempotent(s: string)
    ensures ConvertBrackets(ConvertBrackets(s)) == ConvertBrackets(s)
    decreases |s|
  {
    if s != [] {
      var n := GroupLen(s);
      if n > 0 {
        ConvertIdempotent(s[n..]);
        IdempotentAtGroup(s);
      } else {
        ConvertIdempotent(s[1..]);
        if s[0] != '[' {
          IdempotentAtPlain(s);
        } else {
          IdempotentAtOpen(s);
        }
      }
    }
  }

  /** The step of ConvertIdempotent for a string that starts with a `[digits]` group. */
  lemma IdempotentAtGroup(s: string)
    requires GroupLen(s) > 0
    requires var c := ConvertBrackets(s[GroupLen(s)..]); ConvertBrackets(c) == c
    ensures ConvertBrackets(ConvertBrackets(s)) == ConvertBrackets(s)
  {
    var n := GroupLen(s);
    var x := "(" + s[1..n - 1] + ")";
    var c := ConvertBrackets(s[n..]);
    assert ConvertBrackets(s) == x + c;
    ParenGroupPlain(s[1..n - 1]);
    ConvertAfterPlain(x, c);
  }

  /** A converted group `(digits)` holds no `[`. */
  lemma ParenGroupPlain(d: string)
    requires IsDigits(d)
    ensures '[' !in "(" + d + ")"
  {
    var x := "(" + d + ")";
    forall j | 0 <= j < |x| ensures x[j] != '[' {
      if 0 < j < |x| - 1 {
        assert x[j] == d[j - 1];
      }
    }
  }

  /** The step of ConvertIdempotent for a string whose first character is kept and is not `[`. */
  lemma IdempotentAtPlain(s: string)
    requires s != [] && GroupLen(s) == 0 && s[0] != '['
    requires var c := ConvertBrackets(s[1..]); ConvertBrackets(c) == c
    ensures ConvertBrackets(ConvertBrackets(s)) == ConvertBrackets(s)
  {
    var c := ConvertBrackets(s[1..]);
    assert ConvertBrackets(s) == [s[0]] + c;
    ConvertAfterPlain([s[0]], c);
  }

  /** The step of ConvertIdempotent for a string whose first `[` opens no group. */
  lemma IdempotentAtOpen(s: string)
    requires s != [] && GroupLen(s) == 0 && s[0] == '['
    requires var c := ConvertBrackets(s[1..]); ConvertBrackets(c) == c
    ensures ConvertBrackets(ConvertBrackets(s)) == ConvertBrackets(s)
  {
    var c := ConvertBrackets(s[1..]);
    var t := ConvertBrackets(s);
    assert t == [s[0]] + c;
    OpenBracketStaysOpen(s);
    assert t[1..] == c;
  }

  /** What the conversion makes of a string whose first `[` opens no group. */
  lemma OpenBracketShape(s: string)
    requires s != [] && s[0] == '[' && GroupLen(s) == 0
    ensures var e := DigitRunEnd(s, 1);
      ConvertBrackets(s) == ['['] + (s[1..e] + ConvertBrackets(s[e..]))
  {
    var e := DigitRunEnd(s, 1);
    var d := s[1..e];
    var rest := s[e..];
    assert s[1..] == d + rest;
    assert '[' !in d by {
      forall j | 0 <= j < |d| ensures d[j] != '[' {
        assert d[j] == s[j + 1];
      }
    }
    ConvertAfterPlain(d, rest);
  }

  /** A `[` that opens no group in s opens none in the converted text either. */
  lemma OpenBracketStaysOpen(s: string)
    requires s != [] && s[0] == '[' && GroupLen(s) == 0
    ensures GroupLen(ConvertBrackets(s)) == 0
  {
    var e := DigitRunEnd(s, 1);
    var d := s[1..e];
    var rest := s[e..];
    var cr := ConvertBrackets(rest);
    var t := ConvertBrackets(s);
    OpenBracketShape(s);
    assert t == ['['] + (d + cr);
    forall m | 1 <= m < e ensures IsDigitChar(t[m]) {
      assert t[m] == d[m - 1] == s[m];
    }
    if rest != [] {
      assert t[e] == cr[0];
      assert rest[0] == s[e];
      ConvertHead(rest);
    }
    DigitRunEndIs(t, 1, e);
  }

  /** The documented example: 'array[0]' becomes 'array(0)'. */
  lemma ConvertExample()
    ensures ConvertBrackets("array[0]") == "array(0)"
  {
    ConvertGroup("array", "0", "");
    assert "array" + "[" + "0" + "]" + "" == "array[0]";
    assert "array" + "(" + "0" + ")" + "" == "array(0)";
  }

  /** The folder names of a prefix: prefix.split('.') with each component normalised. */
  function FolderNames(comps: seq<string>): (names: seq<string>)
    ensures |names| == |comps|
    ensures forall k :: 0 <= k < |comps| ==> names[k] == ConvertBrackets(comps[k])
  {
    seq(|comps|, k requires 0 <= k < |comps| => ConvertBrackets(comps[k]))
  }

  /** The folder build_folder_hierarchy reuses: a Folder of that name. */
  predicate IsFolderNamed(n: Node, name: string)
  {
    n.name == name && IsFolder(n)
  }

  /** next(item for item in level if ...): the index of the first match, or |level| when there is none. */
  function FindFolder(level: seq<Node>, name: string): (i: nat)
    ensures i <= |level|
    ensures i < |level| ==> IsFolderNamed(level[i], name)
    ensures forall j :: 0 <= j < i ==> !IsFolderNamed(level[j], name)
  {
    if level == [] then 0
    else if IsFolderNamed(level[0], name) then 0
    else 1 + FindFolder(level[1..], name)
  }

  lemma FindFolderIs(level: seq<Node>, name: string, i: nat)
    requires i <= |level|
    requires i < |level| ==> IsFolderNamed(level[i], name)
    requires forall j :: 0 <= j < i ==> !IsFolderNamed(level[j], name)
    ensures FindFolder(level, name) == i
  {
  }

  /**
   * b is a, except for the nodes along the path, and at each level along it at
   * most one Folder has been appended, after all existing nodes; the level
   * the path reaches is untouched.
   */
  predicate ChangedAlong(a: seq<Node>, b: seq<Node>, path: seq<nat>)
    decreases path
  {
    if path == [] then a == b
    else
      var p := path[0];
      && p <= |a| && |b| == (if p < |a| then |a| else |a| + 1)
      && (forall i :: 0 <= i < |a| && i != p ==> b[i] == a[i])
      && (p < |a| ==> SameHead(a[p], b[p]) && ChangedAlong(a[p].tags, b[p].tags, path[1..]))
      && (p == |a| ==> IsFolder(b[p]) && ChangedAlong([], b[p].tags, path[1..]))
  }

  /**
   * build_folder_hierarchy on values, for the normalised folder names: the
   * new tree and the path to the list it returns.  Each name reuses the
   * first Folder of that name at the current level, or else appends a new
   * empty one.
   */
  function Resolve(level: seq<Node>, names: seq<string>): (r: (seq<Node>, seq<nat>))
    decreases |names|
    ensures FolderPath(r.0, r.1) && ValidPath(r.0, r.1) && |r.1| == |names|
  {
    if names == [] then (level, [])
    else
      var i := FindFolder(level, names[0]);
      if i < |level| then
        var sub := Resolve(level[i].tags, names[1..]);
        (level[i := level[i].(tags := sub.0)], [i] + sub.1)
      else
        var sub := Resolve([], names[1..]);
        (level + [NewFolder(names[0]).(tags := sub.0)], [|level|] + sub.1)
  }

  /**
   * The walk ends at the folder path with the given names, and it changed
   * the tree only along that path, by at most one new folder per name.
   */
  lemma {:induction false} ResolveShape(level: seq<Node>, names: seq<string>)
    ensures var r := Resolve(level, names);
      && ValidPath(r.0, r.1)
      && PathNames(r.0, r.1) == names
      && ChangedAlong(level, r.0, r.1)
    decreases |names|
  {
    var r := Resolve(level, names);
    FolderPathValid(r.0, r.1);
    if names != [] {
      var i := FindFolder(level, names[0]);
      assert r.1[1..] == Resolve(if i < |level| then level[i].tags else [], names[1..]).1;
      assert names == [names[0]] + names[1..];
      if i < |level| {
        ResolveShape(level[i].tags, names[1..]);
      } else {
        ResolveShape([], names[1..]);
      }
    }
  }

  /** Nothing is lost: what was in the tree is still there, in place. */
  lemma {:induction false} ChangedAlongGrows(a: seq<Node>, b: seq<Node>, path: seq<nat>)
    requires ChangedAlong(a, b, path)
    ensures Grows(a, b)
    decreases path
  {
    if path == [] {
      GrowsRefl(a);
    } else {
      var p := path[0];
      forall i | 0 <= i < |a| ensures SameHead(a[i], b[i]) && Grows(a[i].tags, b[i].tags) {
        if i == p {
          ChangedAlongGrows(a[p].tags, b[p].tags, path[1..]);
        } else {
          GrowsRefl(a[i].tags);
        }
      }
    }
  }

  /** The walk never creates a second Folder of a name at one level. */
  lemma {:induction false} ResolveKeepsUniqueFolders(level: seq<Node>, names: seq<string>)
    requires UniqueFolders(level)
    ensures UniqueFolders(Resolve(level, names).0)
    decreases |names|
  {
    if names != [] {
      var name := names[0];
      var i := FindFolder(level, name);
      var r := Resolve(level, names).0;
      if i < |level| {
        ResolveKeepsUniqueFolders(level[i].tags, names[1..]);
        assert forall j :: 0 <= j < |level| && j != i ==> r[j] == level[j];
      } else {
        ResolveKeepsUniqueFolders([], names[1..]);
        assert forall j :: 0 <= j < |level| ==> r[j] == level[j];
      }
    }
  }

  /** An empty prefix still walks one component: a folder named "". */
  lemma EmptyPrefixFolder(level: seq<Node>)
    ensures var r := Resolve(level, FolderNames(Split("", '.')));
      |r.1| == 1 && PathNames(r.0, r.1) == [""]
  {
    assert Split("", '.') == [""];
    assert ConvertBrackets("") == "";
    assert FolderNames([""]) == [""];
    ResolveShape(level, [""]);
  }

  /** A second walk with the same prefix finds everything in place and changes nothing. */
  lemma {:induction false} ResolveIdempotent(level: seq<Node>, names: seq<string>)
    ensures var r := Resolve(level, names); Resolve(r.0, names) == r
    decreases |names|
  {
    if names != [] {
      var name := names[0];
      var i := FindFolder(level, name);
      var r := Resolve(level, names);
      if i < |level| {
        var sub := Resolve(level[i].tags, names[1..]);
        FindFolderIs(r.0, name, i);
        ResolveIdempotent(level[i].tags, names[1..]);
        assert r.0[i := r.0[i].(tags := sub.0)] == r.0;
      } else {
        var sub := Resolve([], names[1..]);
        FindFolderIs(r.0, name, |level|);
        ResolveIdempotent([], names[1..]);
        assert r.0[|level| := r.0[|level|].(tags := sub.0)] == r.0;
      }
    }
  }

  /** Each distinct value of the list once, in order of first appearance: pandas' unique(). */
  function Unique(s: seq<string>): (u: seq<string>)
    ensures forall i, j :: 0 <= i < j < |u| ==> u[i] != u[j]
    ensures forall x :: x in u <==> x in s
  {
    if s == [] then []
    else
      var n := |s| - 1;
      var u := Unique(s[..n]);
      assert s == s[..n] + [s[n]];
      if s[n] in u then u else u + [s[n]]
  }

  /** The index of the first occurrence. */
  function FirstIndex(s: seq<string>, x: string): (i: nat)
    requires x in s
    ensures i < |s| && s[i] == x && forall j :: 0 <= j < i ==> s[j] != x
  {
    if s[0] == x then 0 else 1 + FirstIndex(s[1..], x)
  }

  /** unique() lists the values in the order in which they first appear. */
  lemma {:induction false} UniqueFirstSeenOrder(s: seq<string>)
    ensures forall i, j :: 0 <= i < j < |Unique(s)| ==> FirstIndex(s, Unique(s)[i]) < FirstIndex(s, Unique(s)[j])
  {
    if s != [] {
      var n := |s| - 1;
      var u := Unique(s[..n]);
      UniqueFirstSeenOrder(s[..n]);
      forall i | 0 <= i < |u|
        ensures u[i] in s[..n] && u[i] in s && FirstIndex(s, u[i]) == FirstIndex(s[..n], u[i]) < n
      {
        assert u[i] in u;
        assert u[i] in s[..n];
        var f := FirstIndex(s[..n], u[i]);
        assert s[f] == s[..n][f];
        forall j | 0 <= j < f ensures s[j] != u[i] {
          assert s[j] == s[..n][j];
        }
        FirstIndexIs(s, u[i], f);
      }
      if s[n] in u {
        assert Unique(s) == u;
        forall i, j | 0 <= i < j < |u| ensures FirstIndex(s, u[i]) < FirstIndex(s, u[j]) {
          assert FirstIndex(s[..n], u[i]) < FirstIndex(s[..n], u[j]);
        }
      } else {
        assert s[n] !in s[..n];
        forall j | 0 <= j < n ensures s[j] != s[n] {
          assert s[j] == s[..n][j];
        }
        FirstIndexIs(s, s[n], n);
        var v := u + [s[n]];
        assert Unique(s) == v;
        forall i, j | 0 <= i < j < |v| ensures FirstIndex(s, v[i]) < FirstIndex(s, v[j]) {
          if j < |u| {
            assert v[i] == u[i] && v[j] == u[j];
          } else {
            assert v[i] == u[i] && v[j] == s[n];
          }
        }
      }
    }
  }

  lemma FirstIndexIs(s: seq<string>, x: string, i: nat)
    requires i < |s| && s[i] == x && forall j :: 0 <= j < i ==> s[j] != x
    ensures FirstIndex(s, x) == i
  {
    var f := FirstIndex(s, x);
    assert !(f < i) && !(i < f);
  }

  /** chunk_df['InstanceName'] */
  function InstanceNames(chunk: seq<Item>): (names: seq<string>)
    ensures |names| == |chunk| && forall i :: 0 <= i < |chunk| ==> names[i] == chunk[i].instanceName
  {
    seq(|chunk|, i requires 0 <= i < |chunk| => chunk[i].instanceName)
  }

  /** chunk_df[chunk_df['InstanceName'] == name]: that instance's rows, in order. */
  function ItemsNamed(chunk: seq<Item>, name: string): (items: seq<Item>)
    ensures forall k :: 0 <= k < |items| ==> items[k].instanceName == name && items[k] in chunk
    ensures forall i :: 0 <= i < |chunk| && chunk[i].instanceName == name ==> chunk[i] in items
  {
    if chunk == [] then []
    else
      var rest := ItemsNamed(chunk[1..], name);
      assert forall i :: 1 <= i < |chunk| ==> chunk[i] == chunk[1..][i - 1];
      if chunk[0].instanceName == name then [chunk[0]] + rest else rest
  }

  /** The filter keeps the rows' order and multiplicity: it distributes over concatenation. */
  lemma {:induction false} ItemsNamedAppend(a: seq<Item>, b: seq<Item>, name: string)
    ensures ItemsNamed(a + b, name) == ItemsNamed(a, name) + ItemsNamed(b, name)
    decreases |a|
  {
    if a == [] {
      assert a + b == b;
    } else {
      assert (a + b)[1..] == a[1..] + b;
      assert (a + b)[0] == a[0];
      ItemsNamedAppend(a[1..], b, name);
    }
  }

  /** The instances built for a list of names, up to the first one whose template is missing. */
  datatype Built = Built(nodes: seq<Node>, missing: Option<string>)

  /**
   * The loop of build_folder_structure on values: one instance per name,
   * in order; a missing template stops the loop and is reported.
   */
  function BuildInstances(names: seq<string>, chunk: seq<Item>, templates: Templates): (b: Built)
    ensures |b.nodes| <= |names|
    ensures forall k :: 0 <= k < |b.nodes| ==> ProcessInstance(names[k], ItemsNamed(chunk, names[k]), templates) == Ok(b.nodes[k])
    ensures b.missing.None? <==> forall k :: 0 <= k < |names| ==> SelectUdtName(names[k]) in templates
    ensures b.missing.None? ==> |b.nodes| == |names|
    ensures b.missing.Some? ==>
      |b.nodes| < |names| && b.missing.value == SelectUdtName(names[|b.nodes|]) && b.missing.value !in templates
  {
    var r := CollectPrefix(names, InstanceStep(chunk, templates));
    Built(r.0, r.1)
  }

  /** One iteration of that loop: process_instance on the name and its rows. */
  function InstanceStep(chunk: seq<Item>, templates: Templates): string -> Result<Node, string>
  {
    name => ProcessInstance(name, ItemsNamed(chunk, name), templates)
  }

  /** The instances built carry the names they were built for and are UdtInstance nodes, not folders. */
  lemma BuiltInstancesNamed(names: seq<string>, chunk: seq<Item>, templates: Templates)
    ensures var b := BuildInstances(names, chunk, templates);
      forall k :: 0 <= k < |b.nodes| ==> b.nodes[k].name == names[k] && b.nodes[k].tagType == UdtInstanceType && !IsFolder(b.nodes[k])
  {
    var b := BuildInstances(names, chunk, templates);
    forall k | 0 <= k < |b.nodes| ensures b.nodes[k].name == names[k] && b.nodes[k].tagType == UdtInstanceType && !IsFolder(b.nodes[k]) {
      assert ProcessInstance(names[k], ItemsNamed(chunk, names[k]), templates) == Ok(b.nodes[k]);
    }
  }

  /** Appending instances, which are not folders, keeps folder names unique. */
  lemma AppendInstancesKeepsUniqueFolders(level: seq<Node>, nodes: seq<Node>)
    requires UniqueFolders(level)
    requires forall k :: 0 <= k < |nodes| ==> !IsFolder(nodes[k])
    ensures UniqueFolders(level + nodes)
  {
    var l := level + nodes;
    assert forall i :: 0 <= i < |level| ==> l[i] == level[i];
  }

  /**
   * build_folder_structure on values: the new tree, and the missing
   * template if one stopped it, which happens exactly when some instance
   * of the chunk selects a template that is not loaded.
   */
  function StructureAfter(forest: seq<Node>, prefix: string, chunk: seq<Item>, templates: Templates): (r: (seq<Node>, Option<string>))
    ensures r.1.None? <==> forall i :: 0 <= i < |chunk| ==> SelectUdtName(chunk[i].instanceName) in templates
    ensures r.1.Some? ==> r.1.value !in templates
  {
    AllTemplatesPresent(chunk, templates);
    var res := Resolve(forest, FolderNames(Split(prefix, '.')));
    var built := BuildInstances(Unique(InstanceNames(chunk)), chunk, templates);
    (WithLevel(res.0, res.1, LevelAt(res.0, res.1) + built.nodes), built.missing)
  }

  /** Every distinct instance name has its template exactly when every row's instance name has. */
  lemma AllTemplatesPresent(chunk: seq<Item>, templates: Templates)
    ensures var u := Unique(InstanceNames(chunk));
      (forall k :: 0 <= k < |u| ==> SelectUdtName(u[k]) in templates) <==>
      (forall i :: 0 <= i < |chunk| ==> SelectUdtName(chunk[i].instanceName) in templates)
  {
    var names := InstanceNames(chunk);
    var u := Unique(names);
    if forall k :: 0 <= k < |u| ==> SelectUdtName(u[k]) in templates {
      forall i | 0 <= i < |chunk| ensures SelectUdtName(chunk[i].instanceName) in templates {
        assert names[i] in u;
        var k :| 0 <= k < |u| && u[k] == names[i];
        assert SelectUdtName(u[k]) in templates;
      }
    }
    if forall i :: 0 <= i < |chunk| ==> SelectUdtName(chunk[i].instanceName) in templates {
      forall k | 0 <= k < |u| ensures SelectUdtName(u[k]) in templates {
        assert u[k] in names;
        var i :| 0 <= i < |names| && names[i] == u[k];
        assert SelectUdtName(chunk[i].instanceName) in templates;
      }
    }
  }

  /**
   * After build_folder_structure the folder the prefix names is still at
   * the path the walk found, and it holds its old contents followed by the
   * instances built for the chunk.
   */
  lemma StructureAppends(forest: seq<Node>, prefix: string, chunk: seq<Item>, templates: Templates)
    ensures var res := Resolve(forest, FolderNames(Split(prefix, '.')));
      var r := StructureAfter(forest, prefix, chunk, templates);
      && FolderPath(r.0, res.1) && ValidPath(r.0, res.1)
      && PathNames(r.0, res.1) == FolderNames(Split(prefix, '.'))
      && LevelAt(r.0, res.1) == LevelAt(res.0, res.1) + BuildInstances(Unique(InstanceNames(chunk)), chunk, templates).nodes
  {
    var res := Resolve(forest, FolderNames(Split(prefix, '.')));
    var x := LevelAt(res.0, res.1) + BuildInstances(Unique(InstanceNames(chunk)), chunk, templates).nodes;
    ResolveShape(forest, FolderNames(Split(prefix, '.')));
    WithLevelGet(res.0, res.1, x);
    WithLevelPathKept(res.0, res.1, x);
  }

  /** build_folder_structure only adds to the tree. */
  lemma StructureGrows(forest: seq<Node>, prefix: string, chunk: seq<Item>, templates: Templates)
    ensures Grows(forest, StructureAfter(forest, prefix, chunk, templates).0)
  {
    var res := Resolve(forest, FolderNames(Split(prefix, '.')));
    var level := LevelAt(res.0, res.1);
    var x := level + BuildInstances(Unique(InstanceNames(chunk)), chunk, templates).nodes;
    ResolveShape(forest, FolderNames(Split(prefix, '.')));
    ChangedAlongGrows(forest, res.0, res.1);
    assert Grows(level, x) by {
      GrowsRefl(level);
      assert forall i :: 0 <= i < |level| ==> x[i] == level[i];
    }
    GrowsWithLevel(res.0, res.1, x);
    GrowsTrans(forest, res.0, WithLevel(res.0, res.1, x));
  }

  /**
   * b is a, except along the path: there, as in ChangedAlong, at most one
   * Folder has been appended at each level and the node the path enters
   * keeps its fields; and the level the path reaches has had exactly extra
   * appended after its old nodes.
   */
  predicate AppendedAlong(a: seq<Node>, b: seq<Node>, path: seq<nat>, extra: seq<Node>)
    decreases path
  {
    if path == [] then b == a + extra
    else
      var p := path[0];
      && p <= |a| && |b| == (if p < |a| then |a| else |a| + 1)
      && (forall i :: 0 <= i < |a| && i != p ==> b[i] == a[i])
      && (p < |a| ==> SameHead(a[p], b[p]) && AppendedAlong(a[p].tags, b[p].tags, path[1..], extra))
      && (p == |a| ==> IsFolder(b[p]) && AppendedAlong([], b[p].tags, path[1..], extra))
  }

  /** Appending at the end of a changed path gives a tree that differs from the first one only as AppendedAlong says. */
  lemma {:induction false} ChangedAlongAppend(a: seq<Node>, b: seq<Node>, path: seq<nat>, extra: seq<Node>)
    requires ChangedAlong(a, b, path) && ValidPath(b, path)
    ensures AppendedAlong(a, WithLevel(b, path, LevelAt(b, path) + extra), path, extra)
    decreases path
  {
    if path != [] {
      var p := path[0];
      if p < |a| {
        ChangedAlongAppend(a[p].tags, b[p].tags, path[1..], extra);
      } else {
        ChangedAlongAppend([], b[p].tags, path[1..], extra);
      }
    }
  }

  /**
   * build_folder_structure changes nothing but what it creates: every
   * node off the walked path is as it was, each level on the path gained
   * at most one new Folder, and the reached folder gained exactly the
   * built instances, after its old contents.
   */
  lemma StructureOnlyAdds(forest: seq<Node>, prefix: string, chunk: seq<Item>, templates: Templates)
    ensures var res := Resolve(forest, FolderNames(Split(prefix, '.')));
      AppendedAlong(forest, StructureAfter(forest, prefix, chunk, templates).0, res.1,
        BuildInstances(Unique(InstanceNames(chunk)), chunk, templates).nodes)
  {
    var names := FolderNames(Split(prefix, '.'));
    var res := Resolve(forest, names);
    ResolveShape(forest, names);
    ChangedAlongAppend(forest, res.0, res.1, BuildInstances(Unique(InstanceNames(chunk)), chunk, templates).nodes);
  }

  /** Replacing the level at the end of a folder path keeps the path and its names. */
  lemma {:induction false} WithLevelPathKept(level: seq<Node>, path: seq<nat>, x: seq<Node>)
    requires FolderPath(level, path)
    ensures ValidPath(level, path)
    ensures FolderPath(WithLevel(level, path, x), path) && ValidPath(WithLevel(level, path, x), path)
    ensures PathNames(WithLevel(level, path, x), path) == PathNames(level, path)
    decreases path
  {
    FolderPathValid(level, path);
    if path != [] {
      WithLevelPathKept(level[path[0]].tags, path[1..], x);
    }
    FolderPathValid(WithLevel(level, path, x), path);
  }

  /** build_folder_structure never creates a second Folder of a name at one level. */
  lemma StructureKeepsUniqueFolders(forest: seq<Node>, prefix: string, chunk: seq<Item>, templates: Templates)
    requires UniqueFolders(forest)
    ensures UniqueFolders(StructureAfter(forest, prefix, chunk, templates).0)
  {
    var names := FolderNames(Split(prefix, '.'));
    var res := Resolve(forest, names);
    var instances := Unique(InstanceNames(chunk));
    var built := BuildInstances(instances, chunk, templates);
    ResolveKeepsUniqueFolders(forest, names);
    BuiltInstancesNamed(instances, chunk, templates);
    AppendAtKeepsUniqueFolders(res.0, res.1, built.nodes);
  }

  /** Appending nodes that are not folders at the end of a folder path keeps folder names unique. */
  lemma AppendAtKeepsUniqueFolders(t: seq<Node>, path: seq<nat>, nodes: seq<Node>)
    requires UniqueFolders(t) && FolderPath(t, path)
    requires forall k :: 0 <= k < |nodes| ==> !IsFolder(nodes[k])
    ensures ValidPath(t, path) && UniqueFolders(WithLevel(t, path, LevelAt(t, path) + nodes))
  {
    UniqueFoldersAt(t, path);
    AppendInstancesKeepsUniqueFolders(LevelAt(t, path), nodes);
    UniqueFoldersWithLevel(t, path, LevelAt(t, path) + nodes);
  }

  /**
   * What remains of the walk once it has reached the path: the final tree
   * and the full path that Resolve of the whole prefix gives.
   */
  function Pending(t: seq<Node>, path: seq<nat>, rest: seq<string>): (seq<Node>, seq<nat>)
    requires ValidPath(t, path)
  {
    var r := Resolve(LevelAt(t, path), rest);
    (WithLevel(t, path, r.0), path + r.1)
  }

  lemma PendingStart(t: seq<Node>, names: seq<string>)
    ensures Pending(t, [], names) == Resolve(t, names)
  {
    assert [] + Resolve(t, names).1 == Resolve(t, names).1;
  }

  lemma PendingDone(t: seq<Node>, path: seq<nat>)
    requires ValidPath(t, path)
    ensures Pending(t, path, []) == (t, path)
  {
    WithLevelSelf(t, path);
    assert path + [] == path;
  }

  /** After x replaces the level at the path, child i of x is reached by one more index. */
  lemma DescendPath(t: seq<Node>, path: seq<nat>, x: seq<Node>, i: nat)
    requires ValidPath(t, path) && i < |x|
    ensures ValidPath(WithLevel(t, path, x), path + [i]) && LevelAt(WithLevel(t, path, x), path + [i]) == x[i].tags
  {
    WithLevelGet(t, path, x);
    LevelAtExtend(WithLevel(t, path, x), path, i);
  }

  /**
   * Descending into child i of x, where x replaces the level at the path and
   * the walk of the rest from the level is the walk from that child.
   */
  lemma PendingDescend(t: seq<Node>, path: seq<nat>, rest: seq<string>, x: seq<Node>, i: nat)
    requires ValidPath(t, path) && rest != [] && i < |x|
    requires var sub := Resolve(x[i].tags, rest[1..]);
      Resolve(LevelAt(t, path), rest) == (x[i := x[i].(tags := sub.0)], [i] + sub.1)
    ensures ValidPath(WithLevel(t, path, x), path + [i])
    ensures Pending(t, path, rest) == Pending(WithLevel(t, path, x), path + [i], rest[1..])
  {
    var t2 := WithLevel(t, path, x);
    var sub := Resolve(x[i].tags, rest[1..]);
    DescendPath(t, path, x, i);
    var p2 := path + [i];
    assert LevelAt(t2, p2) == x[i].tags;
    WithLevelCompose(t, path, x, i, sub.0);
    ConcatAssoc(path, [i], sub.1);
  }


  /** One iteration of build_folder_hierarchy that appends a new folder and descends into it. */
  lemma PendingStepNew(t: seq<Node>, path: seq<nat>, rest: seq<string>)
    requires ValidPath(t, path) && rest != []
    requires FindFolder(LevelAt(t, path), rest[0]) == |LevelAt(t, path)|
    ensures var level := LevelAt(t, path);
      var t2 := WithLevel(t, path, level + [NewFolder(rest[0])]);
      ValidPath(t2, path + [|level|]) && Pending(t, path, rest) == Pending(t2, path + [|level|], rest[1..])
  {
    var level := LevelAt(t, path);
    var x := level + [NewFolder(rest[0])];
    var sub := Resolve([], rest[1..]);
    assert x[|level| := x[|level|].(tags := sub.0)] == level + [NewFolder(rest[0]).(tags := sub.0)];
    PendingDescend(t, path, rest, x, |level|);
  }

  /** One iteration of build_folder_hierarchy that descends into an existing folder. */
  lemma PendingStepFound(t: seq<Node>, path: seq<nat>, rest: seq<string>)
    requires ValidPath(t, path) && rest != []
    requires FindFolder(LevelAt(t, path), rest[0]) < |LevelAt(t, path)|
    ensures var i := FindFolder(LevelAt(t, path), rest[0]);
      ValidPath(t, path + [i]) && Pending(t, path, rest) == Pending(t, path + [i], rest[1..])
  {
    var level := LevelAt(t, path);
    WithLevelSelf(t, path);
    PendingDescend(t, path, rest, level, FindFolder(level, rest[0]));
  }

  /** The tree after one iteration of build_folder_hierarchy: unchanged, or with the new folder appended. */
  function AfterStep(t: seq<Node>, path: seq<nat>, name: string): seq<Node>
    requires ValidPath(t, path)
  {
    var level := LevelAt(t, path);
    if FindFolder(level, name) == |level| then WithLevel(t, path, level + [NewFolder(name)]) else t
  }

  /** One iteration of build_folder_hierarchy keeps the outcome of the whole walk. */
  lemma HierarchyStep(t: seq<Node>, path: seq<nat>, rest: seq<string>)
    requires ValidPath(t, path) && rest != []
    ensures var i := FindFolder(LevelAt(t, path), rest[0]);
      ValidPath(AfterStep(t, path, rest[0]), path + [i])
      && Pending(t, path, rest) == Pending(AfterStep(t, path, rest[0]), path + [i], rest[1..])
  {
    if FindFolder(LevelAt(t, path), rest[0]) == |LevelAt(t, path)| {
      PendingStepNew(t, path, rest);
    } else {
      PendingStepFound(t, path, rest);
    }
  }

  /** HierarchyStep for the k-th of the names. */
  lemma HierarchyStepAt(t: seq<Node>, path: seq<nat>, names: seq<string>, k: nat)
    requires ValidPath(t, path) && k < |names|
    ensures var i := FindFolder(LevelAt(t, path), names[k]);
      ValidPath(AfterStep(t, path, names[k]), path + [i])
      && Pending(t, path, names[k..]) == Pending(AfterStep(t, path, names[k]), path + [i], names[k + 1..])
  {
    assert names[k..][0] == names[k] && names[k..][1..] == names[k + 1..];
    HierarchyStep(t, path, names[k..]);
  }

  lemma PendingEnd(t: seq<Node>, path: seq<nat>, names: seq<string>)
    requires ValidPath(t, path)
    ensures Pending(t, path, names[|names|..]) == (t, path)
  {
    assert names[|names|..] == [];
    PendingDone(t, path);
  }

  /** Appending one node to the level at the path, on top of an earlier replacement there. */
  lemma AppendAt(t: seq<Node>, path: seq<nat>, xs: seq<Node>, n: Node)
    requires ValidPath(t, path)
    ensures ValidPath(WithLevel(t, path, xs), path)
    ensures WithLevel(WithLevel(t, path, xs), path, LevelAt(WithLevel(t, path, xs), path) + [n]) == WithLevel(t, path, xs + [n])
  {
    WithLevelGet(t, path, xs);
    WithLevelTwice(t, path, xs, xs + [n]);
  }

  /** The instances already built followed by what the rest of the names give. */
  function Joined(built: seq<Node>, rest: Built): Built
  {
    Built(built + rest.nodes, rest.missing)
  }

  /** One iteration of the instance loop. */
  lemma BuildStep(names: seq<string>, k: nat, chunk: seq<Item>, templates: Templates, built: seq<Node>)
    requires k < |names|
    ensures var inst := ProcessInstance(names[k], ItemsNamed(chunk, names[k]), templates);
      && (inst.Err? ==> Joined(built, BuildInstances(names[k..], chunk, templates)) == Built(built, Some(inst.error)))
      && (inst.Ok? ==> Joined(built, BuildInstances(names[k..], chunk, templates))
                         == Joined(built + [inst.value], BuildInstances(names[k + 1..], chunk, templates)))
  {
    var f := InstanceStep(chunk, templates);
    assert names[k..][0] == names[k] && names[k..][1..] == names[k + 1..];
    CollectPrefixCons(names[k..], f);
    var inst := f(names[k]);
    if inst.Err? {
      assert built + [] == built;
    } else {
      ConcatAssoc(built, [inst.value], CollectPrefix(names[k + 1..], f).0);
    }
  }

  lemma BuildStart(names: seq<string>, chunk: seq<Item>, templates: Templates)
    ensures Joined([], BuildInstances(names[0..], chunk, templates)) == BuildInstances(names, chunk, templates)
  {
    assert names[0..] == names;
  }

  lemma BuildEnd(names: seq<string>, chunk: seq<Item>, templates: Templates, built: seq<Node>)
    ensures Joined(built, BuildInstances(names[|names|..], chunk, templates)) == Built(built, None)
  {
    assert names[|names|..] == [];
    assert built + [] == built;
  }

  /** The shared folder list that build_folder_structure fills in place. */
  class FolderTree {
    var tags: seq<Node>

    /** folder_structure = [] */
    constructor ()
      ensures tags == []
    {
      tags := [];
    }

    /**
     * One component of build_folder_hierarchy: the index of the first
     * Folder of that name in the list at the path, appending an empty one
     * when there is none.
     */
    method EnterFolder(path: seq<nat>, name: string) returns (i: nat)
      requires ValidPath(tags, path)
      modifies this
      ensures i == FindFolder(LevelAt(old(tags), path), name)
      ensures tags == AfterStep(old(tags), path, name)
    {
      var level := LevelAt(tags, path);
      i := FindFolder(level, name);
      if i == |level| {
        tags := WithLevel(tags, path, level + [NewFolder(name)]);
      }
    }

    /**
     * build_folder_hierarchy: walks the components of prefix.split('.'),
     * appending the folders it does not find, and returns the path to the
     * last folder's child list.
     */
    method BuildFolderHierarchy(prefix: string) returns (path: seq<nat>)
      modifies this
      ensures (tags, path) == Resolve(old(tags), FolderNames(Split(prefix, '.')))
    {
      var comps := Split(prefix, '.');
      ghost var names := FolderNames(comps);
      ghost var start := tags;
      path := [];
      var k := 0;
      PendingStart(tags, names);
      assert names[k..] == names;
      while k < |comps|
        invariant 0 <= k <= |comps|
        invariant ValidPath(tags, path)
        invariant Resolve(start, names) == Pending(tags, path, names[k..])
      {
        var name := ConvertBrackets(comps[k]);
        HierarchyStepAt(tags, path, names, k);
        var i := EnterFolder(path, name);
        path := path + [i];
        k := k + 1;
      }
      PendingEnd(tags, path, names);
    }

    /**
     * build_folder_structure: resolves the prefix's folder, then appends
     * one UdtInstance per distinct instance name of the chunk, in order of
     * first appearance, stopping at the first missing template.
     */
    method BuildFolderStructure(prefix: string, chunk: seq<Item>, templates: Templates) returns (missing: Option<string>)
      modifies this
      ensures (tags, missing) == StructureAfter(old(tags), prefix, chunk, templates)
      ensures Grows(old(tags), tags)
      ensures UniqueFolders(old(tags)) ==> UniqueFolders(tags)
    {
      ghost var start := tags;
      var path := BuildFolderHierarchy(prefix);
      FolderPathValid(tags, path);
      ghost var resolved := tags;
      ghost var level0 := LevelAt(tags, path);
      var names := Unique(InstanceNames(chunk));
      ghost var built: seq<Node> := [];
      missing := None;
      WithLevelSelf(resolved, path);
      assert level0 + built == level0;
      BuildStart(names, chunk, templates);
      var k := 0;
      while k < |names|
        invariant 0 <= k <= |names|
        invariant ValidPath(resolved, path)
        invariant tags == WithLevel(resolved, path, level0 + built)
        invariant BuildInstances(names, chunk, templates) == Joined(built, BuildInstances(names[k..], chunk, templates))
      {
        var inst := ProcessInstance(names[k], ItemsNamed(chunk, names[k]), templates);
        BuildStep(names, k, chunk, templates, built);
        if inst.Err? {
          missing := Some(inst.error);
          StructureAfterIs(start, prefix, chunk, templates, resolved, path, Built(built, missing));
          assert (tags, missing) == StructureAfter(start, prefix, chunk, templates);
          StructureEnsures(start, prefix, chunk, templates);
          return;
        }
        AppendAt(resolved, path, level0 + built, inst.value);
        ConcatAssoc(level0, built, [inst.value]);
        tags := WithLevel(tags, path, LevelAt(tags, path) + [inst.value]);
        built := built + [inst.value];
        k := k + 1;
      }
      BuildEnd(names, chunk, templates, built);
      StructureAfterIs(start, prefix, chunk, templates, resolved, path, Built(built, None));
      assert (tags, missing) == StructureAfter(start, prefix, chunk, templates);
      StructureEnsures(start, prefix, chunk, templates);
    }
  }

  /** StructureAfter in terms of the walk's result and the instances built. */
  lemma StructureAfterIs(forest: seq<Node>, prefix: string, chunk: seq<Item>, templates: Templates,
                         resolved: seq<Node>, path: seq<nat>, b: Built)
    requires Resolve(forest, FolderNames(Split(prefix, '.'))) == (resolved, path)
    requires BuildInstances(Unique(InstanceNames(chunk)), chunk, templates) == b
    ensures ValidPath(resolved, path)
    ensures StructureAfter(forest, prefix, chunk, templates) == (WithLevel(resolved, path, LevelAt(resolved, path) + b.nodes), b.missing)
  {
  }

  /** The two properties build_folder_structure promises about the tree as a whole. */
  lemma StructureEnsures(forest: seq<Node>, prefix: string, chunk: seq<Item>, templates: Templates)
    ensures Grows(forest, StructureAfter(forest, prefix, chunk, templates).0)
    ensures UniqueFolders(forest) ==> UniqueFolders(StructureAfter(forest, prefix, chunk, templates).0)
  {
    StructureGrows(forest, prefix, chunk, templates);
    if UniqueFolders(forest) {
      StructureKeepsUniqueFolders(forest, prefix, chunk, templates);
    }
  }
}
