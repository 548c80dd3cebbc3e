/**
 * The JSON tag tree that the folder builder grows: nodes with a name, a
 * tagType, an optional typeId and value, and an ordered list of child
 * tags.  A position in the tree is an index path; the Python code holds
 * the same position as a reference to a nested list.
 */
module Forest {
  import opened Wrappers

  /** One JSON tag object; the keys other than these five are not modelled. */
  datatype Node = Node(name: string, tagType: string, typeId: Option<string>, value: Option<string>, tags: seq<Node>)

  const FolderType: string := "Folder"

  predicate IsFolder(n: Node)
  {
    n.tagType == FolderType
  }

  /** {"name": name, "tagType": "Folder", "tags": []} */
  function NewFolder(name: string): (n: Node)
    ensures IsFolder(n) && n.name == name && n.tags == []
  {
    Node(name, FolderType, None, None, [])
  }

  /** The path leads from the level through existing nodes. */
  predicate ValidPath(level: seq<Node>, path: seq<nat>)
    decreases path
  {
    path == [] || (path[0] < |level| && ValidPath(level[path[0]].tags, path[1..]))
  }

  /** The child list reached by following the path: what `current_level` refers to. */
  function LevelAt(level: seq<Node>, path: seq<nat>): seq<Node>
    requires ValidPath(level, path)
    decreases path
  {
    if path == [] then level else LevelAt(level[path[0]].tags, path[1..])
  }

  /** The tree with the child list at the path replaced by x and every other node as it was. */
  function WithLevel(level: seq<Node>, path: seq<nat>, x: seq<Node>): (r: seq<Node>)
    requires ValidPath(level, path)
    decreases path
    ensures path != [] ==> |r| == |level|
  {
    if path == [] then x
    else level[path[0] := level[path[0]].(tags := WithLevel(level[path[0]].tags, path[1..], x))]
  }

  /** Extending a path by one more index into the level it reaches. */
  lemma {:induction false} LevelAtExtend(level: seq<Node>, path: seq<nat>, j: nat)
    requires ValidPath(level, path) && j < |LevelAt(level, path)|
    ensures ValidPath(level, path + [j]) && LevelAt(level, path + [j]) == LevelAt(level, path)[j].tags
    decreases path
  {
    if path != [] {
      assert (path + [j])[1..] == path[1..] + [j];
      LevelAtExtend(level[path[0]].tags, path[1..], j);
    }
  }

  /** Putting back what is there changes nothing. */
  lemma {:induction false} WithLevelSelf(level: seq<Node>, path: seq<nat>)
    requires ValidPath(level, path)
    ensures WithLevel(level, path, LevelAt(level, path)) == level
    decreases path
  {
    if path != [] {
      WithLevelSelf(level[path[0]].tags, path[1..]);
    }
  }

  /** What was put at the path is found there again. */
  lemma {:induction false} WithLevelGet(level: seq<Node>, path: seq<nat>, x: seq<Node>)
    requires ValidPath(level, path)
    ensures ValidPath(WithLevel(level, path, x), path) && LevelAt(WithLevel(level, path, x), path) == x
    decreases path
  {
    if path != [] {
      WithLevelGet(level[path[0]].tags, path[1..], x);
    }
  }

  /** Of two replacements at the same path only the second one counts. */
  lemma {:induction false} WithLevelTwice(level: seq<Node>, path: seq<nat>, x: seq<Node>, y: seq<Node>)
    requires ValidPath(level, path)
    ensures ValidPath(WithLevel(level, path, x), path)
    ensures WithLevel(WithLevel(level, path, x), path, y) == WithLevel(level, path, y)
    decreases path
  {
    WithLevelGet(level, path, x);
    if path != [] {
      WithLevelTwice(level[path[0]].tags, path[1..], x, y);
    }
  }

  /** Two replacements, the second one level deeper, are one replacement. */
  lemma {:induction false} WithLevelCompose(level: seq<Node>, path: seq<nat>, x: seq<Node>, j: nat, y: seq<Node>)
    requires ValidPath(level, path) && j < |x|
    ensures ValidPath(WithLevel(level, path, x), path + [j])
    ensures WithLevel(WithLevel(level, path, x), path + [j], y) == WithLevel(level, path, x[j := x[j].(tags := y)])
    decreases path
  {
    if path == [] {
      assert path + [j] == [j];
    } else {
      assert (path + [j])[1..] == path[1..] + [j];
      WithLevelCompose(level[path[0]].tags, path[1..], x, j, y);
    }
  }

  /** Every node the path passes through is a Folder. */
  predicate FolderPath(level: seq<Node>, path: seq<nat>)
    decreases path
  {
    path == [] || (path[0] < |level| && IsFolder(level[path[0]]) && FolderPath(level[path[0]].tags, path[1..]))
  }

  lemma {:induction false} FolderPathValid(level: seq<Node>, path: seq<nat>)
    requires FolderPath(level, path)
    ensures ValidPath(level, path)
    decreases path
  {
    if path != [] {
      FolderPathValid(level[path[0]].tags, path[1..]);
    }
  }

  /** The names of the nodes the path passes through. */
  function PathNames(level: seq<Node>, path: seq<nat>): (names: seq<string>)
    requires ValidPath(level, path)
    decreases path
    ensures |names| == |path|
  {
    if path == [] then [] else [level[path[0]].name] + PathNames(level[path[0]].tags, path[1..])
  }

  /** The fields of a node other than its children. */
  predicate SameHead(a: Node, b: Node)
  {
    a.name == b.name && a.tagType == b.tagType && a.typeId == b.typeId && a.value == b.value
  }

  /**
   * b is a grown from a: at every level the nodes of a are still there, in
   * the same places with the same fields, and new nodes only come after them.
   */
  predicate Grows(a: seq<Node>, b: seq<Node>)
    decreases a
  {
    |a| <= |b| && forall i :: 0 <= i < |a| ==> SameHead(a[i], b[i]) && Grows(a[i].tags, b[i].tags)
  }

  lemma {:induction false} GrowsRefl(a: seq<Node>)
    ensures Grows(a, a)
    decreases a
  {
    forall i | 0 <= i < |a| ensures Grows(a[i].tags, a[i].tags) {
      GrowsRefl(a[i].tags);
    }
  }

  lemma {:induction false} GrowsTrans(a: seq<Node>, b: seq<Node>, c: seq<Node>)
    requires Grows(a, b) && Grows(b, c)
    ensures Grows(a, c)
    decreases a
  {
    forall i | 0 <= i < |a| ensures Grows(a[i].tags, c[i].tags) {
      GrowsTrans(a[i].tags, b[i].tags, c[i].tags);
    }
  }

  /** Growing the level at a path grows the whole tree. */
  lemma {:induction false} GrowsWithLevel(level: seq<Node>, path: seq<nat>, x: seq<Node>)
    requires ValidPath(level, path) && Grows(LevelAt(level, path), x)
    ensures Grows(level, WithLevel(level, path, x))
    decreases path
  {
    if path != [] {
      var p := path[0];
      GrowsWithLevel(level[p].tags, path[1..], x);
      var r := WithLevel(level, path, x);
      forall i | 0 <= i < |level| ensures SameHead(level[i], r[i]) && Grows(level[i].tags, r[i].tags) {
        if i != p { GrowsRefl(level[i].tags); }
      }
    }
  }

  /**
   * Within every child list that is reached through folders only, no two
   * Folder nodes share a name: folders are merged, never duplicated.
   */
  predicate UniqueFolders(level: seq<Node>)
    decreases level
  {
    && (forall i, j :: 0 <= i < j < |level| && IsFolder(level[i]) && IsFolder(level[j]) ==> level[i].name != level[j].name)
    && (forall i :: 0 <= i < |level| && IsFolder(level[i]) ==> UniqueFolders(level[i].tags))
  }

  lemma {:induction false} UniqueFoldersAt(level: seq<Node>, path: seq<nat>)
    requires UniqueFolders(level) && FolderPath(level, path)
    ensures ValidPath(level, path) && UniqueFolders(LevelAt(level, path))
    decreases path
  {
    FolderPathValid(level, path);
    if path != [] {
      UniqueFoldersAt(level[path[0]].tags, path[1..]);
    }
  }

  /** Replacing a level reached through folders by a level without duplicate folders keeps the invariant. */
  lemma {:induction false} UniqueFoldersWithLevel(level: seq<Node>, path: seq<nat>, x: seq<Node>)
    requires UniqueFolders(level) && FolderPath(level, path) && UniqueFolders(x)
    ensures ValidPath(level, path) && UniqueFolders(WithLevel(level, path, x))
    decreases path
  {
    FolderPathValid(level, path);
    if path != [] {
      UniqueFoldersWithLevel(level[path[0]].tags, path[1..], x);
    }
  }
}
