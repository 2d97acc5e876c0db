/**
 * Folders as the storage API lists them, the rule for which of them are
 * roots, and `ContainerStorageCLI._build_folder_hierarchy`, which turns the
 * flat list of accessible folders into a forest.
 */
module Folders {
  import opened Wrappers
  import opened Seqs

  type FolderId = int

  /** A folder record: its id, its name and the id of its parent, if any. */
  datatype Folder = Folder(id: FolderId, name: string, parentId: Option<FolderId>)

  /** One node of the hierarchy: a folder and the subtrees of its children. */
  datatype Node = Node(folder: Folder, children: seq<Node>)

  /** The ids of a folder list: the keys of `folder_map`. */
  function Ids(folders: seq<Folder>): set<FolderId>
  {
    set i | 0 <= i < |folders| :: folders[i].id
  }

  /** No two listed folders share an id, as the server's folder ids are keys. */
  predicate UniqueIds(folders: seq<Folder>)
  {
    forall i, j :: 0 <= i < |folders| && 0 <= j < |folders| && folders[i].id == folders[j].id ==> i == j
  }

  /** A folder is a root of the accessible list when it has no parent or its
      parent is not itself accessible. */
  predicate IsRoot(f: Folder, accessible: seq<Folder>)
  {
    f.parentId.None? || f.parentId.value !in Ids(accessible)
  }

  /** The root folders, in input order. */
  function Roots(folders: seq<Folder>): seq<Folder>
  {
    Filter(folders, (f: Folder) => IsRoot(f, folders))
  }

  /** `[f for f in folders if f.get('parent_id') == id]`. */
  function ChildrenOf(folders: seq<Folder>, id: FolderId): seq<Folder>
  {
    Filter(folders, (f: Folder) => f.parentId == Some(id))
  }

  /** The folders at the top of a forest, in order. */
  function Tops(forest: seq<Node>): (tops: seq<Folder>)
    ensures |tops| == |forest|
    ensures forall i :: 0 <= i < |forest| ==> tops[i] == forest[i].folder
    decreases |forest|
  {
    if forest == [] then [] else [forest[0].folder] + Tops(forest[1..])
  }

  // ---- termination of build_tree: the chain of ancestors of the level being built ----

  /** No two folders of a sequence share an id. */
  predicate DistinctIds(path: seq<Folder>)
  {
    forall i, j :: 0 <= i < j < |path| ==> path[i].id != path[j].id
  }

  /** `path` is a chain of accessible folders starting at a root, each the
      child of the one before it. */
  ghost predicate AncestorChain(all: seq<Folder>, path: seq<Folder>)
  {
    && (forall i :: 0 <= i < |path| ==> path[i] in all)
    && (path != [] ==> IsRoot(path[0], all))
    && (forall i :: 0 < i < |path| ==> path[i].parentId == Some(path[i - 1].id))
    && DistinctIds(path)
  }

  /** `f` may stand at the level below `path`. */
  ghost predicate BelongsBelow(all: seq<Folder>, path: seq<Folder>, f: Folder)
  {
    if path == [] then IsRoot(f, all) else f.parentId == Some(path[|path| - 1].id)
  }

  /** The ids of a list are those of all but its last folder, and the last one's. */
  lemma {:induction false} IdsSnoc(s: seq<Folder>)
    requires s != []
    ensures Ids(s) == Ids(s[..|s| - 1]) + {s[|s| - 1].id}
  {
    var init := s[..|s| - 1];
    forall x ensures x in Ids(s) <==> x in Ids(init) + {s[|s| - 1].id} {
      if x in Ids(s) {
        var i :| 0 <= i < |s| && s[i].id == x;
        if i < |s| - 1 { assert init[i] == s[i]; }
      }
      if x in Ids(init) {
        var i :| 0 <= i < |init| && init[i].id == x;
        assert s[i] == init[i];
      }
    }
  }

  /** A list has at most as many ids as folders, and exactly as many when
      no two share one. */
  lemma {:induction false} IdsBound(s: seq<Folder>)
    ensures |Ids(s)| <= |s|
    ensures DistinctIds(s) ==> |Ids(s)| == |s|
    decreases |s|
  {
    if s != [] {
      var init := s[..|s| - 1];
      IdsBound(init);
      IdsSnoc(s);
      if DistinctIds(s) {
        assert DistinctIds(init);
        assert s[|s| - 1].id !in Ids(init);
      }
    }
  }

  /** Every folder of `level` is accessible and may stand below `path`. */
  ghost predicate LevelBelow(all: seq<Folder>, path: seq<Folder>, level: seq<Folder>)
  {
    forall i :: 0 <= i < |level| ==> level[i] in all && BelongsBelow(all, path, level[i])
  }

  /** Extending the chain by a folder of the next level keeps it a chain, and
      a chain is never longer than the list it is drawn from. */
  lemma {:induction false} ExtendChain(all: seq<Folder>, path: seq<Folder>, f: Folder)
    requires UniqueIds(all)
    requires AncestorChain(all, path)
    requires f in all && BelongsBelow(all, path, f)
    ensures AncestorChain(all, path + [f])
    ensures |path + [f]| <= |all|
  {
    var p := path + [f];
    if path != [] {
      var last := path[|path| - 1];
      assert last in all;
      var c :| 0 <= c < |all| && all[c] == last;
      assert f.parentId.value in Ids(all);
      assert !IsRoot(f, all);
    }
    forall k | 0 <= k < |path| ensures path[k] != f {
      if k > 0 {
        assert path[k - 1].id != path[|path| - 1].id;
      }
    }
    forall k | 0 <= k < |path| ensures path[k].id != f.id {
      var a :| 0 <= a < |all| && all[a] == path[k];
      var b :| 0 <= b < |all| && all[b] == f;
      assert a != b;
    }
    assert DistinctIds(p);
    ChainShorter(all, p);
  }

  /** Folders with distinct ids, all drawn from a list, are no more than the
      list's length. */
  lemma {:induction false} ChainShorter(all: seq<Folder>, p: seq<Folder>)
    requires DistinctIds(p)
    requires forall i :: 0 <= i < |p| ==> p[i] in all
    ensures |p| <= |all|
  {
    IdsBound(p);
    IdsBound(all);
    assert Ids(p) <= Ids(all) by {
      forall x | x in Ids(p) ensures x in Ids(all) {
        var i :| 0 <= i < |p| && p[i].id == x;
        assert p[i] in all;
        var j :| 0 <= j < |all| && all[j] == p[i];
      }
    }
    SubsetCard(Ids(p), Ids(all));
  }

  /** The nested `build_tree`: one node per folder of `level`, in order, each
      with the subtree of the folders that point at it. */
  function BuildTree(all: seq<Folder>, level: seq<Folder>, ghost path: seq<Folder>): (forest: seq<Node>)
    requires UniqueIds(all)
    requires AncestorChain(all, path)
    requires LevelBelow(all, path, level)
    ensures Tops(forest) == level
    decreases |all| - |path|, |level|
  {
    if level == [] then []
    else
      var f := level[0];
      NextLevels(all, level, path);
      var rest := BuildTree(all, level[1..], path);
      TopsCons(Node(f, BuildTree(all, ChildrenOf(all, f.id), path + [f])), rest);
      assert [f] + level[1..] == level;
      [Node(f, BuildTree(all, ChildrenOf(all, f.id), path + [f]))] + rest
  }

  lemma {:induction false} TopsCons(n: Node, rest: seq<Node>)
    ensures Tops([n] + rest) == [n.folder] + Tops(rest)
  {
    assert ([n] + rest)[1..] == rest;
  }

  /** The two recursive calls of `build_tree` are on proper levels: the
      children of the first folder, one step down the chain, and the rest
      of the level. */
  lemma {:induction false} NextLevels(all: seq<Folder>, level: seq<Folder>, path: seq<Folder>)
    requires UniqueIds(all)
    requires AncestorChain(all, path)
    requires level != []
    requires LevelBelow(all, path, level)
    ensures AncestorChain(all, path + [level[0]]) && |path + [level[0]]| <= |all|
    ensures LevelBelow(all, path + [level[0]], ChildrenOf(all, level[0].id))
    ensures LevelBelow(all, path, level[1..])
  {
    var f := level[0];
    ExtendChain(all, path, f);
    var kids := ChildrenOf(all, f.id);
    forall i | 0 <= i < |kids|
      ensures kids[i] in all && BelongsBelow(all, path + [f], kids[i])
    {
      assert kids[i] in kids;
    }
    forall i | 0 <= i < |level[1..]|
      ensures level[1..][i] in all && BelongsBelow(all, path, level[1..][i])
    {
      assert level[1..][i] == level[i + 1];
    }
  }

  /** `_build_folder_hierarchy(folders)`. The source's recursion only ends
      when ids are unique, which they are for a server's folder list. */
  function BuildHierarchy(folders: seq<Folder>): seq<Node>
    requires UniqueIds(folders)
  {
    assert LevelBelow(folders, [], Roots(folders)) by {
      assert forall i :: 0 <= i < |Roots(folders)| ==> Roots(folders)[i] in Roots(folders);
    }
    BuildTree(folders, Roots(folders), [])
  }

  /** Every node of a tree lists as its children exactly the folders whose
      parent is that node's folder, in input order. */
  ghost predicate WellBuilt(all: seq<Folder>, n: Node)
    decreases n
  {
    && Tops(n.children) == ChildrenOf(all, n.folder.id)
    && forall c :: c in n.children ==> WellBuilt(all, c)
  }

  lemma {:induction false} BuildTreeWellBuilt(all: seq<Folder>, level: seq<Folder>, path: seq<Folder>)
    requires UniqueIds(all)
    requires AncestorChain(all, path)
    requires LevelBelow(all, path, level)
    ensures forall n :: n in BuildTree(all, level, path) ==> WellBuilt(all, n)
    decreases |all| - |path|, |level|
  {
    if level != [] {
      var f := level[0];
      NextLevels(all, level, path);
      var kids := ChildrenOf(all, f.id);
      BuildTreeWellBuilt(all, kids, path + [f]);
      BuildTreeWellBuilt(all, level[1..], path);
      var forest := BuildTree(all, level, path);
      assert forest == [Node(f, BuildTree(all, kids, path + [f]))] + BuildTree(all, level[1..], path);
      forall n | n in forest ensures WellBuilt(all, n) {
        if n != forest[0] {
          assert n in BuildTree(all, level[1..], path);
        }
      }
    }
  }

  /** The hierarchy's top level is exactly the root folders, in input order,
      and every node's children are exactly the folders that point at it, in
      input order. */
  lemma {:induction false} HierarchyShape(folders: seq<Folder>)
    requires UniqueIds(folders)
    ensures Tops(BuildHierarchy(folders)) == Roots(folders)
    ensures forall f :: f in Roots(folders) <==> f in folders && IsRoot(f, folders)
    ensures Subsequence(Roots(folders), folders)
    ensures forall n :: n in BuildHierarchy(folders) ==> WellBuilt(folders, n)
  {
    assert LevelBelow(folders, [], Roots(folders)) by {
      assert forall i :: 0 <= i < |Roots(folders)| ==> Roots(folders)[i] in Roots(folders);
    }
    BuildTreeWellBuilt(folders, Roots(folders), []);
  }

  /** A node's children, as the hierarchy records them, are the folders whose
      `parent_id` is that node's id, and they keep the input order. */
  lemma {:induction false} ChildrenExactly(folders: seq<Folder>, n: Node)
    requires WellBuilt(folders, n)
    ensures forall f :: f in Tops(n.children) <==> f in folders && f.parentId == Some(n.folder.id)
    ensures Subsequence(Tops(n.children), folders)
  {
  }
}
