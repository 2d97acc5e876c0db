/**
 * `resolve_folder_path` and `resolve_file_path`: a slash path names a root
 * folder of the accessible list and then one subfolder per component.
 */
module Resolve {
  import opened Wrappers
  import opened Seqs
  import opened Paths
  import opened Folders
  import opened RemoteStore

  /** `path.strip('/').split('/')`. */
  function PathParts(path: string): (parts: seq<string>)
    ensures |parts| >= 1
    ensures forall i :: 0 <= i < |parts| ==> '/' !in parts[i]
  {
    Split(Strip(path, {'/'}), '/')
  }

  /** The first accessible folder with this name that is a root (no parent,
      or a parent that is not accessible), searched from `i` on. */
  function FirstRootFrom(accessible: seq<Folder>, i: nat, name: string): (r: Option<Folder>)
    requires i <= |accessible|
    ensures r.Some? ==> r.value in accessible && r.value.name == name && IsRoot(r.value, accessible)
    ensures r.Some? ==> exists k :: i <= k < |accessible| && accessible[k] == r.value && forall j :: i <= j < k ==> !(accessible[j].name == name && IsRoot(accessible[j], accessible))
    ensures r.None? <==>
      forall j :: i <= j < |accessible| ==> !(accessible[j].name == name && IsRoot(accessible[j], accessible))
    decreases |accessible| - i
  {
    if i == |accessible| then None
    else if accessible[i].name == name && IsRoot(accessible[i], accessible) then Some(accessible[i])
    else FirstRootFrom(accessible, i + 1, name)
  }

  /** The root folder a path starts from. */
  function FirstRootNamed(accessible: seq<Folder>, name: string): Option<Folder>
  {
    FirstRootFrom(accessible, 0, name)
  }

  /** The root search loop of both resolvers. */
  method FindRootFolder(accessible: seq<Folder>, name: string) returns (root: Option<Folder>)
    ensures root == FirstRootNamed(accessible, name)
  {
    var i := 0;
    while i < |accessible|
      invariant 0 <= i <= |accessible|
      invariant FirstRootFrom(accessible, i, name) == FirstRootNamed(accessible, name)
    {
      var folder := accessible[i];
      if folder.name == name {
        if folder.parentId.None? {
          return Some(folder);
        } else {
          var parentExists := folder.parentId.value in Ids(accessible);
          if !parentExists {
            return Some(folder);
          }
        }
      }
      i := i + 1;
    }
    return None;
  }

  /** What `resolve_folder_path(path, create_missing)` answers, and the server
      after any folders it created. */
  function ResolveFolder(accessible: seq<Folder>, s: Store, path: string, create: bool): (Option<FolderId>, Store)
    requires Fresh(s)
  {
    if path == "" then (None, s)
    else
      var parts := PathParts(path);
      match FirstRootNamed(accessible, parts[0])
      case None => (None, s)
      case Some(root) =>
        if |parts| == 1 then (Some(root.id), s)
        else WalkCreate(s, root.id, parts[1..], create)
  }

  /** One component of the descent of `resolve_folder_path`: the matching
      subfolder, or a new one when `create` is set. */
  method DescendOne(s: Store, from: FolderId, name: string, create: bool)
    returns (r: Option<FolderId>, s': Store)
    requires Fresh(s)
    ensures (r, s') == WalkCreate(s, from, [name], create)
  {
    assert [name][1..] == [];
    if from !in s.subfolders {
      return None, s;
    }
    var target := FindNamed(s.subfolders[from], name);
    if target.Some? {
      return Some(target.value.id), s;
    }
    if !create {
      return None, s;
    }
    var made := CreateFolder(s, name, from);
    if made.0.None? {
      return None, made.1;
    }
    return Some(made.0.value.id), made.1;
  }

  /** The descent loop of `resolve_folder_path`, one component at a time,
      creating a missing folder when `create` is set. */
  method DescendCreating(s: Store, from: FolderId, names: seq<string>, create: bool)
    returns (r: Option<FolderId>, s': Store)
    requires Fresh(s)
    ensures (r, s') == WalkCreate(s, from, names, create)
  {
    var current := from;
    s' := s;
    var i := 0;
    ghost var goal := WalkCreate(s, from, names, create);
    while i < |names|
      invariant 0 <= i <= |names|
      invariant Fresh(s')
      invariant WalkCreate(s', current, names[i..], create) == goal
    {
      WalkCreateAt(s', current, names, i, create);
      var next, t := DescendOne(s', current, names[i], create);
      if next.None? {
        return None, t;
      }
      s', current := t, next.value;
      i := i + 1;
    }
    r := Some(current);
  }

  /** `resolve_folder_path`: the root by name, then the descent below it. */
  method ResolveFolderPath(accessible: seq<Folder>, s: Store, path: string, create: bool)
    returns (r: Option<FolderId>, s': Store)
    requires Fresh(s)
    ensures (r, s') == ResolveFolder(accessible, s, path, create)
  {
    if path == "" {
      return None, s;
    }
    var parts := PathParts(path);
    var root := FindRootFolder(accessible, parts[0]);
    if root.None? {
      return None, s;
    }
    if |parts| == 1 {
      return Some(root.value.id), s;
    }
    r, s' := DescendCreating(s, root.value.id, parts[1..], create);
  }

  /** The first file of a listing with this name. */
  function FirstFileNamed(list: seq<RemoteFile>, name: string): (r: Option<RemoteFile>)
    ensures r.Some? ==> r.value in list && r.value.name == name
    ensures r.Some? ==> exists k :: 0 <= k < |list| && list[k] == r.value && forall j :: 0 <= j < k ==> list[j].name != name
    ensures r.None? <==> forall i :: 0 <= i < |list| ==> list[i].name != name
  {
    FirstWhere(list, (f: RemoteFile) => f.name == name)
  }

  /** The descent loop of `resolve_file_path`: one name-matched subfolder
      per name, without creating anything. */
  method Descend(s: Store, from: FolderId, names: seq<string>) returns (r: Option<FolderId>)
    ensures r == Walk(s, from, names)
  {
    var current := from;
    var i := 0;
    while i < |names|
      invariant 0 <= i <= |names|
      invariant Walk(s, from, names) == Walk(s, current, names[i..])
    {
      assert names[i..][1..] == names[i + 1..];
      if current !in s.subfolders {
        return None;
      }
      var target := FindNamed(s.subfolders[current], names[i]);
      if target.None? {
        return None;
      }
      current := target.value.id;
      i := i + 1;
    }
    return Some(current);
  }

  /** The search loop over a folder's files. */
  method FindFileNamed(list: seq<RemoteFile>, name: string) returns (r: Option<RemoteFile>)
    ensures r == FirstFileNamed(list, name)
  {
    var j := 0;
    while j < |list|
      invariant 0 <= j <= |list|
      invariant FirstFileNamed(list, name) == FirstFileNamed(list[j..], name)
    {
      if list[j].name == name {
        return Some(list[j]);
      }
      assert list[j..][1..] == list[j + 1..];
      j := j + 1;
    }
    return None;
  }

  /** What `resolve_file_path(path)` answers: the last component names a file
      in the folder the other components lead to. */
  function ResolveFile(accessible: seq<Folder>, s: Store, path: string): Option<int>
  {
    if path == "" then None
    else
      var parts := PathParts(path);
      match FirstRootNamed(accessible, parts[0])
      case None => None
      case Some(root) =>
        if |parts| == 1 then None
        else match Walk(s, root.id, parts[1..|parts| - 1])
          case None => None
          case Some(dir) =>
            if dir !in s.files then None
            else match FirstFileNamed(s.files[dir], parts[|parts| - 1])
              case None => None
              case Some(f) => Some(f.id)
  }

  /** `resolve_file_path`: descend through the folder components, then search
      the last folder's files. */
  method ResolveFilePath(accessible: seq<Folder>, s: Store, path: string) returns (r: Option<int>)
    ensures r == ResolveFile(accessible, s, path)
  {
    if path == "" {
      return None;
    }
    var parts := PathParts(path);
    var root := FindRootFolder(accessible, parts[0]);
    if root.None? {
      return None;
    }
    if |parts| == 1 {
      return None;
    }
    var dir := Descend(s, root.value.id, parts[1..|parts| - 1]);
    if dir.None? {
      return None;
    }
    var current := dir.value;
    var fileName := parts[|parts| - 1];
    if current !in s.files {
      return None;
    }
    var found := FindFileNamed(s.files[current], fileName);
    if found.None? {
      return None;
    }
    return Some(found.value.id);
  }

  // ---- properties ----

  /** A root found by name is one of the top-level folders of the hierarchy
      `_build_folder_hierarchy` builds: both use the same rule for roots. */
  lemma {:induction false} FoundRootIsHierarchyRoot(accessible: seq<Folder>, name: string)
    requires UniqueIds(accessible)
    requires FirstRootNamed(accessible, name).Some?
    ensures FirstRootNamed(accessible, name).value in Tops(BuildHierarchy(accessible))
  {
    HierarchyShape(accessible);
  }

  /** A folder path resolves, without creating, exactly when its first
      component names an accessible root and every later component names a
      subfolder of the folder before it; the answer is where that walk ends. */
  lemma {:induction false} ResolvedFolderIsWalked(accessible: seq<Folder>, s: Store, path: string)
    requires Fresh(s) && path != ""
    ensures var parts := PathParts(path);
      ResolveFolder(accessible, s, path, false).0 ==
        match FirstRootNamed(accessible, parts[0])
        case None => None
        case Some(root) => Walk(s, root.id, parts[1..])
    ensures ResolveFolder(accessible, s, path, false).1 == s
  {
  }

  /** The root a path names is found only when no earlier accessible folder
      with that name is a root, and it is itself a root with that name. */
  lemma {:induction false} RootRule(accessible: seq<Folder>, name: string, j: nat)
    requires j < |accessible| && accessible[j].name == name
    requires accessible[j].parentId.None? || accessible[j].parentId.value !in Ids(accessible)
    ensures FirstRootNamed(accessible, name).Some?
  {
  }

  /** Round trip of `resolve_folder_path(path, create_missing=True)`: resolving
      the same path again without creating finds the folder it returned. */
  lemma {:induction false} CreateThenResolve(accessible: seq<Folder>, s: Store, path: string)
    requires Fresh(s) && PositiveIds(s)
    requires forall i :: 0 <= i < |accessible| ==> accessible[i].id > 0
    requires ResolveFolder(accessible, s, path, true).0.Some?
    ensures ResolveFolder(accessible, ResolveFolder(accessible, s, path, true).1, path, false).0
      == ResolveFolder(accessible, s, path, true).0
  {
    var parts := PathParts(path);
    var root := FirstRootNamed(accessible, parts[0]).value;
    if |parts| > 1 {
      CreatedPathResolves(s, root.id, parts[1..]);
    }
  }

  /** A file path needs a folder and a file component: a path with a single
      component never names a file. */
  lemma {:induction false} FilePathNeedsFolder(accessible: seq<Folder>, s: Store, path: string)
    requires '/' !in Strip(path, {'/'})
    ensures ResolveFile(accessible, s, path) == None
  {
  }

  /** A resolved file id belongs to a file whose name is the last component,
      listed in the folder that resolving the other components as a folder
      path reaches. */
  lemma {:induction false} ResolvedFileIsInFolder(accessible: seq<Folder>, s: Store, path: string)
    requires ResolveFile(accessible, s, path).Some?
    ensures var parts := PathParts(path);
      && |parts| >= 2
      && FirstRootNamed(accessible, parts[0]).Some?
      && var dir := Walk(s, FirstRootNamed(accessible, parts[0]).value.id, parts[1..|parts| - 1]);
      && dir.Some? && dir.value in s.files
      && exists f :: f in s.files[dir.value] && f.name == parts[|parts| - 1]
                     && f.id == ResolveFile(accessible, s, path).value
  {
    var parts := PathParts(path);
    var root := FirstRootNamed(accessible, parts[0]).value;
    var dir := Walk(s, root.id, parts[1..|parts| - 1]).value;
    var f := FirstFileNamed(s.files[dir], parts[|parts| - 1]).value;
    assert f in s.files[dir];
  }
}
