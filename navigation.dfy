/**
 * The interactive browser: the folder shown, the stack of folders entered to
 * reach it, its listings, and the numbering of the root folders that
 * `select` refers to.
 */
module Navigation {
  import opened Wrappers
  import opened Folders
  import opened RemoteStore

  /** Root folders numbered from 1, as the folder listing shows them. */
  function RootIndex(roots: seq<Folder>): (m: map<int, Folder>)
    ensures forall k :: k in m <==> 1 <= k <= |roots|
    ensures forall k :: k in m ==> m[k] == roots[k - 1]
    decreases |roots|
  {
    if roots == [] then map[]
    else RootIndex(roots[..|roots| - 1])[|roots| := roots[|roots| - 1]]
  }

  /** The numbers `select` accepts after a listing are 1 to the number of
      roots, and each names the root of that position: a folder that is
      accessible and whose parent is not. */
  lemma {:induction false} DisplayedAreRoots(accessible: seq<Folder>, k: int)
    requires UniqueIds(accessible)
    ensures k in RootIndex(Tops(BuildHierarchy(accessible))) <==> 1 <= k <= |Roots(accessible)|
    ensures k in RootIndex(Tops(BuildHierarchy(accessible))) ==>
              var f := RootIndex(Tops(BuildHierarchy(accessible)))[k];
              f == Roots(accessible)[k - 1] && f in accessible && IsRoot(f, accessible)
  {
    HierarchyShape(accessible);
    if 1 <= k <= |Roots(accessible)| {
      assert Roots(accessible)[k - 1] in Roots(accessible);
    }
  }

  class Browser {
    const jsonOutput: bool
    var accessibleFolders: seq<Folder>
    var currentFolder: Option<Folder>
    var folderStack: seq<Folder>
    var currentFiles: seq<RemoteFile>
    var currentSubfolders: seq<Folder>
    var folderDisplayMap: map<int, Folder>

    /** A folder is selected exactly when the stack is not empty, and the
        selected folder is the one on top of the stack (possibly a fresher
        copy of its record). */
    predicate Valid()
      reads this
    {
      && (currentFolder.None? <==> folderStack == [])
      && (currentFolder.Some? ==> currentFolder.value.id == folderStack[|folderStack| - 1].id)
    }

    constructor(jsonOutput: bool)
      ensures Valid()
      ensures this.jsonOutput == jsonOutput
      ensures accessibleFolders == [] && currentFolder == None && folderStack == []
      ensures currentFiles == [] && currentSubfolders == [] && folderDisplayMap == map[]
    {
      this.jsonOutput := jsonOutput;
      accessibleFolders := [];
      currentFolder := None;
      folderStack := [];
      currentFiles := [];
      currentSubfolders := [];
      folderDisplayMap := map[];
    }

    /** The folder list the access check received from the server. */
    method SetAccessible(folders: seq<Folder>)
      modifies this`accessibleFolders
      ensures accessibleFolders == folders
    {
      accessibleFolders := folders;
    }

    /** `list_accessible_folders`: outside JSON mode, numbers the root
        folders of the hierarchy from 1 in the display map. */
    method ListAccessibleFolders()
      requires UniqueIds(accessibleFolders)
      modifies this`folderDisplayMap
      ensures jsonOutput ==> folderDisplayMap == old(folderDisplayMap)
      ensures !jsonOutput ==> folderDisplayMap == RootIndex(Roots(accessibleFolders))
    {
      if jsonOutput {
        return;
      }
      var hierarchy := BuildHierarchy(accessibleFolders);
      HierarchyShape(accessibleFolders);
      var m: map<int, Folder> := map[];
      var i := 0;
      while i < |hierarchy|
        invariant 0 <= i <= |hierarchy|
        invariant m == RootIndex(Tops(hierarchy)[..i])
      {
        assert Tops(hierarchy)[..i + 1][..i] == Tops(hierarchy)[..i];
        m := m[i + 1 := hierarchy[i].folder];
        i := i + 1;
      }
      assert Tops(hierarchy)[..i] == Roots(accessibleFolders);
      folderDisplayMap := m;
    }

    /** `refresh_current_folder`: fetches the files, then the subfolders, of
        the selected folder; a failed request stops there, keeping what was
        already replaced. */
    method Refresh(store: Store) returns (ok: bool)
      modifies this`currentFiles, this`currentSubfolders
      ensures currentFolder.None? ==> !ok && currentFiles == old(currentFiles) && currentSubfolders == old(currentSubfolders)
      ensures currentFolder.Some? ==>
                var id := currentFolder.value.id;
                && (ok <==> id in store.files && id in store.subfolders)
                && currentFiles == (if id in store.files then store.files[id] else old(currentFiles))
                && currentSubfolders == (if ok then store.subfolders[id] else old(currentSubfolders))
    {
      if currentFolder.None? {
        return false;
      }
      var id := currentFolder.value.id;
      if id !in store.files {
        return false;
      }
      currentFiles := store.files[id];
      if id !in store.subfolders {
        return false;
      }
      currentSubfolders := store.subfolders[id];
      return true;
    }

    /** `select_folder(index)`: an index the last listing did not show is
        refused; otherwise that root becomes the only folder on the stack. */
    method SelectFolder(index: int, store: Store) returns (ok: bool)
      requires Valid()
      modifies this`currentFolder, this`folderStack, this`currentFiles, this`currentSubfolders
      ensures Valid()
      ensures ok <==> index in folderDisplayMap
      ensures !ok ==> unchanged(this)
      ensures ok ==>
                var f := Fetched(store, folderDisplayMap[index]);
                && currentFolder == Some(f)
                && folderStack == [f]
                && currentFiles == (if f.id in store.files then store.files[f.id] else old(currentFiles))
                && currentSubfolders == (if f.id in store.files && f.id in store.subfolders
                                         then store.subfolders[f.id] else old(currentSubfolders))
    {
      if index !in folderDisplayMap {
        return false;
      }
      var f := Fetched(store, folderDisplayMap[index]);
      currentFolder := Some(f);
      folderStack := [f];
      var _ := Refresh(store);
      return true;
    }

    /** `enter_subfolder(index)`: with a folder selected and `index` in
        `1..len(current_subfolders)`, pushes exactly that subfolder. */
    method EnterSubfolder(index: int, store: Store) returns (ok: bool)
      requires Valid()
      modifies this`currentFolder, this`folderStack, this`currentFiles, this`currentSubfolders
      ensures Valid()
      ensures ok <==> old(currentFolder).Some? && 1 <= index <= |old(currentSubfolders)|
      ensures !ok ==> unchanged(this)
      ensures ok ==>
                var f := Fetched(store, old(currentSubfolders)[index - 1]);
                && currentFolder == Some(f)
                && folderStack == old(folderStack) + [f]
                && currentFiles == (if f.id in store.files then store.files[f.id] else old(currentFiles))
                && currentSubfolders == (if f.id in store.files && f.id in store.subfolders
                                         then store.subfolders[f.id] else old(currentSubfolders))
    {
      if currentFolder.None? {
        return false;
      }
      if index < 1 || index > |currentSubfolders| {
        return false;
      }
      var f := Fetched(store, currentSubfolders[index - 1]);
      currentFolder := Some(f);
      folderStack := folderStack + [f];
      var _ := Refresh(store);
      return true;
    }

    /** `go_back`: refused at the first folder; otherwise pops exactly one
        folder and selects the new top, as the server now describes it. */
    method GoBack(store: Store) returns (ok: bool)
      requires Valid()
      modifies this`currentFolder, this`folderStack, this`currentFiles, this`currentSubfolders
      ensures DetailsKeyed(store) ==> Valid()
      ensures ok <==> old(currentFolder).Some? && |old(folderStack)| > 1
      ensures !ok ==> unchanged(this)
      ensures ok ==>
                var top := old(folderStack)[|old(folderStack)| - 2];
                var f := Fetched(store, top);
                && folderStack == old(folderStack)[..|old(folderStack)| - 1]
                && folderStack[|folderStack| - 1] == top
                && currentFolder == Some(f)
                && currentFiles == (if f.id in store.files then store.files[f.id] else old(currentFiles))
                && currentSubfolders == (if f.id in store.files && f.id in store.subfolders
                                         then store.subfolders[f.id] else old(currentSubfolders))
    {
      if currentFolder.None? {
        return false;
      }
      if |folderStack| <= 1 {
        return false;
      }
      folderStack := folderStack[..|folderStack| - 1];
      var parent := folderStack[|folderStack| - 1];
      currentFolder := Some(Fetched(store, parent));
      var _ := Refresh(store);
      return true;
    }

    /** The `home` command: deselects everything and lists the roots again. */
    method Home()
      requires UniqueIds(accessibleFolders)
      modifies this`currentFolder, this`folderStack, this`currentFiles, this`currentSubfolders, this`folderDisplayMap
      ensures Valid()
      ensures currentFolder == None && folderStack == [] && currentFiles == [] && currentSubfolders == []
      ensures folderDisplayMap == if jsonOutput then old(folderDisplayMap) else RootIndex(Roots(accessibleFolders))
    {
      currentFolder := None;
      folderStack := [];
      currentFiles := [];
      currentSubfolders := [];
      ListAccessibleFolders();
    }
  }
}
