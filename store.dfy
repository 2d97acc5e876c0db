/**
 * The storage server as the CLI sees it through its HTTP answers, and the
 * descent through folders by name that `resolve_folder_path`,
 * `resolve_file_path` and the sync executor perform.
 */
module RemoteStore {
  import opened Wrappers
  import opened Seqs
  import opened Folders

  /** A file record as the storage API lists it. */
  datatype RemoteFile = RemoteFile(id: int, name: string, etag: string)

  /**
   * The server's answers:
   * - `subfolders[id]`: the body of `GET /folders?parent_id=id`, in the
   *   server's order; a missing key stands for a failed request;
   * - `files[id]`: the body of `GET /files?folder_id=id`;
   * - `details[id]`: the body of `GET /folders/id`;
   * - `refused`: the (parent, name) pairs for which `POST /folders` fails;
   * - `nextId`: the id the server gives to the next folder it creates.
   */
  datatype Store = Store(
    subfolders: map<FolderId, seq<Folder>>,
    files: map<FolderId, seq<RemoteFile>>,
    details: map<FolderId, Folder>,
    refused: set<(FolderId, string)>,
    nextId: FolderId)

  /** The server never reuses an id: every listed folder id is below `nextId`. */
  predicate Fresh(s: Store)
  {
    forall k :: k in s.subfolders ==> k < s.nextId
  }

  /** Folder ids are positive, so `create_folder`'s `if parent_id:` always
      sees a parent. */
  predicate PositiveIds(s: Store)
  {
    && s.nextId > 0
    && forall k, i :: k in s.subfolders && 0 <= i < |s.subfolders[k]| ==> s.subfolders[k][i].id > 0
  }

  /** Every listed folder can itself be listed. */
  predicate Complete(s: Store)
  {
    forall k, i :: k in s.subfolders && 0 <= i < |s.subfolders[k]| ==> s.subfolders[k][i].id in s.subfolders
  }

  /** `GET /folders/id` answers with the folder of that id. */
  predicate DetailsKeyed(s: Store)
  {
    forall k :: k in s.details ==> s.details[k].id == k
  }

  /** The complete record of `f` when `GET /folders/id` succeeds, otherwise
      the record already at hand. */
  function Fetched(s: Store, f: Folder): (r: Folder)
    ensures DetailsKeyed(s) ==> r.id == f.id
    ensures f.id !in s.details ==> r == f
  {
    if f.id in s.details then s.details[f.id] else f
  }

  /** `t` is `s` after more folders were created: every listing of `s` is still
      there, possibly with folders added at its end. */
  ghost predicate Extends(s: Store, t: Store)
  {
    forall k :: k in s.subfolders ==> k in t.subfolders && s.subfolders[k] <= t.subfolders[k]
  }

  lemma {:induction false} ExtendsTransitive(s: Store, t: Store, u: Store)
    requires Extends(s, t) && Extends(t, u)
    ensures Extends(s, u)
  {
  }

  /** The `for ... if folder['name'] == name: break` search: the first folder
      of the list with that name. */
  function FirstNamed(list: seq<Folder>, name: string): (r: Option<Folder>)
    ensures r.Some? ==> r.value in list && r.value.name == name
    ensures r.Some? ==> exists k :: 0 <= k < |list| && list[k] == r.value && forall j :: 0 <= j < k ==> list[j].name != name
    ensures r.None? <==> forall i :: 0 <= i < |list| ==> list[i].name != name
  {
    FirstWhere(list, (f: Folder) => f.name == name)
  }

  /** Folders added at the end of a listing do not change an existing match. */
  lemma {:induction false} FirstNamedPrefix(a: seq<Folder>, b: seq<Folder>, name: string)
    requires FirstNamed(a, name).Some?
    ensures FirstNamed(a + b, name) == FirstNamed(a, name)
    decreases |a|
  {
    if a[0].name != name {
      assert (a + b)[1..] == a[1..] + b;
      FirstNamedPrefix(a[1..], b, name);
    }
  }

  /** A listing that only grew at its end keeps an existing match. */
  lemma {:induction false} FirstNamedExtends(a: seq<Folder>, b: seq<Folder>, name: string)
    requires a <= b && FirstNamed(a, name).Some?
    ensures FirstNamed(b, name) == FirstNamed(a, name)
  {
    FirstNamedPrefix(a, b[|a|..], name);
    assert a + b[|a|..] == b;
  }

  /** A folder added to a listing without a match is the match. */
  lemma {:induction false} FirstNamedAppend(a: seq<Folder>, f: Folder)
    requires FirstNamed(a, f.name).None?
    ensures FirstNamed(a + [f], f.name) == Some(f)
    decreases |a|
  {
    if a != [] {
      assert (a + [f])[1..] == a[1..] + [f];
      assert a[1..] == a[1..];
      FirstNamedAppend(a[1..], f);
    }
  }

  /** The search loop itself. */
  method FindNamed(list: seq<Folder>, name: string) returns (r: Option<Folder>)
    ensures r == FirstNamed(list, name)
  {
    var i := 0;
    while i < |list|
      invariant 0 <= i <= |list|
      invariant FirstNamed(list, name) == FirstNamed(list[i..], name)
    {
      if list[i].name == name {
        return Some(list[i]);
      }
      assert list[i..][1..] == list[i + 1..];
      i := i + 1;
    }
    return None;
  }

  /** Descending from folder `from` through one name-matched subfolder per
      name, without creating anything; `None` as soon as a listing fails or
      a name has no match. */
  function Walk(s: Store, from: FolderId, names: seq<string>): Option<FolderId>
    decreases |names|
  {
    if names == [] then Some(from)
    else if from !in s.subfolders then None
    else match FirstNamed(s.subfolders[from], names[0])
      case None => None
      case Some(f) => Walk(s, f.id, names[1..])
  }

  /** Walking a path one name longer takes one more step from where the
      shorter walk ends. */
  lemma {:induction false} WalkSnoc(s: Store, from: FolderId, names: seq<string>, n: string)
    ensures Walk(s, from, names + [n]) ==
      match Walk(s, from, names)
      case None => None
      case Some(m) => Walk(s, m, [n])
    decreases |names|
  {
    if names != [] {
      assert (names + [n])[0] == names[0];
      assert (names + [n])[1..] == names[1..] + [n];
      if from in s.subfolders && FirstNamed(s.subfolders[from], names[0]).Some? {
        WalkSnoc(s, FirstNamed(s.subfolders[from], names[0]).value.id, names[1..], n);
      }
    } else {
      assert names + [n] == [n];
    }
  }

  /** A walk that succeeds keeps succeeding, with the same result, after the
      server has only gained folders. */
  lemma {:induction false} WalkStable(s: Store, t: Store, from: FolderId, names: seq<string>)
    requires Extends(s, t)
    requires Walk(s, from, names).Some?
    ensures Walk(t, from, names) == Walk(s, from, names)
    decreases |names|
  {
    if names != [] {
      var f := FirstNamed(s.subfolders[from], names[0]).value;
      FirstNamedExtends(s.subfolders[from], t.subfolders[from], names[0]);
      WalkStable(s, t, f.id, names[1..]);
    }
  }

  /** On a complete server a successful walk ends at a folder that can be listed. */
  lemma {:induction false} WalkListed(s: Store, from: FolderId, names: seq<string>)
    requires Complete(s) && from in s.subfolders
    requires Walk(s, from, names).Some?
    ensures Walk(s, from, names).value in s.subfolders
    decreases |names|
  {
    if names != [] {
      var list := s.subfolders[from];
      var f := FirstNamed(list, names[0]).value;
      var i :| 0 <= i < |list| && list[i] == f;
      WalkListed(s, f.id, names[1..]);
    }
  }

  /** `create_folder(name, parent)`: `POST /folders`. On success the new
      folder gets the next id, is listed last under its parent (a falsy
      parent id is not sent, so id 0 creates a parentless folder) and has
      empty listings of its own. */
  function CreateFolder(s: Store, name: string, parent: FolderId): (res: (Option<Folder>, Store))
    requires Fresh(s)
    ensures res.0.None? <==> (parent, name) in s.refused
    ensures res.0.None? ==> res.1 == s
    ensures res.0.Some? ==>
      && res.0.value == Folder(s.nextId, name, if parent == 0 then None else Some(parent))
      && Extends(s, res.1) && Fresh(res.1)
      && res.1.subfolders.Keys == s.subfolders.Keys + {s.nextId}
      && res.1.subfolders[s.nextId] == []
      && (parent != 0 && parent in s.subfolders ==> res.1.subfolders[parent] == s.subfolders[parent] + [res.0.value])
      && (forall k :: k in s.subfolders && k != parent ==> res.1.subfolders[k] == s.subfolders[k])
  {
    if (parent, name) in s.refused then (None, s)
    else
      var f := Folder(s.nextId, name, if parent == 0 then None else Some(parent));
      var listed :=
        if parent != 0 && parent in s.subfolders
        then s.subfolders[parent := s.subfolders[parent] + [f]]
        else s.subfolders;
      (Some(f), s.(subfolders := listed[f.id := []],
                   files := s.files[f.id := []],
                   details := s.details[f.id := f],
                   nextId := s.nextId + 1))
  }

  /** Creating a folder keeps ids positive, and keeps every listed folder
      listable. */
  lemma {:induction false} CreateFolderKeeps(s: Store, name: string, parent: FolderId)
    requires Fresh(s) && PositiveIds(s)
    ensures PositiveIds(CreateFolder(s, name, parent).1)
    ensures Complete(s) ==> Complete(CreateFolder(s, name, parent).1)
  {
    var (made, s1) := CreateFolder(s, name, parent);
    if made.Some? {
      var f := made.value;
      forall k, i | k in s1.subfolders && 0 <= i < |s1.subfolders[k]|
        ensures s1.subfolders[k][i].id > 0
        ensures Complete(s) ==> s1.subfolders[k][i].id in s1.subfolders
      {
        if k in s.subfolders && k != parent {
          assert s1.subfolders[k][i] == s.subfolders[k][i];
        } else if k in s.subfolders && i < |s.subfolders[k]| {
          assert s1.subfolders[k][i] == s.subfolders[k][i];
        } else if k in s.subfolders {
          assert s1.subfolders[k][i] == f;
        }
      }
    }
  }

  /** The descent of `resolve_folder_path`: like `Walk`, but when a name has
      no match and `create` is set, the folder is created and the descent
      goes on inside it; a refused creation ends it with `None`. */
  function WalkCreate(s: Store, from: FolderId, names: seq<string>, create: bool): (res: (Option<FolderId>, Store))
    requires Fresh(s)
    ensures Fresh(res.1) && Extends(s, res.1)
    ensures !create ==> res == (Walk(s, from, names), s)
    decreases |names|
  {
    if names == [] then (Some(from), s)
    else if from !in s.subfolders then (None, s)
    else match FirstNamed(s.subfolders[from], names[0])
      case Some(f) => WalkCreate(s, f.id, names[1..], create)
      case None =>
        if !create then (None, s)
        else
          var (made, s1) := CreateFolder(s, names[0], from);
          if made.None? then (None, s1)
          else
            var res := WalkCreate(s1, made.value.id, names[1..], create);
            ExtendsTransitive(s, s1, res.1);
            res
  }

  /** A descent through the names from `i` on takes the step for `names[i]`,
      then descends through the rest from where that step ends, on the
      server it leaves. */
  lemma {:induction false} WalkCreateAt(s: Store, from: FolderId, names: seq<string>, i: nat, create: bool)
    requires Fresh(s) && i < |names|
    ensures var (r1, t1) := WalkCreate(s, from, [names[i]], create);
      WalkCreate(s, from, names[i..], create)
        == (if r1.None? then (None, t1) else WalkCreate(t1, r1.value, names[i + 1..], create))
  {
    assert names[i..][0] == names[i] && names[i..][1..] == names[i + 1..] && [names[i]][1..] == [];
  }

  /** Creating folders keeps ids positive and listings complete. */
  lemma {:induction false} WalkCreateKeeps(s: Store, from: FolderId, names: seq<string>, create: bool)
    requires Fresh(s) && PositiveIds(s) && Complete(s)
    ensures PositiveIds(WalkCreate(s, from, names, create).1)
    ensures Complete(WalkCreate(s, from, names, create).1)
    decreases |names|
  {
    if names != [] && from in s.subfolders {
      match FirstNamed(s.subfolders[from], names[0])
      case Some(f) =>
        WalkCreateKeeps(s, f.id, names[1..], create);
      case None =>
        if create {
          var (made, s1) := CreateFolder(s, names[0], from);
          if made.Some? {
            CreateFolderKeeps(s, names[0], from);
            WalkCreateKeeps(s1, made.value.id, names[1..], create);
          }
        }
    }
  }

  /** Round trip of `resolve_folder_path(path, create_missing=True)`: once the
      missing folders are created, resolving the same path without creating
      anything finds the same folder. */
  lemma {:induction false} CreatedPathResolves(s: Store, from: FolderId, names: seq<string>)
    requires Fresh(s) && PositiveIds(s) && from > 0
    requires WalkCreate(s, from, names, true).0.Some?
    ensures Walk(WalkCreate(s, from, names, true).1, from, names) == WalkCreate(s, from, names, true).0
    decreases |names|
  {
    if names != [] {
      var list := s.subfolders[from];
      match FirstNamed(list, names[0])
      case Some(f) =>
        var t := WalkCreate(s, f.id, names[1..], true).1;
        assert WalkCreate(s, from, names, true) == WalkCreate(s, f.id, names[1..], true);
        CreatedPathResolves(s, f.id, names[1..]);
        assert FirstNamed(t.subfolders[from], names[0]) == Some(f) by {
          FirstNamedExtends(list, t.subfolders[from], names[0]);
        }
      case None =>
        var (made, s1) := CreateFolder(s, names[0], from);
        var c := made.value;
        var t := WalkCreate(s1, c.id, names[1..], true).1;
        assert WalkCreate(s, from, names, true) == WalkCreate(s1, c.id, names[1..], true);
        CreateFolderKeeps(s, names[0], from);
        CreatedPathResolves(s1, c.id, names[1..]);
        assert FirstNamed(t.subfolders[from], names[0]) == Some(c) by {
          FirstNamedAppend(list, c);
          FirstNamedExtends(s1.subfolders[from], t.subfolders[from], names[0]);
        }
    }
  }
}
