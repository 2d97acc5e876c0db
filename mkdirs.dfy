/**
 * The first pass of `_execute_sync_actions`: for every folder path to create,
 * in sorted order, each of its prefixes is looked up in `folder_id_map`,
 * found among the subfolders of the previous level, or created; a failed
 * creation counts one error and abandons the rest of that path.
 *
 * `advanceOnKnown` selects between the code as written (`false`: a prefix
 * already in the map does not become the parent of the next level) and the
 * corrected code (`true`: it does).
 */
module SyncMkdirs {
  import opened Wrappers
  import opened Paths
  import opened Folders
  import opened RemoteStore

  /** The executor's state during folder creation: the server, the
      `folder_id_map` from relative paths to folder ids, and the
      `folders_created` and `errors` counters. */
  datatype Mkdirs = Mkdirs(store: Store, ids: map<string, FolderId>, created: nat, errors: nat)

  /** `folder_id_map = {'.': remote_folder_id}` with the counters at 0. */
  function Start(store: Store, root: FolderId): Mkdirs
  {
    Mkdirs(store, map["." := root], 0, 0)
  }

  /** What one component does to the state: go on to the next level with
      a parent, or stop the path after a failed creation. */
  datatype StepResult = Continue(next: Mkdirs, parent: FolderId) | Stop(last: Mkdirs)

  /** The body of the inner loop for component `part`, `path` being the path
      up to and including it and `parent` the folder it belongs in. */
  function Step(st: Mkdirs, part: string, path: string, parent: FolderId, advanceOnKnown: bool): (r: StepResult)
    requires Fresh(st.store)
    ensures r.Continue? ==> Fresh(r.next.store) && Extends(st.store, r.next.store)
                            && r.next.errors == st.errors && r.next.created >= st.created
                            && forall k :: k in st.ids ==> k in r.next.ids && r.next.ids[k] == st.ids[k]
    ensures r.Stop? ==> r.last == st.(errors := st.errors + 1)
  {
    if path in st.ids then
      Continue(st, if advanceOnKnown then st.ids[path] else parent)
    else if parent !in st.store.subfolders then
      // the listing request failed: nothing is recorded and the loop goes on
      Continue(st, parent)
    else match FirstNamed(st.store.subfolders[parent], part)
      case Some(f) => Continue(st.(ids := st.ids[path := f.id]), f.id)
      case None =>
        var (made, s1) := CreateFolder(st.store, part, parent);
        if made.None? then Stop(st.(errors := st.errors + 1))
        else Continue(Mkdirs(s1, st.ids[path := made.value.id], st.created + 1, st.errors), made.value.id)
  }

  /** The inner loop over the components `parts` of one path, `cur` being the
      path so far and `parent` the folder the next component goes in. */
  function CreateLevels(st: Mkdirs, parts: seq<string>, cur: string, parent: FolderId, advanceOnKnown: bool): (r: Mkdirs)
    requires Fresh(st.store)
    ensures Fresh(r.store) && Extends(st.store, r.store)
    ensures st.errors <= r.errors <= st.errors + 1
    ensures r.created >= st.created
    ensures forall k :: k in st.ids ==> k in r.ids && r.ids[k] == st.ids[k]
    decreases |parts|
  {
    if parts == [] then st
    else
      var path := if cur != "" then OsJoin(cur, parts[0]) else parts[0];
      match Step(st, parts[0], path, parent, advanceOnKnown)
      case Stop(r) => r
      case Continue(st1, parent1) =>
        var r := CreateLevels(st1, parts[1..], path, parent1, advanceOnKnown);
        ExtendsTransitive(st.store, st1.store, r.store);
        r
  }

  /** The outer loop over the folder paths, in the order given. */
  function CreateAll(st: Mkdirs, order: seq<string>, root: FolderId, advanceOnKnown: bool): (r: Mkdirs)
    requires Fresh(st.store)
    ensures Fresh(r.store) && Extends(st.store, r.store)
    ensures st.errors <= r.errors <= st.errors + |order|
    ensures forall k :: k in st.ids ==> k in r.ids && r.ids[k] == st.ids[k]
    decreases |order|
  {
    if order == [] then st
    else
      var mid := CreateLevels(st, Split(order[0], '/'), "", root, advanceOnKnown);
      var r := CreateAll(mid, order[1..], root, advanceOnKnown);
      ExtendsTransitive(st.store, mid.store, r.store);
      r
  }

  /** The folder pass as the source writes it. */
  function CreateFoldersAsWritten(store: Store, root: FolderId, order: seq<string>): Mkdirs
    requires Fresh(store)
  {
    CreateAll(Start(store, root), order, root, false)
  }

  /** The body of the inner loop for one component, as written or corrected. */
  method StepOnce(st: Mkdirs, part: string, path: string, parent: FolderId, advanceOnKnown: bool) returns (r: StepResult)
    requires Fresh(st.store)
    ensures r == Step(st, part, path, parent, advanceOnKnown)
  {
    if path in st.ids {
      if advanceOnKnown {
        return Continue(st, st.ids[path]);
      }
      return Continue(st, parent);
    }
    if parent !in st.store.subfolders {
      return Continue(st, parent);
    }
    var existing := FindNamed(st.store.subfolders[parent], part);
    if existing.Some? {
      return Continue(st.(ids := st.ids[path := existing.value.id]), existing.value.id);
    }
    var res := CreateFolder(st.store, part, parent);
    if res.0.None? {
      return Stop(st.(errors := st.errors + 1));
    }
    r := Continue(Mkdirs(res.1, st.ids[path := res.0.value.id], st.created + 1, st.errors), res.0.value.id);
  }

  /** The inner loop over the components of one folder path. */
  method CreateLevelsLoop(st0: Mkdirs, parts: seq<string>, root: FolderId, advanceOnKnown: bool) returns (st: Mkdirs)
    requires Fresh(st0.store)
    ensures st == CreateLevels(st0, parts, "", root, advanceOnKnown)
  {
    st := st0;
    ghost var goal := CreateLevels(st0, parts, "", root, advanceOnKnown);
    var cur := "";
    var parent := root;
    var k := 0;
    while k < |parts|
      invariant 0 <= k <= |parts|
      invariant Fresh(st.store)
      invariant CreateLevels(st, parts[k..], cur, parent, advanceOnKnown) == goal
    {
      var part := parts[k];
      var path := if cur != "" then OsJoin(cur, part) else part;
      var r := StepOnce(st, part, path, parent, advanceOnKnown);
      assert CreateLevels(st, parts[k..], cur, parent, advanceOnKnown)
             == (if r.Stop? then r.last else CreateLevels(r.next, parts[k + 1..], path, r.parent, advanceOnKnown)) by {
        assert parts[k..][0] == part && parts[k..][1..] == parts[k + 1..];
      }
      if r.Stop? {
        st := r.last;
        break;
      }
      st, cur, parent := r.next, path, r.parent;
      k := k + 1;
    }
  }

  /** The folder pass from `{'.': remote_folder_id}`, with its loops, as
      written or corrected. */
  method CreateFolders(store: Store, root: FolderId, order: seq<string>, advanceOnKnown: bool) returns (st: Mkdirs)
    requires Fresh(store)
    ensures st == CreateAll(Start(store, root), order, root, advanceOnKnown)
  {
    st := Start(store, root);
    var i := 0;
    while i < |order|
      invariant 0 <= i <= |order|
      invariant Fresh(st.store)
      invariant CreateAll(st, order[i..], root, advanceOnKnown) == CreateAll(Start(store, root), order, root, advanceOnKnown)
    {
      assert order[i..][0] == order[i] && order[i..][1..] == order[i + 1..];
      st := CreateLevelsLoop(st, Split(order[i], '/'), root, advanceOnKnown);
      i := i + 1;
    }
  }

  // ---- what the corrected pass guarantees ----

  /** A server in the state the sync needs: fresh and positive ids, every
      listed folder listable, and the sync root listable and positive. */
  predicate Healthy(s: Store, root: FolderId)
  {
    Fresh(s) && PositiveIds(s) && Complete(s) && root in s.subfolders && root > 0
  }

  /** Every path in the map other than `.` names the folder reached by walking
      its components down from the root, and `.` is the root. */
  predicate IdsSound(s: Store, root: FolderId, ids: map<string, FolderId>)
  {
    && "." in ids && ids["."] == root
    && forall k :: k in ids && k != "." ==> Walk(s, root, Components(k)) == Some(ids[k])
  }

  lemma {:induction false} WalkPositive(s: Store, from: FolderId, names: seq<string>)
    requires PositiveIds(s) && from > 0
    requires Walk(s, from, names).Some?
    ensures Walk(s, from, names).value > 0
    decreases |names|
  {
    if names != [] {
      var list := s.subfolders[from];
      var f := FirstNamed(list, names[0]).value;
      var i :| 0 <= i < |list| && list[i] == f;
      WalkPositive(s, f.id, names[1..]);
    }
  }

  lemma {:induction false} IdsSoundStable(s: Store, t: Store, root: FolderId, ids: map<string, FolderId>)
    requires IdsSound(s, root, ids) && Extends(s, t)
    ensures IdsSound(t, root, ids)
  {
    forall k | k in ids && k != "." ensures Walk(t, root, Components(k)) == Some(ids[k]) {
      WalkStable(s, t, root, Components(k));
    }
  }

  lemma {:induction false} DotNotNormal()
    ensures Components(".") == ["."]
    ensures !NormalPath(".")
  {
    assert Split("", '/') == [""];
    assert ['.'] == "." && "."[1..] == "";
    assert Split(".", '/') == [['.'] + ""];
    assert ['.'] + "" == ".";
    assert Split(".", '/') == ["."];
    assert Components(".") == Split(".", '/');
    assert !ValidComponent(Split(".", '/')[0]);
  }

  /** The path built after one more component is the join of the components. */
  lemma {:induction false} NextPath(done: seq<string>, part: string)
    requires forall i :: 0 <= i < |done| ==> ValidComponent(done[i])
    requires ValidComponent(part)
    ensures var cur := if done == [] then "" else Join(done, '/');
            var path := if cur != "" then OsJoin(cur, part) else part;
            && path == Join(done + [part], '/')
            && Components(path) == done + [part]
            && path != "."
  {
    var cur := if done == [] then "" else Join(done, '/');
    var path := Join(done + [part], '/');
    assert (if cur != "" then OsJoin(cur, part) else part) == path by {
      NextPathJoin(done, part);
    }
    assert Components(path) == done + [part] && NormalPath(path) by {
      JoinNormal(done + [part]);
    }
    assert path != "." by {
      DotNotNormal();
    }
  }

  lemma {:induction false} NextPathJoin(done: seq<string>, part: string)
    requires forall i :: 0 <= i < |done| ==> ValidComponent(done[i])
    requires part != [] && part[0] != '/'
    ensures var cur := if done == [] then "" else Join(done, '/');
            (if cur != "" then OsJoin(cur, part) else part) == Join(done + [part], '/')
  {
    if done == [] {
      assert done + [part] == [part];
    } else {
      JoinEnds(done, '/');
      var last := done[|done| - 1];
      assert last[|last| - 1] in last;
      JoinSnoc(done, part);
    }
  }

  /** A subfolder found by name extends the walk and may be mapped. */
  lemma {:induction false} FoundSound(st: Mkdirs, part: string, done: seq<string>, parent: FolderId, root: FolderId, path: string)
    requires Healthy(st.store, root) && IdsSound(st.store, root, st.ids)
    requires Walk(st.store, root, done) == Some(parent) && parent in st.store.subfolders
    requires FirstNamed(st.store.subfolders[parent], part).Some?
    requires path != "." && Components(path) == done + [part]
    ensures var f := FirstNamed(st.store.subfolders[parent], part).value;
            && Walk(st.store, root, done + [part]) == Some(f.id)
            && IdsSound(st.store, root, st.ids[path := f.id])
  {
    WalkSnoc(st.store, root, done, part);
  }

  /** A folder created under the walk's end extends the walk and may be
      mapped, and the server stays healthy. */
  lemma {:induction false} CreatedSound(st: Mkdirs, part: string, done: seq<string>, parent: FolderId, root: FolderId, path: string)
    requires Healthy(st.store, root) && IdsSound(st.store, root, st.ids)
    requires Walk(st.store, root, done) == Some(parent) && parent in st.store.subfolders && parent > 0
    requires FirstNamed(st.store.subfolders[parent], part).None?
    requires path != "." && Components(path) == done + [part]
    requires CreateFolder(st.store, part, parent).0.Some?
    ensures var (made, s1) := CreateFolder(st.store, part, parent);
            && Healthy(s1, root)
            && Walk(s1, root, done + [part]) == Some(made.value.id)
            && IdsSound(s1, root, st.ids[path := made.value.id])
  {
    var s := st.store;
    var (made, s1) := CreateFolder(s, part, parent);
    var f := made.value;
    assert Healthy(s1, root) by {
      CreateFolderKeeps(s, part, parent);
    }
    assert Walk(s1, root, done + [part]) == Some(f.id) by {
      WalkStable(s, s1, root, done);
      WalkSnoc(s1, root, done, part);
      FirstNamedAppend(s.subfolders[parent], f);
      assert [part][1..] == [];
    }
    assert IdsSound(s1, root, st.ids) by {
      IdsSoundStable(s, s1, root, st.ids);
    }
  }

  /** One component on a healthy server with a sound map: either the path
      stops with one more error, or the state stays healthy and sound and the
      path up to this component is mapped to the next parent, which is the
      folder the walk reaches. */
  lemma {:induction false} StepSound(st: Mkdirs, part: string, done: seq<string>, parent: FolderId, root: FolderId)
    requires Healthy(st.store, root) && IdsSound(st.store, root, st.ids)
    requires ValidComponent(part)
    requires forall i :: 0 <= i < |done| ==> ValidComponent(done[i])
    requires Walk(st.store, root, done) == Some(parent)
    ensures var path := Join(done + [part], '/');
            var res := Step(st, part, path, parent, true);
            && (res.Stop? ==> Healthy(res.last.store, root) && IdsSound(res.last.store, root, res.last.ids))
            && (res.Continue? ==>
                  && Healthy(res.next.store, root) && IdsSound(res.next.store, root, res.next.ids)
                  && path in res.next.ids && res.next.ids[path] == res.parent
                  && Walk(res.next.store, root, done + [part]) == Some(res.parent))
  {
    NextPath(done, part);
    var path := Join(done + [part], '/');
    if path !in st.ids {
      WalkListed(st.store, root, done);
      WalkPositive(st.store, root, done);
      if FirstNamed(st.store.subfolders[parent], part).Some? {
        FoundSound(st, part, done, parent, root, path);
      } else if CreateFolder(st.store, part, parent).0.Some? {
        CreatedSound(st, part, done, parent, root, path);
      }
    }
  }

  /** Moving the first remaining component to the done ones keeps both
      lists valid and their concatenation the same. */
  lemma {:induction false} Advance(done: seq<string>, parts: seq<string>)
    requires parts != []
    requires forall i :: 0 <= i < |parts| ==> ValidComponent(parts[i])
    requires forall i :: 0 <= i < |done| ==> ValidComponent(done[i])
    ensures forall i :: 0 <= i < |done + [parts[0]]| ==> ValidComponent((done + [parts[0]])[i])
    ensures forall i :: 0 <= i < |parts[1..]| ==> ValidComponent(parts[1..][i])
    ensures (done + [parts[0]]) + parts[1..] == done + parts
    ensures |parts| == 1 ==> done + [parts[0]] == done + parts
  {
    assert [parts[0]] + parts[1..] == parts;
    assert (done + [parts[0]]) + parts[1..] == done + ([parts[0]] + parts[1..]);
    if |parts| == 1 {
      assert parts == [parts[0]];
    }
  }

  /** The corrected inner loop keeps the server healthy and the map sound;
      when it counts no error the whole path is in the map. */
  lemma {:induction false} CreateLevelsSound(st: Mkdirs, parts: seq<string>, done: seq<string>,
                                             parent: FolderId, root: FolderId)
    requires Healthy(st.store, root) && IdsSound(st.store, root, st.ids)
    requires forall i :: 0 <= i < |parts| ==> ValidComponent(parts[i])
    requires forall i :: 0 <= i < |done| ==> ValidComponent(done[i])
    requires Walk(st.store, root, done) == Some(parent)
    ensures var r := CreateLevels(st, parts, if done == [] then "" else Join(done, '/'), parent, true);
            && Healthy(r.store, root) && IdsSound(r.store, root, r.ids)
            && (parts != [] && r.errors == st.errors ==> Join(done + parts, '/') in r.ids)
    decreases |parts|
  {
    var cur := if done == [] then "" else Join(done, '/');
    if parts != [] {
      var part := parts[0];
      var next := done + [part];
      NextPath(done, part);
      var path := Join(next, '/');
      assert path == (if cur != "" then OsJoin(cur, part) else part);
      StepSound(st, part, done, parent, root);
      var res := Step(st, part, path, parent, true);
      if res.Continue? {
        Advance(done, parts);
        CreateLevelsSound(res.next, parts[1..], next, res.parent, root);
        assert CreateLevels(st, parts, cur, parent, true)
            == CreateLevels(res.next, parts[1..], path, res.parent, true);
      }
    }
  }

  /** One folder path of the corrected pass, from the synced folder: the
      server stays healthy, the map sound, and without an error the path is
      mapped. */
  lemma {:induction false} PathSound(st: Mkdirs, p: string, root: FolderId)
    requires Healthy(st.store, root) && IdsSound(st.store, root, st.ids)
    requires NormalPath(p)
    ensures var mid := CreateLevels(st, Split(p, '/'), "", root, true);
            && Healthy(mid.store, root) && IdsSound(mid.store, root, mid.ids)
            && (mid.errors == st.errors ==> p in mid.ids)
  {
    var parts := Split(p, '/');
    JoinSplit(p, '/');
    assert [] + parts == parts;
    CreateLevelsSound(st, parts, [], root, root);
  }

  /** A path list is mapped when its head and its tail are. */
  lemma {:induction false} AllMappedCons(order: seq<string>, ids: map<string, FolderId>)
    requires order != [] && order[0] in ids
    requires forall i :: 0 <= i < |order[1..]| ==> order[1..][i] in ids
    ensures forall i :: 0 <= i < |order| ==> order[i] in ids
  {
    forall i | 0 <= i < |order| ensures order[i] in ids {
      if i > 0 {
        assert order[i] == order[1..][i - 1];
      }
    }
  }

  /** The corrected folder pass on a healthy server: every path in the map
      names the folder reached by walking it from the root, and when no error
      was counted every requested path is in the map. */
  lemma {:induction false} CreateAllSound(st: Mkdirs, order: seq<string>, root: FolderId)
    requires Healthy(st.store, root) && IdsSound(st.store, root, st.ids)
    requires forall i :: 0 <= i < |order| ==> NormalPath(order[i])
    ensures var r := CreateAll(st, order, root, true);
            && Healthy(r.store, root) && IdsSound(r.store, root, r.ids)
            && (r.errors == st.errors ==> forall i :: 0 <= i < |order| ==> order[i] in r.ids)
    decreases |order|
  {
    if order != [] {
      PathSound(st, order[0], root);
      var mid := CreateLevels(st, Split(order[0], '/'), "", root, true);
      assert forall i :: 0 <= i < |order[1..]| ==> NormalPath(order[1..][i]);
      CreateAllSound(mid, order[1..], root);
      var r := CreateAll(mid, order[1..], root, true);
      assert CreateAll(st, order, root, true) == r;
      if r.errors == st.errors {
        assert order[0] in mid.ids;
        AllMappedCons(order, r.ids);
      }
    }
  }

  /** The corrected pass from the start: every path of `order` ends up
      mapped to the folder it names when no error occurs. */
  lemma {:induction false} FoldersResolved(store: Store, root: FolderId, order: seq<string>)
    requires Healthy(store, root)
    requires forall i :: 0 <= i < |order| ==> NormalPath(order[i])
    ensures var r := CreateAll(Start(store, root), order, root, true);
            && IdsSound(r.store, root, r.ids)
            && (r.errors == 0 ==> forall i :: 0 <= i < |order| ==>
                  order[i] in r.ids && Walk(r.store, root, Components(order[i])) == Some(r.ids[order[i]]))
  {
    assert IdsSound(store, root, Start(store, root).ids);
    CreateAllSound(Start(store, root), order, root);
    var r := CreateAll(Start(store, root), order, root, true);
    DotNotNormal();
  }
}
