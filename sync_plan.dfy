/**
 * The planning half of `sync_directory`: comparing the scanned local files
 * with the scanned remote tree and deciding, per file, whether to upload,
 * skip or delete, and which folders to create or delete.
 *
 * The scans are inputs. A Python dict becomes a sequence of entries in its
 * iteration order whose paths are distinct; the checksum of a local file is
 * the uninterpreted function `md5` of its full path.
 */
module SyncPlan {
  import opened Wrappers
  import opened Seqs
  import opened Paths

  /** A scanned local file: its path relative to the synced directory and its
      full path. */
  datatype LocalFile = LocalFile(path: string, fullPath: string)

  /** A scanned remote file: its relative path, id and ETag. */
  datatype RemoteEntry = RemoteEntry(path: string, id: int, etag: string)

  /** A scanned remote folder: its relative path and id. */
  datatype RemoteDir = RemoteDir(path: string, id: int)

  datatype Reason = New | ContentChanged

  datatype Action =
    | Upload(path: string, reason: Reason, localPath: string)
    | Skip(path: string)
    | Delete(path: string, fileId: int)

  /** What the planner hands to the executor. */
  datatype Plan = Plan(actions: seq<Action>, foldersToCreate: set<string>, foldersToDelete: seq<RemoteDir>)

  predicate DistinctLocal(local: seq<LocalFile>)
  {
    forall i, j :: 0 <= i < |local| && 0 <= j < |local| && local[i].path == local[j].path ==> i == j
  }

  predicate DistinctRemote(remote: seq<RemoteEntry>)
  {
    forall i, j :: 0 <= i < |remote| && 0 <= j < |remote| && remote[i].path == remote[j].path ==> i == j
  }

  /** `path in remote_files`: the remote entry with that path. */
  function FindRemote(remote: seq<RemoteEntry>, path: string): (r: Option<RemoteEntry>)
    ensures r.Some? ==> r.value in remote && r.value.path == path
    ensures r.None? <==> forall i :: 0 <= i < |remote| ==> remote[i].path != path
  {
    FirstWhere(remote, (e: RemoteEntry) => e.path == path)
  }

  /** The action for one local file. */
  function Classify(f: LocalFile, remote: seq<RemoteEntry>, md5: string -> string): Action
  {
    match FindRemote(remote, f.path)
    case None => Upload(f.path, New, f.fullPath)
    case Some(r) =>
      if md5(f.fullPath) != r.etag then Upload(f.path, ContentChanged, f.fullPath)
      else Skip(f.path)
  }

  /** The actions of the loop over local files, in scan order. */
  function LocalActions(local: seq<LocalFile>, remote: seq<RemoteEntry>, md5: string -> string): (acts: seq<Action>)
    ensures |acts| == |local|
    ensures forall i :: 0 <= i < |local| ==> acts[i] == Classify(local[i], remote, md5)
    decreases |local|
  {
    if local == [] then []
    else LocalActions(local[..|local| - 1], remote, md5) + [Classify(local[|local| - 1], remote, md5)]
  }

  /** The local paths that exist remotely: the remote entries marked seen. */
  function Seen(local: seq<LocalFile>, remote: seq<RemoteEntry>): set<string>
    decreases |local|
  {
    if local == [] then {}
    else
      var f := local[|local| - 1];
      Seen(local[..|local| - 1], remote) + (if FindRemote(remote, f.path).Some? then {f.path} else {})
  }

  /** The checksums the loop computes, by relative path. */
  function Hashed(local: seq<LocalFile>, remote: seq<RemoteEntry>, md5: string -> string): map<string, string>
    decreases |local|
  {
    if local == [] then map[]
    else
      var f := local[|local| - 1];
      var before := Hashed(local[..|local| - 1], remote, md5);
      if FindRemote(remote, f.path).Some? then before[f.path := md5(f.fullPath)] else before
  }

  /** The non-empty parent directories of new files. */
  function NewDirs(local: seq<LocalFile>, remote: seq<RemoteEntry>): set<string>
    decreases |local|
  {
    if local == [] then {}
    else
      var f := local[|local| - 1];
      var d := Dirname(f.path);
      NewDirs(local[..|local| - 1], remote)
        + (if FindRemote(remote, f.path).None? && d != "" then {d} else {})
  }

  /** A delete action for every remote file whose path is not in `seen`, in
      remote scan order. */
  function DeleteActions(remote: seq<RemoteEntry>, seen: set<string>): (acts: seq<Action>)
    ensures forall a :: a in acts ==> a.Delete?
    decreases |remote|
  {
    if remote == [] then []
    else
      var r := remote[|remote| - 1];
      DeleteActions(remote[..|remote| - 1], seen) + (if r.path !in seen then [Delete(r.path, r.id)] else [])
  }

  /** The remote folders without a local counterpart, in scan order. */
  function DirsToDelete(dirs: seq<RemoteDir>, localFolders: set<string>): seq<RemoteDir>
    decreases |dirs|
  {
    if dirs == [] then []
    else
      var d := dirs[|dirs| - 1];
      DirsToDelete(dirs[..|dirs| - 1], localFolders) + (if d.path !in localFolders then [d] else [])
  }

  /** The whole plan `sync_directory` computes. */
  function PlanOf(local: seq<LocalFile>, remote: seq<RemoteEntry>, dirs: seq<RemoteDir>,
                  localFolders: set<string>, delete: bool, md5: string -> string): Plan
  {
    var acts := LocalActions(local, remote, md5);
    if delete then
      Plan(acts + DeleteActions(remote, Seen(local, remote)), NewDirs(local, remote), DirsToDelete(dirs, localFolders))
    else
      Plan(acts, NewDirs(local, remote), [])
  }

  /** The loop over local files: one action per file, the parent directory
      of every new file, the paths marked seen and the checksums computed. */
  method CompareLocal(local: seq<LocalFile>, remote: seq<RemoteEntry>, md5: string -> string)
    returns (actions: seq<Action>, toCreate: set<string>, seen: set<string>, hashed: map<string, string>)
    ensures actions == LocalActions(local, remote, md5)
    ensures toCreate == NewDirs(local, remote)
    ensures seen == Seen(local, remote)
    ensures hashed == Hashed(local, remote, md5)
  {
    actions, toCreate, seen, hashed := [], {}, {}, map[];
    var i := 0;
    while i < |local|
      invariant 0 <= i <= |local|
      invariant actions == LocalActions(local[..i], remote, md5)
      invariant toCreate == NewDirs(local[..i], remote)
      invariant seen == Seen(local[..i], remote)
      invariant hashed == Hashed(local[..i], remote, md5)
    {
      var f := local[i];
      assert local[..i + 1][..i] == local[..i] && local[..i + 1][i] == f;
      match FindRemote(remote, f.path) {
        case Some(r) =>
          var sum := md5(f.fullPath);
          hashed := hashed[f.path := sum];
          if sum != r.etag {
            actions := actions + [Upload(f.path, ContentChanged, f.fullPath)];
          } else {
            actions := actions + [Skip(f.path)];
          }
          seen := seen + {f.path};
        case None =>
          actions := actions + [Upload(f.path, New, f.fullPath)];
          var d := Dirname(f.path);
          if d != "" {
            toCreate := toCreate + {d};
          }
      }
      i := i + 1;
    }
    assert local[..i] == local;
  }

  /** The loop over remote files: a delete for every one not seen. */
  method CollectDeletes(remote: seq<RemoteEntry>, seen: set<string>) returns (dels: seq<Action>)
    ensures dels == DeleteActions(remote, seen)
  {
    dels := [];
    var j := 0;
    while j < |remote|
      invariant 0 <= j <= |remote|
      invariant dels == DeleteActions(remote[..j], seen)
    {
      assert remote[..j + 1][..j] == remote[..j] && remote[..j + 1][j] == remote[j];
      if remote[j].path !in seen {
        dels := dels + [Delete(remote[j].path, remote[j].id)];
      }
      j := j + 1;
    }
    assert remote[..j] == remote;
  }

  /** The loop over remote folders: those without a local counterpart. */
  method CollectDirsToDelete(dirs: seq<RemoteDir>, localFolders: set<string>) returns (toDelete: seq<RemoteDir>)
    ensures toDelete == DirsToDelete(dirs, localFolders)
  {
    toDelete := [];
    var k := 0;
    while k < |dirs|
      invariant 0 <= k <= |dirs|
      invariant toDelete == DirsToDelete(dirs[..k], localFolders)
    {
      assert dirs[..k + 1][..k] == dirs[..k] && dirs[..k + 1][k] == dirs[k];
      if dirs[k].path !in localFolders {
        toDelete := toDelete + [dirs[k]];
      }
      k := k + 1;
    }
    assert dirs[..k] == dirs;
  }

  /** The comparison of `sync_directory`. Besides the plan it returns the
      checksums it computed, by relative path. */
  method PlanSync(local: seq<LocalFile>, remote: seq<RemoteEntry>, dirs: seq<RemoteDir>,
                  localFolders: set<string>, delete: bool, md5: string -> string)
    returns (plan: Plan, hashed: map<string, string>)
    ensures plan == PlanOf(local, remote, dirs, localFolders, delete, md5)
    ensures hashed == Hashed(local, remote, md5)
  {
    var actions, toCreate, seen;
    actions, toCreate, seen, hashed := CompareLocal(local, remote, md5);
    var toDelete: seq<RemoteDir> := [];
    if delete {
      var dels := CollectDeletes(remote, seen);
      actions := actions + dels;
      toDelete := CollectDirsToDelete(dirs, localFolders);
    }
    plan := Plan(actions, toCreate, toDelete);
  }

  // ---- properties of the plan ----

  /** The paths of the local scan. */
  function LocalPaths(local: seq<LocalFile>): set<string>
  {
    set i | 0 <= i < |local| :: local[i].path
  }

  /** A remote path is seen exactly when a local file has it. */
  lemma {:induction false} SeenExactly(local: seq<LocalFile>, remote: seq<RemoteEntry>, p: string)
    ensures p in Seen(local, remote) <==> p in LocalPaths(local) && FindRemote(remote, p).Some?
    decreases |local|
  {
    if local != [] {
      var init := local[..|local| - 1];
      SeenExactly(init, remote, p);
      if p in LocalPaths(local) {
        var i :| 0 <= i < |local| && local[i].path == p;
        if i < |local| - 1 { assert init[i] == local[i]; }
      }
      if p in LocalPaths(init) {
        var i :| 0 <= i < |init| && init[i].path == p;
        assert local[i] == init[i];
      }
    }
  }

  /** Each delete action names a remote file not seen, with its id, and
      every unseen remote file has exactly one. */
  lemma {:induction false} DeleteActionsExactly(remote: seq<RemoteEntry>, seen: set<string>, a: Action)
    ensures a in DeleteActions(remote, seen) <==>
              exists j :: 0 <= j < |remote| && remote[j].path !in seen && a == Delete(remote[j].path, remote[j].id)
    decreases |remote|
  {
    if remote != [] {
      var init := remote[..|remote| - 1];
      DeleteActionsExactly(init, seen, a);
      if exists j :: 0 <= j < |init| && init[j].path !in seen && a == Delete(init[j].path, init[j].id) {
        var j :| 0 <= j < |init| && init[j].path !in seen && a == Delete(init[j].path, init[j].id);
        assert remote[j] == init[j];
      }
      if exists j :: 0 <= j < |remote| && remote[j].path !in seen && a == Delete(remote[j].path, remote[j].id) {
        var j :| 0 <= j < |remote| && remote[j].path !in seen && a == Delete(remote[j].path, remote[j].id);
        if j < |remote| - 1 { assert init[j] == remote[j]; }
      }
    }
  }

  lemma {:induction false} DeleteCount(remote: seq<RemoteEntry>, seen: set<string>, p: string)
    requires DistinctRemote(remote)
    ensures Count(DeleteActions(remote, seen), (a: Action) => a.path == p) ==
              if exists j :: 0 <= j < |remote| && remote[j].path == p && p !in seen then 1 else 0
    decreases |remote|
  {
    if remote != [] {
      var init := remote[..|remote| - 1];
      var r := remote[|remote| - 1];
      assert DistinctRemote(init);
      DeleteCount(init, seen, p);
      var tail := if r.path !in seen then [Delete(r.path, r.id)] else [];
      CountAppend(DeleteActions(init, seen), tail, (a: Action) => a.path == p);
      if r.path == p {
        assert forall j :: 0 <= j < |init| ==> init[j].path != p by {
          forall j | 0 <= j < |init| ensures init[j].path != p {
            assert remote[j] == init[j];
          }
        }
      } else {
        if exists j :: 0 <= j < |remote| && remote[j].path == p && p !in seen {
          var j :| 0 <= j < |remote| && remote[j].path == p && p !in seen;
          assert init[j] == remote[j];
        }
        if exists j :: 0 <= j < |init| && init[j].path == p && p !in seen {
          var j :| 0 <= j < |init| && init[j].path == p && p !in seen;
          assert remote[j] == init[j];
        }
      }
    }
  }

  lemma {:induction false} LocalActionCount(local: seq<LocalFile>, remote: seq<RemoteEntry>, md5: string -> string, i: nat)
    requires DistinctLocal(local) && i < |local|
    ensures Count(LocalActions(local, remote, md5), (a: Action) => a.path == local[i].path) == 1
  {
    var acts := LocalActions(local, remote, md5);
    forall k | 0 <= k < |acts| ensures acts[k].path == local[k].path {
      assert acts[k] == Classify(local[k], remote, md5);
    }
    CountOne(acts, i, (a: Action) => a.path == local[i].path);
  }

  /** Every local path gets exactly one action, and it is the one the
      comparison with the remote file decides. */
  lemma {:induction false} ExactlyOneActionPerLocalFile(local: seq<LocalFile>, remote: seq<RemoteEntry>, dirs: seq<RemoteDir>,
                                     localFolders: set<string>, delete: bool, md5: string -> string, i: nat)
    requires DistinctLocal(local) && DistinctRemote(remote) && i < |local|
    ensures var acts := PlanOf(local, remote, dirs, localFolders, delete, md5).actions;
            && Count(acts, (a: Action) => a.path == local[i].path) == 1
            && acts[i] == Classify(local[i], remote, md5)
  {
    var p := local[i].path;
    LocalActionCount(local, remote, md5, i);
    if delete {
      var seen := Seen(local, remote);
      SeenExactly(local, remote, p);
      DeleteCount(remote, seen, p);
      assert p in LocalPaths(local);
      if exists j :: 0 <= j < |remote| && remote[j].path == p {
        var j :| 0 <= j < |remote| && remote[j].path == p;
        assert FindRemote(remote, p).Some?;
      }
      CountAppend(LocalActions(local, remote, md5), DeleteActions(remote, seen), (a: Action) => a.path == p);
    }
  }

  /** The comparison of one local file: `new` exactly when no remote file has
      its path, `content_changed` exactly when one has and the checksum
      differs from its ETag, `unchanged` exactly when they agree. */
  lemma {:induction false} ClassifyRule(f: LocalFile, remote: seq<RemoteEntry>, md5: string -> string)
    requires DistinctRemote(remote)
    ensures Classify(f, remote, md5) == Upload(f.path, New, f.fullPath) <==>
              forall j :: 0 <= j < |remote| ==> remote[j].path != f.path
    ensures Classify(f, remote, md5) == Upload(f.path, ContentChanged, f.fullPath) <==>
              exists j :: 0 <= j < |remote| && remote[j].path == f.path && md5(f.fullPath) != remote[j].etag
    ensures Classify(f, remote, md5) == Skip(f.path) <==>
              exists j :: 0 <= j < |remote| && remote[j].path == f.path && md5(f.fullPath) == remote[j].etag
  {
    match FindRemote(remote, f.path)
    case None =>
    case Some(r) =>
      var k :| 0 <= k < |remote| && remote[k] == r;
      assert forall j :: 0 <= j < |remote| && remote[j].path == f.path ==> j == k;
  }

  /** With `delete`, every remote file no local file has gets exactly one
      action, a delete carrying its id; every delete is of such a file. */
  lemma {:induction false} DeletesExactlyUnseen(local: seq<LocalFile>, remote: seq<RemoteEntry>, dirs: seq<RemoteDir>,
                             localFolders: set<string>, md5: string -> string)
    requires DistinctRemote(remote)
    ensures var acts := PlanOf(local, remote, dirs, localFolders, true, md5).actions;
            && (forall j :: 0 <= j < |remote| && remote[j].path !in LocalPaths(local) ==>
                  Count(acts, (a: Action) => a.path == remote[j].path) == 1
                  && Delete(remote[j].path, remote[j].id) in acts)
            && (forall a :: a in acts && a.Delete? ==>
                  exists j :: 0 <= j < |remote| && remote[j].path !in LocalPaths(local)
                              && a == Delete(remote[j].path, remote[j].id))
  {
    var seen := Seen(local, remote);
    var localActs := LocalActions(local, remote, md5);
    var dels := DeleteActions(remote, seen);
    forall j | 0 <= j < |remote| && remote[j].path !in LocalPaths(local)
      ensures Count(localActs + dels, (a: Action) => a.path == remote[j].path) == 1
      ensures Delete(remote[j].path, remote[j].id) in localActs + dels
    {
      var p := remote[j].path;
      SeenExactly(local, remote, p);
      DeleteCount(remote, seen, p);
      forall k | 0 <= k < |localActs| ensures localActs[k].path != p {
        assert localActs[k] == Classify(local[k], remote, md5);
        assert local[k].path in LocalPaths(local);
      }
      CountZero(localActs, (a: Action) => a.path == p);
      CountAppend(localActs, dels, (a: Action) => a.path == p);
      DeleteActionsExactly(remote, seen, Delete(p, remote[j].id));
    }
    forall k | 0 <= k < |localActs| ensures !localActs[k].Delete? {
      assert localActs[k] == Classify(local[k], remote, md5);
    }
    forall a | a in localActs + dels && a.Delete?
      ensures exists j :: 0 <= j < |remote| && remote[j].path !in LocalPaths(local)
                          && a == Delete(remote[j].path, remote[j].id)
    {
      assert a in dels;
      DeleteActionsExactly(remote, seen, a);
      var j :| 0 <= j < |remote| && remote[j].path !in seen && a == Delete(remote[j].path, remote[j].id);
      SeenExactly(local, remote, remote[j].path);
      assert FindRemote(remote, remote[j].path).Some?;
    }
  }

  /** Without `delete` nothing is deleted: no delete action, no folder. */
  lemma {:induction false} NoDeletesWithoutFlag(local: seq<LocalFile>, remote: seq<RemoteEntry>, dirs: seq<RemoteDir>,
                             localFolders: set<string>, md5: string -> string)
    ensures var plan := PlanOf(local, remote, dirs, localFolders, false, md5);
            && (forall a :: a in plan.actions ==> !a.Delete?)
            && plan.foldersToDelete == []
  {
    var acts := LocalActions(local, remote, md5);
    forall a | a in acts ensures !a.Delete? {
      var k :| 0 <= k < |acts| && acts[k] == a;
      assert acts[k] == Classify(local[k], remote, md5);
    }
  }

  /** With `delete`, the folders queued for deletion are exactly the remote
      folders without a local counterpart, in scan order. */
  lemma {:induction false} FoldersToDeleteExactly(dirs: seq<RemoteDir>, localFolders: set<string>)
    ensures forall d :: d in DirsToDelete(dirs, localFolders) <==> d in dirs && d.path !in localFolders
    ensures Subsequence(DirsToDelete(dirs, localFolders), dirs)
    decreases |dirs|
  {
    if dirs != [] {
      var init := dirs[..|dirs| - 1];
      var d := dirs[|dirs| - 1];
      FoldersToDeleteExactly(init, localFolders);
      assert dirs == init + [d];
      SubsequenceSnoc(DirsToDelete(init, localFolders), init, d, d.path !in localFolders);
    }
  }

  /** Local file `f` is new and lies in directory `d`. */
  predicate NewIn(f: LocalFile, remote: seq<RemoteEntry>, d: string)
  {
    FindRemote(remote, f.path).None? && Dirname(f.path) == d
  }

  /** The folders to create are exactly the non-empty parent directories of
      the files no remote file has. */
  lemma {:induction false} FoldersToCreateExactly(local: seq<LocalFile>, remote: seq<RemoteEntry>, d: string)
    ensures d in NewDirs(local, remote) <==> d != "" && exists i :: 0 <= i < |local| && NewIn(local[i], remote, d)
    decreases |local|
  {
    if local != [] {
      var init := local[..|local| - 1];
      var f := local[|local| - 1];
      FoldersToCreateExactly(init, remote, d);
      assert d in NewDirs(local, remote) <==> d in NewDirs(init, remote) || (d != "" && NewIn(f, remote, d));
      if d in NewDirs(init, remote) {
        var i :| 0 <= i < |init| && NewIn(init[i], remote, d);
        assert local[i] == init[i];
      }
      forall i | 0 <= i < |local| - 1 && NewIn(local[i], remote, d)
        ensures 0 <= i < |init| && NewIn(init[i], remote, d)
      {
        assert init[i] == local[i];
      }
    }
  }

  /** A checksum is computed exactly for the local files some remote file
      has, and it is `md5` of the file's full path. */
  lemma {:induction false} HashedOnlyRemote(local: seq<LocalFile>, remote: seq<RemoteEntry>, md5: string -> string, p: string)
    requires DistinctLocal(local)
    ensures p in Hashed(local, remote, md5) <==> p in LocalPaths(local) && FindRemote(remote, p).Some?
    ensures forall i :: 0 <= i < |local| && local[i].path == p && p in Hashed(local, remote, md5) ==>
              Hashed(local, remote, md5)[p] == md5(local[i].fullPath)
    decreases |local|
  {
    if local != [] {
      var init := local[..|local| - 1];
      var f := local[|local| - 1];
      assert DistinctLocal(init);
      HashedOnlyRemote(init, remote, md5, p);
      SeenExactly(local, remote, p);
      SeenExactly(init, remote, p);
      forall i | 0 <= i < |local| && local[i].path == p && p in Hashed(local, remote, md5)
        ensures Hashed(local, remote, md5)[p] == md5(local[i].fullPath)
      {
        if i < |local| - 1 {
          assert init[i] == local[i];
          assert f.path != p;
        }
      }
    }
  }
}
