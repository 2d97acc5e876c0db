/**
 * The execution half of the sync: `_execute_sync_actions` and the
 * `sync_directory` entry point around it.
 *
 * The executor creates the folders the uploads need, uploads every upload
 * action into the folder its directory maps to, deletes the files and then
 * the folders the plan lists, deepest folder first, and tallies what
 * succeeded. Whether an upload, a file deletion or a folder deletion
 * succeeds is an oracle, since each is one HTTP request.
 *
 * The uploads of the source only find their folder when that folder was
 * resolved by the folder pass, and the folder pass only resolves the
 * directories of new files; `ResolveSetAsWritten` is that set and
 * `ResolveSet` the corrected one, which also holds the directories of
 * changed files. `ExecuteSync` runs either version; `SyncDirectory` runs
 * the one as written.
 */
module SyncExec {
  import opened Wrappers
  import opened Seqs
  import opened Paths
  import opened Folders
  import opened RemoteStore
  import opened SyncPlan
  import opened PathOrder
  import opened SyncMkdirs

  /** The `stats` dict. */
  datatype Stats = Stats(uploaded: nat, deleted: nat, skipped: nat, errors: nat,
                         foldersCreated: nat, foldersDeleted: nat)

  const NoStats := Stats(0, 0, 0, 0, 0, 0)

  predicate IsUpload(a: Action) { a.Upload? }
  predicate IsSkip(a: Action) { a.Skip? }

  /** `upload_actions`: the upload actions, in plan order. */
  function Uploads(actions: seq<Action>): (ups: seq<Action>)
    ensures forall i :: 0 <= i < |ups| ==> ups[i].Upload? && ups[i] in actions
  {
    var r := Filter(actions, IsUpload);
    assert forall i :: 0 <= i < |r| ==> r[i] in r;
    r
  }

  /** The file ids of the delete actions, in plan order: what the file
      deletion loop hands to `delete_file`. */
  function DeletedIds(actions: seq<Action>): (ids: seq<int>)
    ensures |ids| == Count(actions, (a: Action) => a.Delete?)
    decreases |actions|
  {
    if actions == [] then []
    else (if actions[0].Delete? then [actions[0].fileId] else []) + DeletedIds(actions[1..])
  }

  /** The folder ids of a list of folders, in order: what the folder
      deletion loop hands to `delete_folder`. */
  function FolderIds(ds: seq<RemoteDir>): (ids: seq<int>)
    ensures |ids| == |ds|
    ensures forall i :: 0 <= i < |ds| ==> ids[i] == ds[i].id
    decreases |ds|
  {
    if ds == [] then [] else FolderIds(ds[..|ds| - 1]) + [ds[|ds| - 1].id]
  }

  /** The key an upload looks its folder up by: the file's directory, or `.`
      for a file at the top. */
  function DirKey(path: string): string
  {
    var d := Dirname(path);
    if d != "" then d else "."
  }

  /** `folder_id_map.get(dir, remote_folder_id)`. */
  function UploadTarget(path: string, ids: map<string, FolderId>, root: FolderId): FolderId
  {
    var k := DirKey(path);
    if k in ids then ids[k] else root
  }

  /** Where one upload goes: the file's relative path, its local path and the
      folder it is uploaded into. */
  datatype Placement = Placement(path: string, localPath: string, folder: FolderId)

  /** The placements of the uploads, in order. */
  function Placements(ups: seq<Action>, ids: map<string, FolderId>, root: FolderId): (r: seq<Placement>)
    requires forall i :: 0 <= i < |ups| ==> ups[i].Upload?
    ensures |r| == |ups|
    decreases |ups|
  {
    if ups == [] then []
    else
      var a := ups[|ups| - 1];
      Placements(ups[..|ups| - 1], ids, root) + [Placement(a.path, a.localPath, UploadTarget(a.path, ids, root))]
  }

  /** The `i`-th upload goes, under its own path and local path, to the
      folder `folder_id_map.get` gives for its directory. */
  lemma {:induction false} PlacementsAt(ups: seq<Action>, ids: map<string, FolderId>, root: FolderId, i: nat)
    requires forall k :: 0 <= k < |ups| ==> ups[k].Upload?
    requires i < |ups|
    ensures Placements(ups, ids, root)[i] == Placement(ups[i].path, ups[i].localPath, UploadTarget(ups[i].path, ids, root))
    decreases |ups|
  {
    if i < |ups| - 1 {
      PlacementsAt(ups[..|ups| - 1], ids, root, i);
    }
  }

  /** Placing one more upload appends its placement. */
  lemma {:induction false} PlacementsSnoc(ups: seq<Action>, ids: map<string, FolderId>, root: FolderId, i: nat)
    requires forall k :: 0 <= k < |ups| ==> ups[k].Upload?
    requires i < |ups|
    ensures Placements(ups[..i + 1], ids, root)
              == Placements(ups[..i], ids, root) + [Placement(ups[i].path, ups[i].localPath, UploadTarget(ups[i].path, ids, root))]
  {
    assert ups[..i + 1][..i] == ups[..i];
  }

  /** The directories of all uploaded files below the top. */
  function UploadDirs(actions: seq<Action>): set<string>
  {
    set a | a in actions && a.Upload? && Dirname(a.path) != "" :: Dirname(a.path)
  }

  /** The folders the source resolves before uploading: `folders_to_create`. */
  function ResolveSetAsWritten(plan: Plan): set<string>
  {
    plan.foldersToCreate
  }

  /** The folders the corrected executor resolves: also the directories of
      every upload, so that a changed file finds its folder. */
  function ResolveSet(plan: Plan): (r: set<string>)
    ensures ResolveSetAsWritten(plan) <= r
    ensures UploadDirs(plan.actions) <= r
  {
    plan.foldersToCreate + UploadDirs(plan.actions)
  }

  // ---- the loops ----

  /** A loop that makes one request per element and counts the successes in
      one counter and the failures in `errors`. */
  method Tally<T>(s: seq<T>, ok: T -> bool) returns (good: nat, bad: nat)
    ensures good == Count(s, ok)
    ensures good + bad == |s|
  {
    good, bad := 0, 0;
    var i := 0;
    while i < |s|
      invariant 0 <= i <= |s|
      invariant good == Count(s[..i], ok) && good + bad == i
    {
      assert s[..i + 1] == s[..i] + [s[i]];
      CountSnoc(s[..i], s[i], ok);
      if ok(s[i]) {
        good := good + 1;
      } else {
        bad := bad + 1;
      }
      i := i + 1;
    }
    assert s[..|s|] == s;
  }

  /** The upload loop: each upload goes to the folder its directory maps to,
      and succeeds or fails as `uploadOk` says. */
  method UploadAll(ups: seq<Action>, ids: map<string, FolderId>, root: FolderId, uploadOk: Placement -> bool)
    returns (placed: seq<Placement>, uploaded: nat, failed: nat)
    requires forall i :: 0 <= i < |ups| ==> ups[i].Upload?
    ensures placed == Placements(ups, ids, root)
    ensures uploaded == Count(placed, uploadOk)
    ensures uploaded + failed == |ups|
  {
    placed, uploaded, failed := [], 0, 0;
    var i := 0;
    while i < |ups|
      invariant 0 <= i <= |ups|
      invariant placed == Placements(ups[..i], ids, root)
      invariant uploaded == Count(placed, uploadOk) && uploaded + failed == i
    {
      var a := ups[i];
      var p := Placement(a.path, a.localPath, UploadTarget(a.path, ids, root));
      PlacementsSnoc(ups, ids, root, i);
      CountSnoc(placed, p, uploadOk);
      placed := placed + [p];
      if uploadOk(p) {
        uploaded := uploaded + 1;
      } else {
        failed := failed + 1;
      }
      i := i + 1;
    }
    assert ups[..|ups|] == ups;
  }

  // ---- the executor ----

  /** The counters after the three request loops: each success counter
      counts the successful requests of its loop, `folders_created` the
      folders the folder pass created, and `errors` the failures of the
      folder pass and of the three loops. */
  predicate Tallied(stats: Stats, mk: Mkdirs, placed: seq<Placement>, dels: seq<int>, rms: seq<int>, skipped: nat,
                    uploadOk: Placement -> bool, deleteOk: int -> bool, rmdirOk: int -> bool)
  {
    && stats.foldersCreated == mk.created
    && stats.uploaded == Count(placed, uploadOk)
    && stats.deleted == Count(dels, deleteOk)
    && stats.foldersDeleted == Count(rms, rmdirOk)
    && stats.skipped == skipped
    && stats.uploaded + stats.deleted + stats.foldersDeleted + stats.errors
         == mk.errors + |placed| + |dels| + |rms|
  }

  /** The folders the executor resolves before uploading: as written, or
      corrected. */
  function ResolveSetFor(plan: Plan, corrected: bool): (r: set<string>)
    ensures !corrected ==> r == plan.foldersToCreate
    ensures corrected ==> r == plan.foldersToCreate + UploadDirs(plan.actions)
  {
    if corrected then ResolveSet(plan) else ResolveSetAsWritten(plan)
  }

  /** What `_execute_sync_actions` leaves behind, given the sorted folder
      order it used: in a dry run nothing is done and every counter is 0;
      otherwise the folders of `order` are resolved or created first, the
      uploads go where the resulting map sends them, the file deletions and
      then the folder deletions, deepest first, are requested, and the
      counters are tallied. With `corrected` false this is the code as
      written: `order` is `sorted(folders_to_create)` and a known prefix
      does not become the next parent; with `corrected` true the
      directories of all uploads are resolved and a known prefix does
      become the next parent. */
  predicate Executed(plan: Plan, root: FolderId, dryRun: bool, corrected: bool, store: Store,
                     uploadOk: Placement -> bool, deleteOk: int -> bool, rmdirOk: int -> bool,
                     order: seq<string>, stats: Stats, final: Store, placed: seq<Placement>)
    requires Fresh(store)
  {
    if dryRun then stats == NoStats && final == store && placed == []
    else
      && StrictlySorted(order)
      && (forall x :: x in order ==> x in ResolveSetFor(plan, corrected))
      && (forall x :: x in ResolveSetFor(plan, corrected) ==> x in order)
      && var mk := CreateAll(Start(store, root), order, root, corrected);
      && final == mk.store
      && placed == Placements(Uploads(plan.actions), mk.ids, root)
      && Tallied(stats, mk, placed, DeletedIds(plan.actions), FolderIds(ByDepthDesc(plan.foldersToDelete)),
                 Count(plan.actions, IsSkip), uploadOk, deleteOk, rmdirOk)
  }

  /** `_execute_sync_actions`, as written when `corrected` is false, and
      with the corrected folder pass when it is true. */
  method ExecuteSync(plan: Plan, root: FolderId, dryRun: bool, corrected: bool, store: Store,
                     uploadOk: Placement -> bool, deleteOk: int -> bool, rmdirOk: int -> bool)
    returns (stats: Stats, final: Store, order: seq<string>, placed: seq<Placement>)
    requires Fresh(store)
    ensures Executed(plan, root, dryRun, corrected, store, uploadOk, deleteOk, rmdirOk, order, stats, final, placed)
  {
    if dryRun {
      return NoStats, store, [], [];
    }
    order := SortPaths(ResolveSetFor(plan, corrected));
    var mk := CreateFolders(store, root, order, corrected);
    final := mk.store;
    var ups := Uploads(plan.actions);
    assert forall i :: 0 <= i < |ups| ==> ups[i] in ups;
    var uploaded, upFailed;
    placed, uploaded, upFailed := UploadAll(ups, mk.ids, root, uploadOk);
    var deleted, delFailed := Tally(DeletedIds(plan.actions), deleteOk);
    var removed, rmFailed := Tally(FolderIds(ByDepthDesc(plan.foldersToDelete)), rmdirOk);
    var skips := Filter(plan.actions, IsSkip);
    FilterCount(plan.actions, IsSkip);
    stats := Stats(uploaded, deleted, |skips|, mk.errors + upFailed + delFailed + rmFailed, mk.created, removed);
  }

  /** The outcome of `sync_directory`. */
  datatype SyncOutcome = RemoteFolderNotFound | Synced(stats: Stats)

  /** `sync_directory`: fetch the remote folder, plan against the scans, then
      execute the plan with the executor as written. The scans of both sides
      are inputs. */
  method SyncDirectory(local: seq<LocalFile>, remote: seq<RemoteEntry>, dirs: seq<RemoteDir>,
                       localFolders: set<string>, delete: bool, dryRun: bool, md5: string -> string,
                       root: FolderId, store: Store,
                       uploadOk: Placement -> bool, deleteOk: int -> bool, rmdirOk: int -> bool)
    returns (out: SyncOutcome, plan: Plan, order: seq<string>, placed: seq<Placement>, final: Store)
    requires Fresh(store)
    ensures root !in store.details ==> out == RemoteFolderNotFound && final == store
    ensures root in store.details ==>
              && out.Synced?
              && plan == PlanOf(local, remote, dirs, localFolders, delete, md5)
              && Executed(plan, root, dryRun, false, store, uploadOk, deleteOk, rmdirOk, order, out.stats, final, placed)
  {
    if root !in store.details {
      return RemoteFolderNotFound, Plan([], {}, []), [], [], store;
    }
    var hashed;
    plan, hashed := PlanSync(local, remote, dirs, localFolders, delete, md5);
    var stats;
    stats, final, order, placed := ExecuteSync(plan, root, dryRun, false, store, uploadOk, deleteOk, rmdirOk);
    out := Synced(stats);
  }

  // ---- what the executor guarantees ----

  /** `errors` is at least the folder pass's errors, and equals them exactly
      when every upload, file deletion and folder deletion request
      succeeded; no success counter exceeds the requests of its loop. */
  lemma {:induction false} ErrorsCountFailures(stats: Stats, mk: Mkdirs, placed: seq<Placement>, dels: seq<int>, rms: seq<int>,
                            skipped: nat, uploadOk: Placement -> bool, deleteOk: int -> bool, rmdirOk: int -> bool)
    requires Tallied(stats, mk, placed, dels, rms, skipped, uploadOk, deleteOk, rmdirOk)
    ensures stats.uploaded <= |placed| && stats.deleted <= |dels| && stats.foldersDeleted <= |rms|
    ensures stats.errors >= mk.errors
    ensures stats.errors == mk.errors <==>
              && (forall i :: 0 <= i < |placed| ==> uploadOk(placed[i]))
              && (forall i :: 0 <= i < |dels| ==> deleteOk(dels[i]))
              && (forall i :: 0 <= i < |rms| ==> rmdirOk(rms[i]))
  {
    CountAll(placed, uploadOk);
    CountAll(dels, deleteOk);
    CountAll(rms, rmdirOk);
  }

  /** Every action is exactly one of an upload, a skip and a delete, so the
      three lists the executor builds add up to the plan. */
  lemma {:induction false} ActionKindsPartition(actions: seq<Action>)
    ensures Count(actions, IsUpload) + Count(actions, IsSkip) + |DeletedIds(actions)| == |actions|
    decreases |actions|
  {
    if actions != [] {
      ActionKindsPartition(actions[1..]);
    }
  }

  /** A run, as written or corrected, executes one upload per upload action,
      one file deletion per delete action and one folder deletion per queued
      folder. */
  lemma {:induction false} RequestsMatchPlan(plan: Plan, root: FolderId, corrected: bool, store: Store,
                          uploadOk: Placement -> bool, deleteOk: int -> bool, rmdirOk: int -> bool,
                          order: seq<string>, stats: Stats, final: Store, placed: seq<Placement>)
    requires Fresh(store)
    requires Executed(plan, root, false, corrected, store, uploadOk, deleteOk, rmdirOk, order, stats, final, placed)
    ensures |placed| + stats.skipped + |DeletedIds(plan.actions)| == |plan.actions|
    ensures |FolderIds(ByDepthDesc(plan.foldersToDelete))| == |plan.foldersToDelete|
  {
    FilterCount(plan.actions, IsUpload);
    ActionKindsPartition(plan.actions);
    assert |multiset(ByDepthDesc(plan.foldersToDelete))| == |multiset(plan.foldersToDelete)|;
  }

  /** The folders a file's directory walks through from the synced folder:
      all components of its path but the last. */
  function DirComponents(path: string): (dirs: seq<string>)
    ensures |dirs| == |Components(path)| - 1
  {
    var cs := Components(path);
    cs[..|cs| - 1]
  }

  /** With the corrected executor on a healthy server, when the folder pass
      counts no error, every file is uploaded into the folder its directory
      names: the folder reached by walking the directory's components down
      from the synced folder. */
  lemma {:induction false} UploadsLandInTheirFolders(plan: Plan, root: FolderId, store: Store,
                                  uploadOk: Placement -> bool, deleteOk: int -> bool, rmdirOk: int -> bool,
                                  order: seq<string>, stats: Stats, final: Store, placed: seq<Placement>)
    requires Healthy(store, root)
    requires Executed(plan, root, false, true, store, uploadOk, deleteOk, rmdirOk, order, stats, final, placed)
    requires forall d :: d in plan.foldersToCreate ==> NormalPath(d)
    requires forall a :: a in plan.actions && a.Upload? ==> NormalPath(a.path)
    requires CreateAll(Start(store, root), order, root, true).errors == 0
    ensures forall p :: p in placed ==> Walk(final, root, DirComponents(p.path)) == Some(p.folder)
  {
    var mk := CreateAll(Start(store, root), order, root, true);
    forall i | 0 <= i < |order| ensures NormalPath(order[i]) {
      assert order[i] in ResolveSetFor(plan, true);
      if order[i] !in plan.foldersToCreate {
        var a :| a in plan.actions && a.Upload? && Dirname(a.path) != "" && order[i] == Dirname(a.path);
        DirnameComponents(a.path);
      }
    }
    FoldersResolved(store, root, order);
    var ups := Uploads(plan.actions);
    forall p | p in placed ensures Walk(final, root, DirComponents(p.path)) == Some(p.folder) {
      var i :| 0 <= i < |placed| && placed[i] == p;
      var a := ups[i];
      PlacementsAt(ups, mk.ids, root, i);
      DirnameComponents(a.path);
      var d := Dirname(a.path);
      if d == "" {
        assert DirComponents(a.path) == [];
      } else {
        assert d in UploadDirs(plan.actions);
        assert d in order;
        var j :| 0 <= j < |order| && order[j] == d;
        DotNotNormal();
      }
    }
  }

  /** A plan made from a scan of normalised relative paths meets the path
      requirements of `UploadsLandInTheirFolders`. */
  lemma {:induction false} PlanPathsNormal(local: seq<LocalFile>, remote: seq<RemoteEntry>, dirs: seq<RemoteDir>,
                                           localFolders: set<string>, delete: bool, md5: string -> string)
    requires forall i :: 0 <= i < |local| ==> NormalPath(local[i].path)
    ensures var plan := PlanOf(local, remote, dirs, localFolders, delete, md5);
            && (forall d :: d in plan.foldersToCreate ==> NormalPath(d))
            && (forall a :: a in plan.actions && a.Upload? ==> NormalPath(a.path))
    decreases |local|
  {
    var plan := PlanOf(local, remote, dirs, localFolders, delete, md5);
    var acts := LocalActions(local, remote, md5);
    forall a | a in plan.actions && a.Upload? ensures NormalPath(a.path) {
      if delete {
        var dels := DeleteActions(remote, Seen(local, remote));
        assert a in acts + dels;
        assert a !in dels;
      }
      var i :| 0 <= i < |acts| && acts[i] == a;
    }
    if local != [] {
      var init := local[..|local| - 1];
      PlanPathsNormal(init, remote, dirs, localFolders, delete, md5);
      DirnameComponents(local[|local| - 1].path);
    }
  }
}
