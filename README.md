# A verified model of the object-storage command-line client

`object_storage_cli.py` is a command-line client for a remote object store.
This project models, in Dafny, the parts of it that decide things rather
than print or talk to the network:

- the rsync-like **sync** of a local directory into a remote folder:
  - the planner (`sync_directory`) gives every local file exactly one
    action, `upload/new`, `upload/content_changed` or `skip`, and with
    `--delete` queues unseen remote files and folders for deletion;
  - the executor (`_execute_sync_actions`) creates the parent folders of
    new files, uploads, deletes files and then folders, deepest first, and
    tallies statistics. It is modelled twice, as written and corrected for
    the two findings below, and `sync_directory` runs the version as
    written;
- the **folder hierarchy** (`_build_folder_hierarchy`): roots are the
  folders whose parent is missing or not accessible, and each node's
  children are the folders that point at it, in input order;
- **path resolution** (`resolve_folder_path`, `resolve_file_path`): a root
  by name, then one name-matched subfolder per component, optionally
  creating missing folders;
- **mount-point matching** (`check_folder_mount`): the longest
  `/objects/...` mount that contains the path, falling back to `/objects`;
- the interactive **browser**, a class whose fields are `current_folder`,
  `folder_stack`, `current_files`, `current_subfolders` and the display
  map, with `select`, `enter`, `back` and `home`;
- small helpers:
  - the `Content-Disposition` file name;
  - the public-link validity rule;
  - the `overwrite` form field;
  - the splitting of a nested `mkdir` path.

The server is a value (`RemoteStore.Store`). It holds the folder listings,
file listings and folder details the server would answer with, and a
missing key stands for a failed request. Folder creation gives out fresh
ids, and a set of refused creations models a failing `POST`. Scans of the
local directory and of the remote tree are inputs. The md5 of a local file
is an uninterpreted function of its full path. Whether an upload or a
deletion succeeds is an oracle, since each is one HTTP request whose answer
the model does not see.

Files, one module each:

- `wrappers.dfy`: the `Option` type.
- `seqs.dfy`: filtering, counting, first-match search and subsequences.
- `paths.dfy`: Python's `str.split`, `str.join`, `str.strip`, `posixpath.join` and `posixpath.dirname`.
- `folders.dfy`: the folder hierarchy.
- `store.dfy`: the server, descent by name, and folder creation.
- `resolve.dfy`: path resolution.
- `mount.dfy`: mount-point matching.
- `navigation.dfy`: the browser.
- `helpers.dfy`: the small helpers.
- `sync_plan.dfy`: the planner.
- `path_order.dfy`: the two orders of the executor, `sorted(...)` on paths and depth-descending on folders.
- `mkdirs.dfy`: the executor's folder pass.
- `sync_exec.dfy`: the executor and `sync_directory`.
- `findings.dfy`: the two counterexamples below.

## Model

| member | source | states |
|---|---|---|
| Folders.BuildTree | object_storage_cli.py:243-257 | `build_tree` yields one node per folder of the level, in the level's order; it terminates on a list with unique ids because each level descends one step of a chain of distinct ancestors |
| Folders.HierarchyShape | object_storage_cli.py:228-259 | the top level of the hierarchy is exactly the folders whose parent is None or not an accessible id, in input order, and every node's children are exactly the folders pointing at it, in input order |
| Folders.ChildrenExactly | object_storage_cli.py:251-253 | a node's children are the folders whose `parent_id` is the node's id, and they keep the input order |
| Navigation.RootIndex | object_storage_cli.py:269-286 | the display map numbers the top-level folders 1..n, number k naming the k-th |
| Navigation.DisplayedAreRoots | object_storage_cli.py:283-286 | the indices `select` accepts after a listing are exactly 1..(number of roots), and each names an accessible root folder |
| Navigation.Browser.constructor | object_storage_cli.py:139-147 | a new browser has no folder, an empty stack, empty listings and an empty display map |
| Navigation.Browser.SetAccessible | object_storage_cli.py:186 | the accessible-folder list is the server's answer |
| Navigation.Browser.ListAccessibleFolders | object_storage_cli.py:214-227 | in JSON mode the display map is untouched; otherwise it is rebuilt as the numbering of the hierarchy's roots |
| Navigation.Browser.Refresh | object_storage_cli.py:356-397 | fails without a folder; otherwise replaces the files, then the subfolders, stopping at the first failed listing, and succeeds exactly when both listings exist |
| Navigation.Browser.SelectFolder | object_storage_cli.py:326-354 | refuses an index not in the display map and changes nothing; otherwise the stack becomes exactly the selected folder, fetched afresh when the server answers, and the listings are refreshed |
| Navigation.Browser.EnterSubfolder | object_storage_cli.py:448-478 | refuses without a folder or with an index outside 1..len(subfolders) and changes nothing; otherwise pushes exactly that subfolder, as the server describes it when the detail request succeeds, makes it current and refreshes the listings |
| Navigation.Browser.GoBack | object_storage_cli.py:480-511 | refuses without a folder or with a stack of length at most 1; otherwise pops exactly one folder, and the current folder is the new top or the server's copy of it |
| Navigation.Browser.Home | object_storage_cli.py:1265-1272 | empties the current folder, the stack, the files and the subfolders, and lists the roots again |
| Seqs.FirstWhere | object_storage_cli.py:1891-1896 | a `for ... break` search returns an element that matches and that no earlier element matches, and none exactly when no element does |
| RemoteStore.FirstNamed | object_storage_cli.py:1891-1896 | the name search finds a listed folder with that name that no earlier listed folder shares, and finds none exactly when no listed folder has it |
| RemoteStore.FirstNamedExtends | object_storage_cli.py:1891-1896 | a name already matched in a listing keeps the same first match after folders are added at the listing's end |
| RemoteStore.FindNamed | object_storage_cli.py:1891-1896 | the search loop returns what `FirstNamed` specifies |
| RemoteStore.Fetched | object_storage_cli.py:337-350 | the record fetched for a folder keeps its id when the server's details are keyed by id, and is the listed record itself when the detail request fails |
| RemoteStore.CreateFolder | object_storage_cli.py:1742-1775 | a refused creation changes nothing; otherwise the new folder gets a fresh id, is listed last under its parent (no parent sent when the id is falsy), has empty listings, and no other listing changes |
| RemoteStore.CreateFolderKeeps | object_storage_cli.py:1742-1775 | creating a folder keeps every folder id positive, and when every listed folder could be listed before, it still can |
| RemoteStore.WalkCreate | object_storage_cli.py:1872-1922 | the descent only adds folders to the server, and without `create_missing` it is the plain walk and leaves the server unchanged |
| RemoteStore.WalkCreateAt | object_storage_cli.py:1872-1915 | the descent from component `i` on is the step for that component followed, unless it failed, by the descent through the rest from the folder it reached, on the server it left |
| RemoteStore.WalkStable | object_storage_cli.py:1876-1915 | a successful descent gives the same folder after the server has only gained folders |
| RemoteStore.CreatedPathResolves | object_storage_cli.py:1898-1909 | after a descent that created the missing folders, walking the same names without creating reaches the same folder |
| Resolve.FindRootFolder | object_storage_cli.py:1847-1861 | the root search returns the first accessible folder with that name whose parent is None or not accessible |
| Resolve.FirstRootFrom | object_storage_cli.py:1649-1661 | a found root is accessible, has the name and is a root, and no accessible folder before it from the start position is a named root; none is found exactly when no accessible folder from there on is a root with that name |
| Resolve.DescendOne | object_storage_cli.py:1876-1915 | one component of the descent: the first matching subfolder; otherwise nothing without `create_missing`; otherwise the created folder, or nothing when the creation fails |
| Resolve.DescendCreating | object_storage_cli.py:1872-1915 | the descent loop of `resolve_folder_path` computes `WalkCreate` over all remaining components |
| Resolve.ResolveFolderPath | object_storage_cli.py:1829-1922 | the resolution loop computes `ResolveFolder`: None for an empty path or an unknown root, the root's id for one component, and otherwise the descent, creating folders when asked |
| Resolve.ResolvedFolderIsWalked | object_storage_cli.py:1868-1922 | without `create_missing`, a path resolves to where walking its components from its root ends, and the server is unchanged |
| Resolve.CreateThenResolve | object_storage_cli.py:1898-1909 | resolving a path again without creating, after it was resolved with `create_missing`, finds the same folder |
| Resolve.FoundRootIsHierarchyRoot | object_storage_cli.py:1649-1661 | the root a path starts from is a top-level folder of the hierarchy, since both use the same root rule |
| Resolve.RootRule | object_storage_cli.py:1650-1661 | an accessible folder with the name and no accessible parent makes the root search succeed |
| Resolve.ResolveFilePath | object_storage_cli.py:1631-1740 | the resolution loops compute `ResolveFile`: a root by name, the folder components walked, then the first file with the last component's name |
| Resolve.Descend | object_storage_cli.py:1674-1705 | the descent loop of `resolve_file_path` computes `Walk`: nothing as soon as a listing fails or no subfolder has the name, otherwise the last folder reached |
| Resolve.FindFileNamed | object_storage_cli.py:1728-1731 | the file search loop returns what `FirstFileNamed` specifies |
| Resolve.FilePathNeedsFolder | object_storage_cli.py:1668-1672 | a path with a single component never resolves to a file |
| Resolve.ResolvedFileIsInFolder | object_storage_cli.py:1674-1731 | a resolved file id belongs to a file named by the last component, listed in the folder the other components lead to |
| Resolve.FirstFileNamed | object_storage_cli.py:1728-1731 | the file search finds a listed file with that name that no earlier listed file shares, and none exactly when no file has it |
| Mount.ObjectMounts | object_storage_cli.py:1597-1602 | every candidate mount point starts with `/objects/` |
| Mount.ObjectMountsExactly | object_storage_cli.py:1597-1602 | the candidates are exactly the second fields that start with `/objects/`, taken from lines with at least two fields |
| Mount.FieldsOfJoin | object_storage_cli.py:1600 | `split()` of words joined by single spaces gives back the words |
| Mount.SortByLength | object_storage_cli.py:1604-1605 | the mount points are sorted longest first, and the result is a permutation of its input |
| Mount.SortByLengthMembers | object_storage_cli.py:1604-1605 | sorting by length keeps exactly the same mount points |
| Mount.FirstCovering | object_storage_cli.py:1607-1613 | the scan returns a mount point equal to the path or a prefix of it ending at a `/`, and none exactly when no mount point does |
| Mount.CheckFolderMount | object_storage_cli.py:1578-1629 | there is an answer exactly when the path exists, and its local path is `/objects/` followed by the file path |
| Mount.MountIsLongestMatch | object_storage_cli.py:1584-1629 | the mount point reported is the unique longest `/objects/` mount containing the path; it is `/objects` when none contains it or the mount table is unreadable; there is no answer when the path does not exist |
| Mount.FirstCoveringIsLongest | object_storage_cli.py:1604-1613 | on a list sorted longest first, the first covering mount point is at least as long as any other mount point that covers the path |
| Mount.LongestCovering | object_storage_cli.py:1604-1613 | when some mount point contains the path, the scan of the sorted list finds one of them, and every other one that contains the path is shorter |
| Mount.NoCovering | object_storage_cli.py:1607-1613 | when no mount point contains the path, the scan finds none |
| Mount.MountLineMountPoint | object_storage_cli.py:1597-1602 | a mount-table line whose second field starts with `/objects/` contributes that field |
| Helpers.FindFrom | object_storage_cli.py:551 | substring search finds the first occurrence at or after the start, or reports that there is none |
| Helpers.DownloadFilename | object_storage_cli.py:549-553 | without a header, with an empty header or with no `filename=` in it, the name is `file_` followed by the id as `download_file` received it: the text typed after `--download`, or the decimal form of the id `--download-path` resolved |
| Helpers.DecimalNoLeadingZero | object_storage_cli.py:2511-2524 | the decimal form of a resolved id starts with `0` only for id 0, so a typed id such as `007` gives a name no resolved id gives |
| Helpers.FilenameUnquoted | object_storage_cli.py:551 | a name taken from the header neither begins nor ends with a quote |
| Helpers.FilenameFromAttachment | object_storage_cli.py:549-553 | for `attachment; filename="<name>"`, with a name that has no `=` and no quote at either end, the download is saved under that name |
| Helpers.MaxDownloadsRule | object_storage_cli.py:886-908 | a given `is_valid` is final and a `null` one reads as invalid; when the key is missing, a `null` `download_count` beside a non-null `max_downloads` raises, and otherwise an expired link is invalid (also with no cap and a `null` count), a link with a cap is valid exactly while downloads are below it (count 0 when missing), and any other link is valid |
| Helpers.ValidityMonotone | object_storage_cli.py:904-908 | more downloads never turn a computed verdict from invalid to valid |
| Helpers.ShownVerdicts | object_storage_cli.py:884-937 | the link loop shows each link's verdict in order and stops after the first one that raises, so every link is shown when none raises |
| Helpers.Lower | object_storage_cli.py:714 | `lower()` maps every character through the ASCII lower-case map and keeps the length |
| Helpers.OverwriteRoundTrip | object_storage_cli.py:714 | the `overwrite` field is `"true"` or `"false"` and parses back to the flag |
| Helpers.StrippedNonEmpty | object_storage_cli.py:1293 | every kept piece is non-empty, has no stripped character at either end, and there are no more pieces than in the input |
| Helpers.MkdirParts | object_storage_cli.py:1293 | every name a nested `mkdir` creates is non-empty, has no `/` and has no whitespace at either end |
| Helpers.MkdirPartsOfJoin | object_storage_cli.py:1293 | clean names joined by `/` split back into the same names |
| Helpers.MkdirSkipsBlank | object_storage_cli.py:1293 | blank pieces before or after the names, from doubled, leading or trailing slashes, create nothing |
| SyncPlan.FindRemote | object_storage_cli.py:2111 | the lookup `path in remote_files` finds an entry with that path, and none exactly when no entry has it |
| SyncPlan.LocalActions | object_storage_cli.py:2110-2142 | the actions of the local loop are one per local file, in scan order, each the file's classification |
| SyncPlan.CompareLocal | object_storage_cli.py:2110-2142 | the local loop returns the actions, the folders to create, the remote paths marked seen and the md5 values computed, as the specification functions define them |
| SyncPlan.CollectDeletes | object_storage_cli.py:2153-2160 | the delete loop yields the delete actions of the unseen remote files, in scan order |
| SyncPlan.CollectDirsToDelete | object_storage_cli.py:2163-2168 | the folder loop yields the remote folders without a local counterpart, in scan order |
| SyncPlan.PlanSync | object_storage_cli.py:2106-2168 | the planner computes `PlanOf`, and the md5 values it computed |
| SyncPlan.ClassifyRule | object_storage_cli.py:2111-2136 | a file is `new` exactly when no remote file has its path, `content_changed` exactly when md5 differs from the ETag, and `skip` exactly when they agree |
| SyncPlan.ExactlyOneActionPerLocalFile | object_storage_cli.py:2110-2142 | every local path has exactly one action in the plan, and it is its classification |
| SyncPlan.LocalActionCount | object_storage_cli.py:2110-2142 | among the local actions, each local path occurs exactly once |
| SyncPlan.SeenExactly | object_storage_cli.py:2134-2135 | a remote path is marked seen exactly when a local file has it |
| SyncPlan.HashedOnlyRemote | object_storage_cli.py:2111-2116 | md5 is computed exactly for the local files that exist remotely, and it is md5 of the file's full path |
| SyncPlan.DeleteActionsExactly | object_storage_cli.py:2153-2160 | an action is a delete exactly when it names an unseen remote file, with that file's id |
| SyncPlan.DeleteCount | object_storage_cli.py:2153-2160 | with distinct remote paths, each path has one delete when unseen and none when seen |
| SyncPlan.DeletesExactlyUnseen | object_storage_cli.py:2150-2160 | with `delete`, every remote file no local file has gets exactly one action, a delete carrying its id, and every delete is of such a file |
| SyncPlan.NoDeletesWithoutFlag | object_storage_cli.py:2149-2151 | without `delete` there is no delete action and no folder to delete |
| SyncPlan.FoldersToDeleteExactly | object_storage_cli.py:2163-2168 | the folders queued for deletion are exactly the remote folders whose path is not a local folder, in scan order |
| SyncPlan.FoldersToCreateExactly | object_storage_cli.py:2137-2147 | `folders_to_create` is exactly the set of non-empty directories of files with reason `new` |
| PathOrder.LexIrreflexive | object_storage_cli.py:2262 | no string sorts before itself |
| PathOrder.LexAsymmetric | object_storage_cli.py:2262 | two strings never sort before each other |
| PathOrder.LexTransitive | object_storage_cli.py:2262 | the string order used by `sorted` is transitive |
| PathOrder.LexTotal | object_storage_cli.py:2262 | any two different strings are ordered one way or the other |
| PathOrder.SortPaths | object_storage_cli.py:2262 | `sorted(folders_to_create)` holds exactly the set's paths, in strictly increasing order |
| PathOrder.SortedUnique | object_storage_cli.py:2262 | two strictly increasing sequences with the same elements are equal, so the creation order is determined |
| PathOrder.ByDepthDesc | object_storage_cli.py:2381 | the folders to delete are ordered by non-increasing `/` count, and the result is a permutation of the queue |
| PathOrder.ChildBeforeParent | object_storage_cli.py:2380-2381 | a folder inside another one is deleted before it |
| SyncMkdirs.Step | object_storage_cli.py:2267-2309 | one component keeps the server's ids fresh and only adds folders; it keeps every mapped path, and it adds one error and stops exactly when a creation fails |
| SyncMkdirs.CreateLevels | object_storage_cli.py:2262-2309 | one folder path adds at most one error and keeps every mapped path |
| SyncMkdirs.CreateAll | object_storage_cli.py:2256-2309 | the folder pass adds at most one error per path and keeps every mapped path |
| SyncMkdirs.StepOnce | object_storage_cli.py:2267-2309 | one pass of the inner loop's body, as written or corrected, computes `Step`: a known prefix is skipped (as written) or becomes the parent (corrected), an existing subfolder is mapped, a missing one is created, and a failed creation stops the path with one more error |
| SyncMkdirs.CreateLevelsLoop | object_storage_cli.py:2263-2309 | the inner loop computes `CreateLevels`, as written or corrected |
| SyncMkdirs.CreateFolders | object_storage_cli.py:2256-2309 | the outer loop computes `CreateAll` from `{'.': remote_folder_id}`, as written or corrected |
| SyncMkdirs.StepSound | object_storage_cli.py:2267-2309 | on a healthy server, one corrected component keeps the map sound: the path is mapped to the folder its walk reaches |
| SyncMkdirs.CreateLevelsSound | object_storage_cli.py:2262-2309 | the corrected inner loop keeps the server healthy and the map sound, and the whole path is mapped when no error was counted |
| SyncMkdirs.PathSound | object_storage_cli.py:2262-2309 | one whole folder path of the corrected pass keeps the server healthy and the map sound, and without a new error the path itself is mapped |
| SyncMkdirs.CreateAllSound | object_storage_cli.py:2256-2309 | the corrected pass keeps the map sound, and every requested path is mapped when no error was counted |
| SyncMkdirs.FoldersResolved | object_storage_cli.py:2256-2309 | from `{'.': remote_folder_id}` on a healthy server, every mapped path is mapped to the folder its components walk to from the synced folder, and when no error was counted every path of the order is mapped |
| SyncExec.Tally | object_storage_cli.py:2353-2371 | a request loop counts exactly the successful requests, and the successes and failures add up to the requests |
| SyncExec.UploadAll | object_storage_cli.py:2319-2343 | the upload loop sends each upload to `folder_id_map.get(dir or '.', remote_folder_id)`, counts the successes, and the successes and failures add up to the uploads |
| SyncExec.PlacementsAt | object_storage_cli.py:2323-2326 | the i-th upload is placed, under its own path and local path, in the folder `folder_id_map.get(dir or '.', remote_folder_id)` gives |
| SyncExec.ExecuteSync | object_storage_cli.py:2182-2419 | a dry run does nothing and returns every counter, `skipped` included, as 0; otherwise the folders are resolved in sorted order (as written `sorted(folders_to_create)` with a known prefix skipped; corrected also every upload's directory, with a known prefix as the next parent), uploads go where the map sends them, and each counter counts its loop's successes, `skipped` the skip actions, `errors` all failures |
| SyncExec.SyncDirectory | object_storage_cli.py:2059-2180 | an unknown remote folder gives the not-found outcome and changes nothing; otherwise the plan is `PlanOf` of the scans and it is executed by the executor as written |
| SyncExec.ErrorsCountFailures | object_storage_cli.py:2319-2402 | `errors` is at least the folder pass's errors and equals them exactly when every upload, file deletion and folder deletion succeeded; no success counter exceeds its loop's requests |
| SyncExec.ActionKindsPartition | object_storage_cli.py:2207-2209 | every action is exactly one of upload, skip and delete, so the three lists add up to all actions |
| SyncExec.RequestsMatchPlan | object_storage_cli.py:2207-2209 | a run, as written or corrected, requests one upload per upload action and one deletion per delete action and per queued folder |
| SyncExec.UploadsLandInTheirFolders | object_storage_cli.py:2323-2326 | with the corrected executor on a healthy server and no folder error, every file is uploaded into the folder its directory's components walk to |
| Paths.DirnameComponents | object_storage_cli.py:2324-2325 | `dirname` of a normalised relative path is empty exactly for a single component, and otherwise is the normalised path of all components but the last |
| SyncExec.PlanPathsNormal | object_storage_cli.py:2144-2147 | a plan made from normalised relative paths has normalised folders to create and normalised upload paths |
| SyncExec.ResolveSet | object_storage_cli.py:2262 | the corrected set of folders to resolve contains `folders_to_create` and the directory of every upload |
| SyncExec.ResolveSetFor | object_storage_cli.py:2262 | the executor as written resolves exactly `folders_to_create`; the corrected one adds the directory of every upload |
| SyncFindings.KnownPrefixMisplaces | object_storage_cli.py:2267-2309 | as written, new files `a/x` and `a/b/y` map `a/b` to a folder `b` created in the synced folder, and walking `a/b` finds nothing |
| SyncFindings.KnownPrefixCorrected | object_storage_cli.py:2267-2309 | corrected, the same input creates `b` inside `a`, and `a/b` maps to where its walk ends |
| SyncFindings.ChangedFileLandsInRoot | object_storage_cli.py:2323-2326 | as written, a changed file `a/x` whose directory walks to folder `a` resolves no folder and is uploaded into the synced folder |
| SyncFindings.ChangedInAPlanned | object_storage_cli.py:2110-2147 | a local `a/x` whose md5 differs from the remote copy's ETag is planned as one `content_changed` upload with no folder to create |
| SyncFindings.ChangedFileLandsInA | object_storage_cli.py:2323-2326 | corrected, the same plan resolves `a` to its folder and the upload lands there |
| SyncFindings.RunAsWrittenMisplaces | object_storage_cli.py:2262-2326 | every run of the executor as written on that plan leaves the server unchanged and uploads `a/x` into the synced folder |
| SyncFindings.RunCorrectedPlaces | object_storage_cli.py:2262-2326 | every run of the corrected executor on that plan leaves the server unchanged and uploads `a/x` into folder `a` |

## Left out

- HTTP, status codes and exceptions are not modelled.
  - Every request is a lookup in the server value, and a missing key is a failed request.
  - An exception while listing or creating a folder in the executor's folder pass (counted as an error, then the path is abandoned) is not distinguished from a refused creation.
  - A non-200 listing in that pass leaves the path's remaining components to be tried against the same parent, and that is what is modelled.
- Uploads and deletions do not change the modelled server. Their success is an oracle.
- The scans are inputs:
  - `_scan_local_directory` and `_get_remote_file_tree` are not part of this model;
  - a scanned dict is a sequence of entries with distinct paths, in iteration order.
- `calculate_local_etag` is an uninterpreted function of the full path. Hashing and file reads are not modelled.
- Public-link expiry:
  - parsing `expires_at` and reading the clock are left out;
  - `expired` is an input, false when the field is absent, `null` or unparseable.
- Configuration, `argparse`, `sys.exit`, printing, JSON output and the tree drawing of `_display_folder_hierarchy` are not modelled, apart from the display map it fills.
- Nested `mkdir` is not modelled beyond the split of its path at line 1293. Its folder creation is the same descent as `resolve_folder_path`.
- Folders.BuildHierarchy: requires unique folder ids. On a list with a repeated id the source's recursion need not end, and a server's ids are unique.
- Navigation.Browser.GoBack: states `Valid()` afterwards only when the server's folder details carry the id they were asked for.
- Navigation.Browser.ListAccessibleFolders and Navigation.Browser.Home: require unique ids, as `BuildHierarchy` does; `Home` relists the folders through `ListAccessibleFolders`.
- SyncMkdirs.FoldersResolved, SyncExec.UploadsLandInTheirFolders, Resolve.CreateThenResolve and RemoteStore.CreatedPathResolves require positive folder ids. `create_folder` sends no parent for a falsy id, so a folder created below a folder with id 0 is parentless and is not found again by walking the path; the model's `CreateFolder` does the same, and these round trips are stated only for servers whose ids are positive.
- Helpers.LinkVerdict: `is_valid` is a boolean or `null`; the truthiness of other JSON values there is not modelled.
- PathOrder.ByDepthDesc: the stability of Python's sort among folders of equal depth is built into the function but not stated as a property.
- Paths.Dirname and the path lemmas are written for `/` as `os.sep`, so `replace(os.sep, '/')` is the identity.

## Findings

| source | as written | input that shows it | evidently intended | confidence | as-written member | corrected member |
|---|---|---|---|---|---|---|
| object_storage_cli.py:2267-2290 | a prefix already in `folder_id_map` is skipped without making it the parent of the next component | new files `a/x` and `a/b/y`; sorted order `a`, `a/b`; `b` is created in the synced folder and `a/b/y` uploaded there | a known prefix becomes `parent_id` for the next level | high (not executed) | SyncMkdirs.CreateFoldersAsWritten, SyncFindings.KnownPrefixMisplaces | SyncMkdirs.CreateFolders, SyncMkdirs.FoldersResolved, SyncFindings.KnownPrefixCorrected |
| object_storage_cli.py:2323-2326 | `folder_id_map` holds only directories of new files, so a `content_changed` upload in a subfolder falls back to `remote_folder_id` | local `a/x` changed while remote `a/x` lives in folder `a`; the upload goes to the synced folder itself | every upload's directory is resolved before uploading | high (not executed) | SyncExec.ResolveSetAsWritten, SyncFindings.ChangedFileLandsInRoot, SyncFindings.RunAsWrittenMisplaces | SyncExec.ResolveSet, SyncFindings.ChangedFileLandsInA, SyncFindings.RunCorrectedPlaces, SyncExec.UploadsLandInTheirFolders |
