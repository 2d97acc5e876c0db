/**
 * Two inputs on which the executor of `_execute_sync_actions`, as written,
 * puts folders or files in the wrong place, each beside what the corrected
 * executor does with the same input.
 */
module SyncFindings {
  import opened Wrappers
  import opened Seqs
  import opened Paths
  import opened Folders
  import opened RemoteStore
  import opened SyncPlan
  import opened SyncMkdirs
  import opened SyncExec
  import opened PathOrder

  /** A server whose synced folder 1 is empty and which gives out id 2 next. */
  function EmptyServer(): Store
  {
    Store(map[1 := []], map[1 := []], map[], {}, 2)
  }

  lemma {:induction false} PathsOfTwo()
    ensures Components("a") == ["a"] && Components("a/b") == ["a", "b"]
    ensures OsJoin("a", "b") == "a/b"
  {
    assert Join(["a"], '/') == "a";
    assert Join(["a", "b"], '/') == "a/b";
    JoinNormal(["a"]);
    JoinNormal(["a", "b"]);
  }

  /** The state after the first folder path, `a`, with either variant:
      folder 2, named `a`, created in the synced folder. */
  function AfterA(): Mkdirs
  {
    Mkdirs(CreateFolder(EmptyServer(), "a", 1).1, map["." := 1, "a" := 2], 1, 0)
  }

  lemma {:induction false} FirstPathCreatesA(advanceOnKnown: bool)
    ensures CreateLevels(Start(EmptyServer(), 1), Split("a", '/'), "", 1, advanceOnKnown) == AfterA()
    ensures AfterA().store.subfolders[1] == [Folder(2, "a", Some(1))]
    ensures AfterA().store.subfolders[2] == [] && AfterA().store.refused == {} && AfterA().store.nextId == 3
    ensures Fresh(AfterA().store)
  {
    PathsOfTwo();
    var s0 := EmptyServer();
    assert CreateFolder(s0, "a", 1).0 == Some(Folder(2, "a", Some(1)));
    assert Step(Start(s0, 1), "a", "a", 1, advanceOnKnown) == Continue(AfterA(), 2);
  }

  /** From the state after `a`, the path `a/b` maps `a/b` to a new folder 3,
      created in the synced folder as written and inside `a` once corrected. */
  lemma {:induction false} SecondPath(st: Mkdirs, advanceOnKnown: bool)
    requires AfterAShape(st)
    ensures var parent := if advanceOnKnown then 2 else 1;
      CreateAll(st, ["a/b"], 1, advanceOnKnown)
        == Mkdirs(CreateFolder(st.store, "b", parent).1, st.ids["a/b" := 3], 2, 0)
  {
    PathsOfTwo();
    var parent := if advanceOnKnown then 2 else 1;
    var made := CreateFolder(st.store, "b", parent);
    var next := Mkdirs(made.1, st.ids["a/b" := 3], 2, 0);
    assert made.0 == Some(Folder(3, "b", Some(parent)));
    assert FirstNamed(st.store.subfolders[parent], "b") == None by {
      assert FirstNamed([Folder(2, "a", Some(1))], "b") == None;
    }
    assert Step(st, "a", "a", 1, advanceOnKnown) == Continue(st, parent);
    assert Step(st, "b", "a/b", parent, advanceOnKnown) == Continue(next, 3);
    assert ["a", "b"][1..] == ["b"] && ["b"][1..] == [];
    assert CreateLevels(st, ["a", "b"], "", 1, advanceOnKnown) == next;
  }

  /** Where the path `a/b` leads when `b` sits next to `a`. */
  lemma {:induction false} WalkBesideA(s: Store)
    requires 1 in s.subfolders && s.subfolders[1] == [Folder(2, "a", Some(1)), Folder(3, "b", Some(1))]
    requires 2 in s.subfolders && s.subfolders[2] == []
    ensures Walk(s, 1, ["b"]) == Some(3)
    ensures Walk(s, 1, ["a", "b"]) == None
  {
    var a := Folder(2, "a", Some(1));
    var b := Folder(3, "b", Some(1));
    assert FirstNamed([a, b], "a") == Some(a);
    assert FirstNamed([a, b], "b") == Some(b) by {
      assert [a, b][1..] == [b];
      assert FirstWhere([b], (f: Folder) => f.name == "b") == Some(b);
    }
    assert ["a", "b"][1..] == ["b"] && ["b"][1..] == [];
    assert Walk(s, 1, ["b"]) == Walk(s, 3, []);
    assert Walk(s, 1, ["a", "b"]) == Walk(s, 2, ["b"]);
  }

  /** Where the path `a/b` leads when `b` sits inside `a`. */
  lemma {:induction false} WalkInsideA(s: Store)
    requires 1 in s.subfolders && s.subfolders[1] == [Folder(2, "a", Some(1))]
    requires 2 in s.subfolders && s.subfolders[2] == [Folder(3, "b", Some(2))]
    ensures Walk(s, 1, ["a", "b"]) == Some(3)
  {
    var a := Folder(2, "a", Some(1));
    var b := Folder(3, "b", Some(2));
    assert FirstNamed([a], "a") == Some(a);
    assert FirstNamed([b], "b") == Some(b);
    assert ["a", "b"][1..] == ["b"] && ["b"][1..] == [];
    assert Walk(s, 2, ["b"]) == Walk(s, 3, []);
    assert Walk(s, 1, ["a", "b"]) == Walk(s, 2, ["b"]);
  }

  /** The requirements `SecondPath` puts on the state after `a`. */
  predicate AfterAShape(st: Mkdirs)
  {
    && Fresh(st.store) && st.store.nextId == 3 && st.store.refused == {}
    && st.ids == map["." := 1, "a" := 2] && st.created == 1 && st.errors == 0
    && 1 in st.store.subfolders && st.store.subfolders[1] == [Folder(2, "a", Some(1))]
    && 2 in st.store.subfolders && st.store.subfolders[2] == []
  }

  lemma {:induction false} SecondPathMisplaces(st: Mkdirs)
    requires AfterAShape(st)
    ensures var w := CreateAll(st, ["a/b"], 1, false);
            && "a/b" in w.ids && w.ids["a/b"] == 3
            && Walk(w.store, 1, ["b"]) == Some(3)
            && Walk(w.store, 1, ["a", "b"]) == None
  {
    SecondPath(st, false);
    var s := CreateFolder(st.store, "b", 1).1;
    assert s.subfolders[1] == [Folder(2, "a", Some(1)), Folder(3, "b", Some(1))];
    WalkBesideA(s);
  }

  lemma {:induction false} SecondPathNests(st: Mkdirs)
    requires AfterAShape(st)
    ensures var c := CreateAll(st, ["a/b"], 1, true);
            && "a/b" in c.ids && c.ids["a/b"] == 3
            && Walk(c.store, 1, ["a", "b"]) == Some(3)
  {
    SecondPath(st, true);
    var s := CreateFolder(st.store, "b", 2).1;
    assert s.subfolders[2] == [Folder(3, "b", Some(2))];
    WalkInsideA(s);
  }

  /** New files `a/x` and `a/b/y` make the folder pass resolve `a`, then
      `a/b`. As written, the known prefix `a` does not become the parent of
      `b`, so `b` is created directly in the synced folder and `a/b` is
      mapped to it, while the path `a/b` leads nowhere on the server. */
  lemma {:induction false} KnownPrefixMisplaces()
    ensures var w := CreateFoldersAsWritten(EmptyServer(), 1, ["a", "a/b"]);
            && "a/b" in w.ids && w.ids["a/b"] == 3
            && Walk(w.store, 1, ["b"]) == Some(3)
            && Walk(w.store, 1, ["a", "b"]) == None
  {
    FirstPathCreatesA(false);
    PathsOfTwo();
    assert ["a", "a/b"][1..] == ["a/b"];
    SecondPathMisplaces(AfterA());
  }

  /** The same input with the corrected pass: `a` becomes the parent of `b`,
      and `a/b` is mapped to the folder the path leads to. */
  lemma {:induction false} KnownPrefixCorrected()
    ensures var c := CreateAll(Start(EmptyServer(), 1), ["a", "a/b"], 1, true);
            && "a/b" in c.ids && c.ids["a/b"] == 3
            && Walk(c.store, 1, ["a", "b"]) == Some(3)
  {
    FirstPathCreatesA(true);
    PathsOfTwo();
    assert ["a", "a/b"][1..] == ["a/b"];
    SecondPathNests(AfterA());
  }

  /** A synced folder 1 that already holds folder 2, named `a`. */
  function ServerWithA(): Store
  {
    Store(map[1 := [Folder(2, "a", Some(1))], 2 := []], map[], map[], {}, 3)
  }

  /** One upload of the changed file `a/x`, and no folder to create. */
  function ChangedInA(): Plan
  {
    Plan([Upload("a/x", ContentChanged, "/src/a/x")], {}, [])
  }

  /** `ChangedInA` is the plan for a local file `a/x` whose content differs
      from the remote copy in folder `a`. */
  lemma {:induction false} ChangedInAPlanned()
    ensures PlanOf([LocalFile("a/x", "/src/a/x")], [RemoteEntry("a/x", 7, "e0")], [RemoteDir("a", 2)],
                   {"a"}, false, (p: string) => "e1") == ChangedInA()
  {
    var up := Upload("a/x", ContentChanged, "/src/a/x");
    var local := [LocalFile("a/x", "/src/a/x")];
    var remote := [RemoteEntry("a/x", 7, "e0")];
    assert FindRemote(remote, "a/x") == Some(remote[0]);
    assert LocalActions(local, remote, (p: string) => "e1") == [up];
    assert NewDirs(local, remote) == {};
  }

  /** The directory of `a/x` is `a`. */
  lemma {:induction false} DirOfAX()
    ensures Dirname("a/x") == "a" && DirKey("a/x") == "a"
    ensures DirComponents("a/x") == ["a"]
  {
    assert Join(["a", "x"], '/') == "a/x";
    JoinNormal(["a", "x"]);
    DirnameOfNormal("a/x");
    assert ["a", "x"][..1] == ["a"];
    assert Join(["a"], '/') == "a";
  }

  /** Resolving `a` on the server that holds it maps `a` to folder 2 and
      changes nothing on the server. */
  lemma {:induction false} ResolveExistingA()
    ensures CreateAll(Start(ServerWithA(), 1), ["a"], 1, true) == Mkdirs(ServerWithA(), map["." := 1, "a" := 2], 0, 0)
  {
    var s := ServerWithA();
    var st := Start(s, 1);
    assert Join(["a"], '/') == "a";
    JoinNormal(["a"]);
    var st1 := Mkdirs(s, map["." := 1, "a" := 2], 0, 0);
    assert FirstNamed([Folder(2, "a", Some(1))], "a") == Some(Folder(2, "a", Some(1)));
    assert Step(st, "a", "a", 1, true) == Continue(st1, 2);
  }

  /** A changed file in a subfolder: as written, the folder pass resolves no
      folder, so the upload falls back to the synced folder itself instead
      of the folder `a` that holds the file and that the file's directory
      leads to. */
  lemma {:induction false} ChangedFileLandsInRoot()
    ensures ResolveSetAsWritten(ChangedInA()) == {}
    ensures Walk(ServerWithA(), 1, DirComponents("a/x")) == Some(2)
    ensures Placements(Uploads(ChangedInA().actions), CreateFoldersAsWritten(ServerWithA(), 1, []).ids, 1)
              == [Placement("a/x", "/src/a/x", 1)]
  {
    DirOfAX();
    assert Uploads(ChangedInA().actions) == ChangedInA().actions;
    assert Walk(ServerWithA(), 1, ["a"]) == Some(2) by {
      assert FirstNamed([Folder(2, "a", Some(1))], "a") == Some(Folder(2, "a", Some(1)));
    }
    PlacementsAt(Uploads(ChangedInA().actions), map["." := 1], 1, 0);
  }

  /** The same plan with the corrected pass: `a` is resolved to folder 2 and
      the upload goes there. */
  lemma {:induction false} ChangedFileLandsInA()
    ensures ResolveSet(ChangedInA()) == {"a"}
    ensures Placements(Uploads(ChangedInA().actions), CreateAll(Start(ServerWithA(), 1), ["a"], 1, true).ids, 1)
              == [Placement("a/x", "/src/a/x", 2)]
  {
    DirOfAX();
    assert Uploads(ChangedInA().actions) == ChangedInA().actions;
    ResolveExistingA();
    assert UploadDirs(ChangedInA().actions) == {"a"};
    PlacementsAt(Uploads(ChangedInA().actions), map["." := 1, "a" := 2], 1, 0);
  }

  /** Any run of the executor as written on this plan uploads `a/x` into the
      synced folder. */
  lemma {:induction false} RunAsWrittenMisplaces(uploadOk: Placement -> bool, deleteOk: int -> bool, rmdirOk: int -> bool,
                                                 order: seq<string>, stats: Stats, final: Store, placed: seq<Placement>)
    requires Executed(ChangedInA(), 1, false, false, ServerWithA(), uploadOk, deleteOk, rmdirOk, order, stats, final, placed)
    ensures final == ServerWithA()
    ensures placed == [Placement("a/x", "/src/a/x", 1)]
  {
    ChangedFileLandsInRoot();
    assert ResolveSetFor(ChangedInA(), false) == {};
    assert forall x :: x in order <==> x in [];
    SortedUnique(order, []);
  }

  /** Any run of the corrected executor on this plan uploads `a/x` into
      folder `a`, creating nothing. */
  lemma {:induction false} RunCorrectedPlaces(uploadOk: Placement -> bool, deleteOk: int -> bool, rmdirOk: int -> bool,
                                              order: seq<string>, stats: Stats, final: Store, placed: seq<Placement>)
    requires Executed(ChangedInA(), 1, false, true, ServerWithA(), uploadOk, deleteOk, rmdirOk, order, stats, final, placed)
    ensures final == ServerWithA()
    ensures placed == [Placement("a/x", "/src/a/x", 2)]
  {
    ChangedFileLandsInA();
    assert ResolveSetFor(ChangedInA(), true) == {"a"};
    assert forall x :: x in order <==> x in ["a"];
    assert StrictlySorted(["a"]);
    SortedUnique(order, ["a"]);
    ResolveExistingA();
  }
}
