/**
 * `check_folder_mount`: whether a stored file is visible inside the container
 * under `/objects/`, and through which mount point. Whether the local path
 * exists and the lines of `/proc/mounts` (absent when the file cannot be read)
 * are inputs.
 */
module Mount {
  import opened Wrappers
  import opened Paths

  datatype MountInfo = MountInfo(localPath: string, mountPoint: string)

  /** Python's argument-less `str.split()`: the maximal runs of characters
      that are not whitespace, continuing a run already started in `cur`. */
  function FieldsFrom(s: string, cur: string): (fs: seq<string>)
    requires forall c :: c in cur ==> c !in Whitespace
    ensures forall i :: 0 <= i < |fs| ==> fs[i] != "" && forall c :: c in fs[i] ==> c !in Whitespace
    decreases |s|
  {
    if s == [] then (if cur == [] then [] else [cur])
    else if s[0] in Whitespace then (if cur == [] then [] else [cur]) + FieldsFrom(s[1..], "")
    else FieldsFrom(s[1..], cur + [s[0]])
  }

  /** `line.split()`. */
  function Fields(line: string): seq<string>
  {
    FieldsFrom(line, "")
  }

  /** Characters without whitespace extend the current field. */
  lemma {:induction false} FieldsWord(w: string, rest: string, cur: string)
    requires forall c :: c in cur ==> c !in Whitespace
    requires forall c :: c in w ==> c !in Whitespace
    ensures FieldsFrom(w + rest, cur) == FieldsFrom(rest, cur + w)
    decreases |w|
  {
    if w != [] {
      assert (w + rest)[0] == w[0] && (w + rest)[1..] == w[1..] + rest;
      assert cur + [w[0]] + w[1..] == cur + w;
      FieldsWord(w[1..], rest, cur + [w[0]]);
    } else {
      assert w + rest == rest && cur + w == cur;
    }
  }

  /** Splitting words joined by single spaces gives the words back. */
  lemma {:induction false} FieldsOfJoin(words: seq<string>)
    requires forall i :: 0 <= i < |words| ==> words[i] != "" && forall c :: c in words[i] ==> c !in Whitespace
    ensures Fields(Join(words, ' ')) == words
    decreases |words|
  {
    if |words| == 1 {
      assert Join(words, ' ') == words[0];
      FieldsWord(words[0], "", "");
      assert words[0] + "" == words[0];
      assert "" + words[0] == words[0];
    } else if |words| > 1 {
      var rest := Join(words[1..], ' ');
      assert Join(words, ' ') == words[0] + ([' '] + rest);
      FieldsWord(words[0], [' '] + rest, "");
      assert ([' '] + rest)[1..] == rest;
      assert "" + words[0] == words[0];
      FieldsOfJoin(words[1..]);
      assert [words[0]] + words[1..] == words;
    }
  }

  /** The mount points under `/objects/`: the second field of every line that
      has at least two, in file order. */
  function ObjectMounts(lines: seq<string>): (mounts: seq<string>)
    ensures forall i :: 0 <= i < |mounts| ==> StartsWith(mounts[i], "/objects/")
    decreases |lines|
  {
    if lines == [] then []
    else
      var parts := Fields(lines[0]);
      var rest := ObjectMounts(lines[1..]);
      if |parts| >= 2 && StartsWith(parts[1], "/objects/") then [parts[1]] + rest else rest
  }

  /** The candidates are exactly the second fields that start with
      `/objects/`, of lines with at least two fields. */
  lemma {:induction false} ObjectMountsExactly(lines: seq<string>)
    ensures forall i :: 0 <= i < |lines| && |Fields(lines[i])| >= 2 && StartsWith(Fields(lines[i])[1], "/objects/")
                        ==> Fields(lines[i])[1] in ObjectMounts(lines)
    ensures forall m :: m in ObjectMounts(lines) ==>
              exists i :: 0 <= i < |lines| && |Fields(lines[i])| >= 2 && Fields(lines[i])[1] == m
    decreases |lines|
  {
    if lines != [] {
      var mounts := ObjectMounts(lines);
      var rest := ObjectMounts(lines[1..]);
      ObjectMountsExactly(lines[1..]);
      assert forall m :: m in rest ==> m in mounts;
      forall i | 1 <= i < |lines| && |Fields(lines[i])| >= 2 && StartsWith(Fields(lines[i])[1], "/objects/")
        ensures Fields(lines[i])[1] in mounts
      {
        assert lines[i] == lines[1..][i - 1];
      }
      forall m | m in mounts
        ensures exists i :: 0 <= i < |lines| && |Fields(lines[i])| >= 2 && Fields(lines[i])[1] == m
      {
        if m in rest {
          var k :| 0 <= k < |lines[1..]| && |Fields(lines[1..][k])| >= 2 && Fields(lines[1..][k])[1] == m;
          assert lines[k + 1] == lines[1..][k];
        }
      }
    }
  }

  /** Mount point `m` contains `path`: `path == m` or `path` starts with `m + '/'`. */
  predicate Covers(m: string, path: string)
  {
    StartsWith(path, m + "/") || path == m
  }

  /** Longest first. */
  predicate ByLengthDesc(s: seq<string>)
  {
    forall i, j :: 0 <= i < j < |s| ==> |s[i]| >= |s[j]|
  }

  /** Inserting after every entry at least as long keeps equal lengths in
      arrival order, as Python's stable `sort(key=len, reverse=True)` does. */
  function InsertByLength(x: string, sorted: seq<string>): (r: seq<string>)
    ensures multiset(r) == multiset(sorted) + multiset{x}
    ensures |r| == |sorted| + 1
    ensures r[0] == x || (sorted != [] && r[0] == sorted[0])
    decreases |sorted|
  {
    if sorted == [] then [x]
    else if |sorted[0]| >= |x| then
      assert sorted == [sorted[0]] + sorted[1..];
      [sorted[0]] + InsertByLength(x, sorted[1..])
    else [x] + sorted
  }

  lemma {:induction false} InsertKeepsOrder(x: string, sorted: seq<string>)
    requires ByLengthDesc(sorted)
    ensures ByLengthDesc(InsertByLength(x, sorted))
    decreases |sorted|
  {
    if sorted != [] && |sorted[0]| >= |x| {
      var tail := InsertByLength(x, sorted[1..]);
      InsertKeepsOrder(x, sorted[1..]);
      assert |sorted[0]| >= |tail[0]| by {
        if tail[0] != x {
          assert tail[0] == sorted[1];
        }
      }
      var r := [sorted[0]] + tail;
      forall i, j | 0 <= i < j < |r| ensures |r[i]| >= |r[j]| {
        assert r[j] == tail[j - 1];
        if i > 0 {
          assert r[i] == tail[i - 1];
        } else if j > 1 {
          assert |tail[0]| >= |tail[j - 1]|;
        }
      }
    }
  }

  /** `object_mounts.sort(key=len, reverse=True)`. */
  function SortByLength(s: seq<string>): (r: seq<string>)
    ensures ByLengthDesc(r)
    ensures multiset(r) == multiset(s)
    decreases |s|
  {
    if s == [] then []
    else
      assert s == s[..|s| - 1] + [s[|s| - 1]];
      InsertKeepsOrder(s[|s| - 1], SortByLength(s[..|s| - 1]));
      InsertByLength(s[|s| - 1], SortByLength(s[..|s| - 1]))
  }

  /** The loop that returns the first mount point containing the path. */
  function FirstCovering(mounts: seq<string>, path: string): (r: Option<string>)
    ensures r.Some? ==> r.value in mounts && Covers(r.value, path)
    ensures r.None? <==> forall i :: 0 <= i < |mounts| ==> !Covers(mounts[i], path)
    decreases |mounts|
  {
    if mounts == [] then None
    else if Covers(mounts[0], path) then Some(mounts[0])
    else FirstCovering(mounts[1..], path)
  }

  /** `check_folder_mount(file_path)`. */
  function CheckFolderMount(filePath: string, exists_: bool, mountLines: Option<seq<string>>): (r: Option<MountInfo>)
    ensures r.Some? <==> exists_
    ensures r.Some? ==> r.value.localPath == "/objects/" + filePath
  {
    var localPath := "/objects/" + filePath;
    if !exists_ then None
    else match mountLines
      case None => Some(MountInfo(localPath, "/objects"))
      case Some(lines) =>
        match FirstCovering(SortByLength(ObjectMounts(lines)), localPath)
        case Some(m) => Some(MountInfo(localPath, m))
        case None => Some(MountInfo(localPath, "/objects"))
  }

  /** On a list sorted longest first, the first mount point that contains the
      path is at least as long as every other that does. */
  lemma {:induction false} FirstCoveringIsLongest(sorted: seq<string>, path: string, m: string)
    requires ByLengthDesc(sorted)
    requires FirstCovering(sorted, path).Some?
    requires m in sorted && Covers(m, path)
    ensures |m| <= |FirstCovering(sorted, path).value|
    decreases |sorted|
  {
    if !Covers(sorted[0], path) {
      assert m != sorted[0];
      assert m in sorted[1..];
      FirstCoveringIsLongest(sorted[1..], path, m);
    }
  }

  /** Two mount points of the same length that both contain a path are the same. */
  lemma {:induction false} CoveringSameLength(m1: string, m2: string, path: string)
    requires Covers(m1, path) && Covers(m2, path) && |m1| == |m2|
    ensures m1 == m2
  {
    if path != m1 && path != m2 {
      assert m1 == path[..|m1|] && m2 == path[..|m2|];
    }
  }

  /** The mount point reported is the unique longest `/objects/` mount that
      contains the local path; `/objects` when none does or the mount table
      cannot be read; no answer at all when the path does not exist. */
  lemma {:induction false} MountIsLongestMatch(filePath: string, exists_: bool, mountLines: Option<seq<string>>)
    ensures var r := CheckFolderMount(filePath, exists_, mountLines);
      var localPath := "/objects/" + filePath;
      && (!exists_ ==> r.None?)
      && (exists_ && mountLines.None? ==> r == Some(MountInfo(localPath, "/objects")))
      && (exists_ && mountLines.Some? ==>
            var mounts := ObjectMounts(mountLines.value);
            if exists m :: m in mounts && Covers(m, localPath) then
              && r.value.mountPoint in mounts
              && Covers(r.value.mountPoint, localPath)
              && StartsWith(r.value.mountPoint, "/objects/")
              && forall m :: m in mounts && Covers(m, localPath) ==>
                   |m| < |r.value.mountPoint| || m == r.value.mountPoint
            else r == Some(MountInfo(localPath, "/objects")))
  {
    var localPath := "/objects/" + filePath;
    if exists_ && mountLines.Some? {
      var mounts := ObjectMounts(mountLines.value);
      if exists m :: m in mounts && Covers(m, localPath) {
        LongestCovering(mounts, localPath);
      } else {
        NoCovering(mounts, localPath);
      }
    }
  }

  /** Sorting by length keeps exactly the same mount points. */
  lemma {:induction false} SortByLengthMembers(mounts: seq<string>)
    ensures forall m :: m in mounts <==> m in SortByLength(mounts)
  {
    var sorted := SortByLength(mounts);
    forall m ensures m in mounts <==> m in sorted {
      assert m in mounts <==> m in multiset(mounts);
      assert m in sorted <==> m in multiset(sorted);
    }
  }

  /** When some mount point contains the path, the search over the sorted
      list finds one that is longer than every other that does. */
  lemma {:induction false} LongestCovering(mounts: seq<string>, path: string)
    requires exists m :: m in mounts && Covers(m, path)
    ensures var r := FirstCovering(SortByLength(mounts), path);
      && r.Some? && r.value in mounts && Covers(r.value, path)
      && forall m :: m in mounts && Covers(m, path) ==> |m| < |r.value| || m == r.value
  {
    var sorted := SortByLength(mounts);
    SortByLengthMembers(mounts);
    var w :| w in mounts && Covers(w, path);
    var k :| 0 <= k < |sorted| && sorted[k] == w;
    var best := FirstCovering(sorted, path).value;
    forall m | m in mounts && Covers(m, path)
      ensures |m| < |best| || m == best
    {
      FirstCoveringIsLongest(sorted, path, m);
      if |m| == |best| {
        CoveringSameLength(m, best, path);
      }
    }
  }

  /** When no mount point contains the path, the search finds nothing. */
  lemma {:induction false} NoCovering(mounts: seq<string>, path: string)
    requires forall m :: m in mounts ==> !Covers(m, path)
    ensures FirstCovering(SortByLength(mounts), path).None?
  {
    var sorted := SortByLength(mounts);
    SortByLengthMembers(mounts);
    forall i | 0 <= i < |sorted| ensures !Covers(sorted[i], path) {
      assert sorted[i] in mounts;
    }
  }

  /** A `/proc/mounts` line of the usual shape contributes its mount point. */
  lemma {:induction false} MountLineMountPoint(device: string, point: string, rest: seq<string>)
    requires device != "" && point != ""
    requires forall c :: c in device ==> c !in Whitespace
    requires forall c :: c in point ==> c !in Whitespace
    requires forall i :: 0 <= i < |rest| ==> rest[i] != "" && forall c :: c in rest[i] ==> c !in Whitespace
    requires StartsWith(point, "/objects/")
    ensures point in ObjectMounts([Join([device, point] + rest, ' ')])
  {
    var words := [device, point] + rest;
    FieldsOfJoin(words);
    var lines := [Join(words, ' ')];
    ObjectMountsExactly(lines);
    assert Fields(lines[0]) == words;
    assert |Fields(lines[0])| >= 2 && Fields(lines[0])[1] == point;
  }
}
