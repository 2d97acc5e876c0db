/**
 * The two orders the sync executor imposes on paths: Python's `sorted` on
 * strings (code point by code point) for the folders to create, and the
 * stable sort by decreasing number of '/' for the folders to delete.
 */
module PathOrder {
  import opened Paths
  import opened SyncPlan

  // ---- `sorted(set_of_paths)` ----

  /** Python's `a < b` on strings. */
  predicate LexLess(a: string, b: string)
    decreases |a|
  {
    b != [] && (a == [] || a[0] < b[0] || (a[0] == b[0] && LexLess(a[1..], b[1..])))
  }

  lemma {:induction false} LexIrreflexive(a: string)
    ensures !LexLess(a, a)
    decreases |a|
  {
    if a != [] {
      LexIrreflexive(a[1..]);
    }
  }

  lemma {:induction false} LexTransitive(a: string, b: string, c: string)
    requires LexLess(a, b) && LexLess(b, c)
    ensures LexLess(a, c)
    decreases |a|
  {
    if a != [] && a[0] == b[0] && b[0] == c[0] {
      LexTransitive(a[1..], b[1..], c[1..]);
    }
  }

  lemma {:induction false} LexTotal(a: string, b: string)
    requires a != b
    ensures LexLess(a, b) || LexLess(b, a)
    decreases |a|
  {
    if a != [] && b != [] && a[0] == b[0] {
      assert a == [a[0]] + a[1..] && b == [b[0]] + b[1..];
      LexTotal(a[1..], b[1..]);
    }
  }

  lemma {:induction false} LexAsymmetric(a: string, b: string)
    requires LexLess(a, b)
    ensures !LexLess(b, a)
  {
    LexIrreflexive(a);
    if LexLess(b, a) {
      LexTransitive(a, b, a);
    }
  }

  /** A proper prefix sorts first, so a folder comes before its subfolders. */
  lemma {:induction false} LexPrefix(a: string, b: string)
    requires |a| < |b| && b[..|a|] == a
    ensures LexLess(a, b)
    decreases |a|
  {
    if a != [] {
      assert b[1..][..|a| - 1] == a[1..];
      LexPrefix(a[1..], b[1..]);
    }
  }

  predicate StrictlySorted(r: seq<string>)
  {
    forall i, j :: 0 <= i < j < |r| ==> LexLess(r[i], r[j])
  }

  /** The least path of a non-empty set. */
  method MinPath(s: set<string>) returns (m: string)
    requires s != {}
    ensures m in s && forall x :: x in s && x != m ==> LexLess(m, x)
  {
    m :| m in s;
    var left := s - {m};
    while left != {}
      invariant m in s && left <= s && m !in left
      invariant forall x :: x in s && x !in left && x != m ==> LexLess(m, x)
      decreases |left|
    {
      var y :| y in left;
      if LexLess(y, m) {
        forall x | x in s && x !in left && x != m ensures LexLess(y, x) {
          LexTransitive(y, m, x);
        }
        m := y;
      } else {
        LexTotal(y, m);
      }
      left := left - {y};
    }
  }

  /** `sorted(paths)`: the paths of the set in increasing order. */
  method SortPaths(s: set<string>) returns (r: seq<string>)
    ensures forall x :: x in r <==> x in s
    ensures StrictlySorted(r)
  {
    r := [];
    var rest := s;
    while rest != {}
      invariant rest <= s
      invariant forall x :: x in r <==> x in s && x !in rest
      invariant StrictlySorted(r)
      invariant forall i, x :: 0 <= i < |r| && x in rest ==> LexLess(r[i], x)
      decreases |rest|
    {
      var m := MinPath(rest);
      r := r + [m];
      rest := rest - {m};
    }
  }

  /** A set has only one increasing enumeration, so the order is determined. */
  lemma {:induction false} SortedUnique(r1: seq<string>, r2: seq<string>)
    requires StrictlySorted(r1) && StrictlySorted(r2)
    requires forall x :: x in r1 <==> x in r2
    ensures r1 == r2
    decreases |r1|
  {
    if r1 != [] {
      assert r1[0] in r2;
    }
    if r2 != [] {
      assert r2[0] in r1;
    }
    if r1 != [] && r2 != [] {
      var a, b := r1[0], r2[0];
      assert a in r2;
      assert b in r1;
      assert a == b || LexLess(b, a);
      assert a == b || LexLess(a, b);
      if LexLess(a, b) {
        LexAsymmetric(a, b);
      }
      assert a == b;
      forall x ensures x in r1[1..] <==> x in r2[1..] {
        LexIrreflexive(a);
        if x in r1[1..] {
          var i :| 1 <= i < |r1| && r1[i] == x;
          assert x != a && x in r1 && x in r2;
          var k :| 0 <= k < |r2| && r2[k] == x;
          assert k != 0;
          assert r2[1..][k - 1] == x;
        }
        if x in r2[1..] {
          var i :| 1 <= i < |r2| && r2[i] == x;
          assert x != b && x in r2 && x in r1;
          var k :| 0 <= k < |r1| && r1[k] == x;
          assert k != 0;
          assert r1[1..][k - 1] == x;
        }
      }
      SortedUnique(r1[1..], r2[1..]);
    }
  }

  // ---- `sorted(folders, key=lambda x: x['path'].count('/'), reverse=True)` ----

  /** `p.count('/')`. */
  function SlashCount(p: string): nat
    decreases |p|
  {
    if p == [] then 0 else SlashCount(p[..|p| - 1]) + (if p[|p| - 1] == '/' then 1 else 0)
  }

  lemma {:induction false} SlashCountAppend(a: string, b: string)
    ensures SlashCount(a + b) == SlashCount(a) + SlashCount(b)
    decreases |b|
  {
    if b != [] {
      assert (a + b)[..|a + b| - 1] == a + b[..|b| - 1];
      SlashCountAppend(a, b[..|b| - 1]);
    } else {
      assert a + b == a;
    }
  }

  /** Deepest first. */
  predicate DeepestFirst(ds: seq<RemoteDir>)
  {
    forall i, j :: 0 <= i < j < |ds| ==> SlashCount(ds[i].path) >= SlashCount(ds[j].path)
  }

  /** Insertion after every folder at least as deep keeps folders of equal
      depth in their original order, as Python's stable sort does. */
  function InsertByDepth(d: RemoteDir, sorted: seq<RemoteDir>): (r: seq<RemoteDir>)
    ensures multiset(r) == multiset(sorted) + multiset{d}
    ensures |r| == |sorted| + 1
    ensures r[0] == d || (sorted != [] && r[0] == sorted[0])
    decreases |sorted|
  {
    if sorted == [] then [d]
    else if SlashCount(sorted[0].path) >= SlashCount(d.path) then
      assert sorted == [sorted[0]] + sorted[1..];
      [sorted[0]] + InsertByDepth(d, sorted[1..])
    else [d] + sorted
  }

  lemma {:induction false} InsertByDepthSorted(d: RemoteDir, sorted: seq<RemoteDir>)
    requires DeepestFirst(sorted)
    ensures DeepestFirst(InsertByDepth(d, sorted))
    decreases |sorted|
  {
    if sorted != [] && SlashCount(sorted[0].path) >= SlashCount(d.path) {
      var tail := InsertByDepth(d, sorted[1..]);
      InsertByDepthSorted(d, sorted[1..]);
      var top := SlashCount(sorted[0].path);
      assert top >= SlashCount(tail[0].path) by {
        if tail[0] != d {
          assert tail[0] == sorted[1];
        }
      }
      var r := [sorted[0]] + tail;
      forall i, j | 0 <= i < j < |r| ensures SlashCount(r[i].path) >= SlashCount(r[j].path) {
        assert r[j] == tail[j - 1];
        if i > 0 {
          assert r[i] == tail[i - 1];
        } else if j > 1 {
          assert SlashCount(tail[0].path) >= SlashCount(tail[j - 1].path);
        }
      }
    }
  }

  /** The order in which the executor deletes folders. */
  function ByDepthDesc(ds: seq<RemoteDir>): (r: seq<RemoteDir>)
    ensures DeepestFirst(r)
    ensures multiset(r) == multiset(ds)
    decreases |ds|
  {
    if ds == [] then []
    else
      assert ds == ds[..|ds| - 1] + [ds[|ds| - 1]];
      InsertByDepthSorted(ds[|ds| - 1], ByDepthDesc(ds[..|ds| - 1]));
      InsertByDepth(ds[|ds| - 1], ByDepthDesc(ds[..|ds| - 1]))
  }

  /** A path inside folder `parent` has more slashes than `parent`. */
  lemma {:induction false} DeeperInside(parent: string, child: string)
    requires StartsWith(child, parent + "/")
    ensures SlashCount(child) > SlashCount(parent)
  {
    var rest := child[|parent| + 1..];
    assert child == (parent + "/") + rest;
    SlashCountAppend(parent + "/", rest);
    SlashCountAppend(parent, "/");
    assert "/"[..0] == [];
  }

  /** A folder is deleted before any folder that contains it. */
  lemma {:induction false} ChildBeforeParent(ds: seq<RemoteDir>, i: nat, j: nat)
    requires i < |ByDepthDesc(ds)| && j < |ByDepthDesc(ds)|
    requires StartsWith(ByDepthDesc(ds)[j].path, ByDepthDesc(ds)[i].path + "/")
    ensures j < i
  {
    var order := ByDepthDesc(ds);
    DeeperInside(order[i].path, order[j].path);
    assert DeepestFirst(order);
  }
}
