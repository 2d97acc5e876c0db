/** Filtering, counting and searching over sequences, as Python list
    comprehensions and `for ... break` loops do. */
module Seqs {
  import opened Wrappers

  /** `r` is `s` with some elements left out, the rest in their original order. */
  predicate Subsequence<T(==)>(r: seq<T>, s: seq<T>)
    decreases |s|
  {
    if r == [] then true
    else if s == [] then false
    else if r[0] == s[0] then Subsequence(r[1..], s[1..])
    else Subsequence(r, s[1..])
  }

  /** `[x for x in s if keep(x)]`: exactly the kept elements, in input order. */
  function Filter<T(==,!new)>(s: seq<T>, keep: T -> bool): (r: seq<T>)
    ensures forall x :: x in r <==> x in s && keep(x)
    ensures Subsequence(r, s)
    ensures |r| <= |s|
    decreases |s|
  {
    if s == [] then []
    else
      var rest := Filter(s[1..], keep);
      if keep(s[0]) then
        [s[0]] + rest
      else
        assert rest != [] ==> rest[0] in rest && rest[0] != s[0];
        rest
  }

  /** The number of elements of `s` for which `p` holds. */
  function Count<T>(s: seq<T>, p: T -> bool): nat
    decreases |s|
  {
    if s == [] then 0 else (if p(s[0]) then 1 else 0) + Count(s[1..], p)
  }

  /** Counting a sequence extended by one element. */
  lemma {:induction false} CountSnoc<T>(s: seq<T>, x: T, p: T -> bool)
    ensures Count(s + [x], p) == Count(s, p) + (if p(x) then 1 else 0)
    decreases |s|
  {
    if s != [] {
      assert (s + [x])[1..] == s[1..] + [x];
      CountSnoc(s[1..], x, p);
    }
  }

  /** Counting over a concatenation. */
  lemma {:induction false} CountAppend<T>(a: seq<T>, b: seq<T>, p: T -> bool)
    ensures Count(a + b, p) == Count(a, p) + Count(b, p)
    decreases |a|
  {
    if a == [] {
      assert a + b == b;
    } else {
      assert (a + b)[1..] == a[1..] + b;
      CountAppend(a[1..], b, p);
    }
  }

  /** A filter keeps as many elements as the predicate counts. */
  lemma {:induction false} FilterCount<T(!new)>(s: seq<T>, p: T -> bool)
    ensures |Filter(s, p)| == Count(s, p)
    decreases |s|
  {
    if s != [] {
      FilterCount(s[1..], p);
    }
  }

  /** When no element satisfies `p`, the count is zero, and conversely. */
  lemma {:induction false} CountZero<T>(s: seq<T>, p: T -> bool)
    ensures Count(s, p) == 0 <==> forall i :: 0 <= i < |s| ==> !p(s[i])
    decreases |s|
  {
    if s != [] {
      CountZero(s[1..], p);
      assert forall i :: 1 <= i < |s| ==> s[i] == s[1..][i - 1];
    }
  }

  /** The count never exceeds the length, and reaches it exactly when every
      element satisfies `p`. */
  lemma {:induction false} CountAll<T>(s: seq<T>, p: T -> bool)
    ensures Count(s, p) <= |s|
    ensures Count(s, p) == |s| <==> forall i :: 0 <= i < |s| ==> p(s[i])
    decreases |s|
  {
    if s != [] {
      CountAll(s[1..], p);
      assert forall i :: 1 <= i < |s| ==> s[i] == s[1..][i - 1];
    }
  }

  /** An element satisfying `p` that occurs exactly once, with nothing else
      satisfying `p`, is counted exactly once. */
  lemma {:induction false} CountOne<T>(s: seq<T>, k: nat, p: T -> bool)
    requires k < |s| && p(s[k])
    requires forall i :: 0 <= i < |s| && i != k ==> !p(s[i])
    ensures Count(s, p) == 1
    decreases |s|
  {
    if k == 0 {
      CountZero(s[1..], p);
    } else {
      CountOne(s[1..], k - 1, p);
    }
  }

  /** A subset is no larger than the set that contains it. */
  lemma {:induction false} SubsetCard<T>(a: set<T>, b: set<T>)
    requires a <= b
    ensures |a| <= |b|
    decreases |a|
  {
    if |a| > 0 {
      var x :| x in a;
      SubsetCard(a - {x}, b - {x});
    }
  }

  /** A single element present in `t` is a subsequence of it. */
  lemma {:induction false} SubsequenceSingle<T>(x: T, t: seq<T>)
    requires x in t
    ensures Subsequence([x], t)
    decreases |t|
  {
    if t[0] != x {
      assert x in t[1..];
      SubsequenceSingle(x, t[1..]);
    }
  }

  lemma {:induction false} SubsequenceAppendRight<T>(r: seq<T>, s: seq<T>, t: seq<T>)
    requires Subsequence(r, s)
    ensures Subsequence(r, s + t)
    decreases |s|
  {
    if r != [] {
      assert (s + t)[0] == s[0] && (s + t)[1..] == s[1..] + t;
      if r[0] == s[0] {
        SubsequenceAppendRight(r[1..], s[1..], t);
      } else {
        SubsequenceAppendRight(r, s[1..], t);
      }
    }
  }

  lemma {:induction false} SubsequenceSnocBoth<T>(r: seq<T>, s: seq<T>, x: T)
    requires Subsequence(r, s)
    ensures Subsequence(r + [x], s + [x])
    decreases |s|
  {
    if r == [] {
      assert r + [x] == [x];
      SubsequenceSingle(x, s + [x]);
    } else {
      assert (s + [x])[0] == s[0] && (s + [x])[1..] == s[1..] + [x];
      assert (r + [x])[0] == r[0] && (r + [x])[1..] == r[1..] + [x];
      if r[0] == s[0] {
        SubsequenceSnocBoth(r[1..], s[1..], x);
      } else {
        SubsequenceSnocBoth(r, s[1..], x);
      }
    }
  }

  /** Extending a filtered prefix by the next element, kept or not. */
  lemma {:induction false} SubsequenceSnoc<T>(r: seq<T>, s: seq<T>, x: T, keep: bool)
    requires Subsequence(r, s)
    ensures Subsequence(r + (if keep then [x] else []), s + [x])
  {
    if keep {
      SubsequenceSnocBoth(r, s, x);
    } else {
      SubsequenceAppendRight(r, s, [x]);
      assert r + [] == r;
    }
  }

  /** A `for x in s: if found(x): ... break` search: the first element
      that satisfies `found`, and none exactly when no element does. */
  function FirstWhere<T>(s: seq<T>, found: T -> bool): (r: Option<T>)
    ensures r.Some? ==> r.value in s && found(r.value)
    ensures r.Some? ==> exists k :: 0 <= k < |s| && s[k] == r.value && forall j :: 0 <= j < k ==> !found(s[j])
    ensures r.None? <==> forall i :: 0 <= i < |s| ==> !found(s[i])
    decreases |s|
  {
    if s == [] then None
    else if found(s[0]) then Some(s[0])
    else FirstWhere(s[1..], found)
  }
}
