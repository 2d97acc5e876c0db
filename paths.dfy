/**
 * String and path helpers with the meaning Python gives them: `str.split(sep)`,
 * `sep.join(parts)`, `str.strip(chars)`, `str.startswith`, `posixpath.join`
 * and `posixpath.dirname`.
 */
module Paths {

  /** Python's `str.split(sep)` for a one-character separator: the pieces
      between separators, in order; there is always at least one piece. */
  function Split(s: string, sep: char): (parts: seq<string>)
    ensures |parts| >= 1
    ensures forall i :: 0 <= i < |parts| ==> sep !in parts[i]
    ensures |parts| == 1 <==> sep !in s
    decreases |s|
  {
    if s == [] then [""]
    else
      var rest := Split(s[1..], sep);
      if s[0] == sep then [""] + rest
      else [[s[0]] + rest[0]] + rest[1..]
  }

  /** Python's `sep.join(parts)`. */
  function Join(parts: seq<string>, sep: char): string
    decreases |parts|
  {
    if parts == [] then ""
    else if |parts| == 1 then parts[0]
    else parts[0] + [sep] + Join(parts[1..], sep)
  }

  /** Joining a piece in front of at least one more. */
  lemma {:induction false} JoinCons(x: string, rest: seq<string>, sep: char)
    requires rest != []
    ensures Join([x] + rest, sep) == x + [sep] + Join(rest, sep)
  {
    assert ([x] + rest)[1..] == rest;
  }

  /** Joining after a character was put in front of the first piece puts
      that character in front of the join. */
  lemma {:induction false} JoinExtendFirst(c: char, rest: seq<string>, sep: char)
    requires rest != []
    ensures Join([[c] + rest[0]] + rest[1..], sep) == [c] + Join(rest, sep)
  {
    var parts := [[c] + rest[0]] + rest[1..];
    if |rest| > 1 {
      assert parts[1..] == rest[1..];
      var tail := Join(rest[1..], sep);
      assert Join(parts, sep) == [c] + rest[0] + [sep] + tail;
      assert Join(rest, sep) == rest[0] + [sep] + tail;
      assert [c] + rest[0] + [sep] + tail == [c] + (rest[0] + [sep] + tail);
    }
  }

  /** Joining the pieces of a split gives back the original string. */
  lemma {:induction false} JoinSplit(s: string, sep: char)
    ensures Join(Split(s, sep), sep) == s
    decreases |s|
  {
    if s != [] {
      JoinSplit(s[1..], sep);
      var rest := Split(s[1..], sep);
      assert [s[0]] + s[1..] == s;
      if s[0] == sep {
        JoinCons("", rest, sep);
        assert "" + [sep] + s[1..] == [s[0]] + s[1..];
      } else {
        JoinExtendFirst(s[0], rest, sep);
      }
    }
  }

  /** Splitting text without a separator in front of more text. */
  lemma {:induction false} SplitPrefix(a: string, b: string, sep: char)
    requires sep !in a
    ensures Split(a + b, sep) == [a + Split(b, sep)[0]] + Split(b, sep)[1..]
    decreases |a|
  {
    if a == [] {
      var t := Split(b, sep);
      assert a + b == b;
      assert a + t[0] == t[0];
      assert [t[0]] + t[1..] == t;
    } else {
      assert a[0] in a;
      assert (a + b)[0] == a[0];
      assert (a + b)[1..] == a[1..] + b;
      SplitPrefix(a[1..], b, sep);
      var rest := Split(a[1..] + b, sep);
      assert rest[0] == a[1..] + Split(b, sep)[0];
      assert rest[1..] == Split(b, sep)[1..];
      assert Split(a + b, sep) == [[a[0]] + rest[0]] + rest[1..];
      assert [a[0]] + (a[1..] + Split(b, sep)[0]) == a + Split(b, sep)[0] by {
        assert [a[0]] + a[1..] == a;
      }
    }
  }

  /** Splitting a join gives back the pieces when no piece holds the separator. */
  lemma {:induction false} SplitJoin(parts: seq<string>, sep: char)
    requires |parts| >= 1
    requires forall i :: 0 <= i < |parts| ==> sep !in parts[i]
    ensures Split(Join(parts, sep), sep) == parts
    decreases |parts|
  {
    if |parts| == 1 {
      var t := Split(parts[0], sep);
      assert |t| == 1;
      JoinSplit(parts[0], sep);
    } else {
      var rest := Join(parts[1..], sep);
      SplitJoin(parts[1..], sep);
      assert parts[0] + [sep] + rest == parts[0] + ([sep] + rest);
      SplitPrefix(parts[0], [sep] + rest, sep);
      assert ([sep] + rest)[1..] == rest;
      assert Split([sep] + rest, sep) == [""] + parts[1..];
      assert parts[0] + "" == parts[0];
      assert [parts[0]] + parts[1..] == parts;
    }
  }

  /** Python's `str.lstrip(chars)`: drops leading characters from `cs`. */
  function LStrip(s: string, cs: set<char>): (r: string)
    ensures |r| <= |s| && r == s[|s| - |r|..]
    ensures r == [] || r[0] !in cs
    ensures forall i :: 0 <= i < |s| - |r| ==> s[i] in cs
    decreases |s|
  {
    if s != [] && s[0] in cs then LStrip(s[1..], cs) else s
  }

  /** Python's `str.rstrip(chars)`: drops trailing characters from `cs`. */
  function RStrip(s: string, cs: set<char>): (r: string)
    ensures |r| <= |s| && r == s[..|r|]
    ensures r == [] || r[|r| - 1] !in cs
    ensures forall i :: |r| <= i < |s| ==> s[i] in cs
    decreases |s|
  {
    if s != [] && s[|s| - 1] in cs then RStrip(s[..|s| - 1], cs) else s
  }

  /** Python's `str.strip(chars)`. */
  function Strip(s: string, cs: set<char>): string
  {
    RStrip(LStrip(s, cs), cs)
  }

  /** Stripping a string that neither starts nor ends with a stripped
      character changes nothing. */
  lemma {:induction false} StripClean(s: string, cs: set<char>)
    requires s == [] || (s[0] !in cs && s[|s| - 1] !in cs)
    ensures Strip(s, cs) == s
  {
  }

  /** Stripping a string wrapped in one stripped character on each side gives
      back that string, when the string itself is clean. */
  lemma {:induction false} StripWrapped(s: string, q: char, cs: set<char>)
    requires q in cs
    requires s == [] || (s[0] !in cs && s[|s| - 1] !in cs)
    ensures Strip([q] + s + [q], cs) == s
  {
    var w := [q] + s + [q];
    assert w[1..] == s + [q];
    if s == [] {
      assert LStrip(w, cs) == [];
    } else {
      assert (s + [q])[0] == s[0];
      assert LStrip(w, cs) == s + [q];
      assert (s + [q])[..|s|] == s;
    }
  }

  /** The whitespace that Python's argument-less `str.strip()` and
      `str.split()` treat as separators. */
  const Whitespace: set<char> :=
    {' ', '\t', '\n', '\r', '\U{0B}', '\U{0C}', '\U{1C}', '\U{1D}', '\U{1E}', '\U{1F}',
     '\U{85}', '\U{A0}', '\U{1680}', '\U{2000}', '\U{2001}', '\U{2002}', '\U{2003}',
     '\U{2004}', '\U{2005}', '\U{2006}', '\U{2007}', '\U{2008}', '\U{2009}', '\U{200A}',
     '\U{2028}', '\U{2029}', '\U{202F}', '\U{205F}', '\U{3000}'}

  /** Python's `str.startswith(prefix)`. */
  predicate StartsWith(s: string, prefix: string)
  {
    |prefix| <= |s| && s[..|prefix|] == prefix
  }

  /** Python's `posixpath.join(a, b)` for two arguments. */
  function OsJoin(a: string, b: string): string
  {
    if b != [] && b[0] == '/' then b
    else if a == [] || a[|a| - 1] == '/' then a + b
    else a + "/" + b
  }

  /** One past the index of the last '/', or 0 when there is none
      (`p.rfind('/') + 1`). */
  function AfterLastSlash(p: string): (i: nat)
    ensures i <= |p|
    decreases |p|
  {
    if p == [] then 0
    else if p[|p| - 1] == '/' then |p|
    else AfterLastSlash(p[..|p| - 1])
  }

  /** The length of `p[..n]` once its trailing '/' are taken off. */
  function TrimSlashes(p: string, n: nat): (m: nat)
    requires n <= |p|
    ensures m <= n
    decreases n
  {
    if n == 0 || p[n - 1] != '/' then n else TrimSlashes(p, n - 1)
  }

  /** Python's `posixpath.dirname(p)`: the head `p[..i]` before the last '/',
      with its trailing slashes taken off unless it consists of slashes only
      (then nothing is left once they are trimmed, and the head is kept). */
  function Dirname(p: string): string
  {
    var n := AfterLastSlash(p);
    var m := TrimSlashes(p, n);
    if m == 0 then p[..n] else p[..m]
  }

  /** A component of a relative path as `os.path.relpath` produces it: not
      empty, without '/', and neither "." nor "..". */
  predicate ValidComponent(c: string)
  {
    c != "" && '/' !in c && c != "." && c != ".."
  }

  /** A normalised relative path: every '/'-separated component is valid. */
  predicate NormalPath(p: string)
  {
    forall i :: 0 <= i < |Split(p, '/')| ==> ValidComponent(Split(p, '/')[i])
  }

  /** The '/'-separated components of a path. */
  function Components(p: string): (cs: seq<string>)
    ensures |cs| >= 1
  {
    Split(p, '/')
  }

  /** With a '/' at `j` and none after it, the last slash is at `j`. */
  lemma {:induction false} AfterLastSlashAt(p: string, j: nat)
    requires j < |p| && p[j] == '/'
    requires forall k :: j < k < |p| ==> p[k] != '/'
    ensures AfterLastSlash(p) == j + 1
    decreases |p|
  {
    if j < |p| - 1 {
      AfterLastSlashAt(p[..|p| - 1], j);
    }
  }

  lemma {:induction false} AfterLastSlashOf(a: string, b: string)
    requires '/' !in b
    ensures AfterLastSlash(a + "/" + b) == |a| + 1
  {
    var head := a + "/";
    var p := head + b;
    assert |head| == |a| + 1 && head[|a|] == '/';
    forall k | |head| <= k < |p| ensures p[k] != '/' {
      assert p[k] == b[k - |head|];
      assert b[k - |head|] in b;
    }
    AfterLastSlashAt(p, |a|);
  }

  lemma {:induction false} AfterLastSlashNone(b: string)
    requires '/' !in b
    ensures AfterLastSlash(b) == 0
    decreases |b|
  {
    if b != [] {
      assert b[|b| - 1] in b;
      AfterLastSlashNone(b[..|b| - 1]);
    }
  }

  /** Joining valid components gives a normalised path whose components are
      exactly those components. */
  lemma {:induction false} JoinNormal(parts: seq<string>)
    requires |parts| >= 1
    requires forall i :: 0 <= i < |parts| ==> ValidComponent(parts[i])
    ensures Components(Join(parts, '/')) == parts
    ensures NormalPath(Join(parts, '/'))
  {
    SplitJoin(parts, '/');
  }

  /** A joined path ends with the last character of its last component. */
  lemma {:induction false} JoinEnds(parts: seq<string>, sep: char)
    requires |parts| >= 1 && parts[|parts| - 1] != []
    ensures |Join(parts, sep)| > 0
    ensures Join(parts, sep)[|Join(parts, sep)| - 1] == parts[|parts| - 1][|parts[|parts| - 1]| - 1]
    decreases |parts|
  {
    if |parts| > 1 {
      JoinEnds(parts[1..], sep);
    }
  }

  /** Appending one more component to a joined path. */
  lemma {:induction false} JoinSnoc(parts: seq<string>, c: string)
    requires |parts| >= 1
    ensures Join(parts + [c], '/') == Join(parts, '/') + "/" + c
    decreases |parts|
  {
    if |parts| == 1 {
      assert (parts + [c])[1..] == [c];
    } else {
      assert (parts + [c])[1..] == parts[1..] + [c];
      JoinSnoc(parts[1..], c);
    }
  }

  /** The directory part of a normalised path is the join of all but its last
      component, and the empty string for a one-component path. */
  lemma {:induction false} DirnameOfNormal(p: string)
    requires NormalPath(p)
    ensures |Components(p)| == 1 ==> Dirname(p) == ""
    ensures |Components(p)| > 1 ==>
      Dirname(p) == Join(Components(p)[..|Components(p)| - 1], '/')
  {
    var cs := Components(p);
    JoinSplit(p, '/');
    if |cs| == 1 {
      AfterLastSlashNone(p);
    } else {
      var init := cs[..|cs| - 1];
      var last := cs[|cs| - 1];
      assert init + [last] == cs;
      JoinSnoc(init, last);
      var a := Join(init, '/');
      assert p == a + "/" + last;
      var l := init[|init| - 1];
      assert ValidComponent(l);
      JoinEnds(init, '/');
      assert a[|a| - 1] == l[|l| - 1];
      assert l[|l| - 1] != '/' by { assert l[|l| - 1] in l; }
      DirnameOfJoin(a, last);
    }
  }

  /** The directory of `a/b` is `a` when `a` does not end in '/' and `b`
      holds none. */
  lemma {:induction false} DirnameOfJoin(a: string, b: string)
    requires a != [] && a[|a| - 1] != '/' && '/' !in b
    ensures Dirname(a + "/" + b) == a
  {
    var p := a + "/" + b;
    AfterLastSlashOf(a, b);
    assert p[|a|] == '/' && p[|a| - 1] != '/';
    assert TrimSlashes(p, |a| + 1) == |a|;
    assert p[..|a|] == a;
  }

  /** The directory of a normalised path is empty exactly for a
      one-component path; otherwise it is itself normalised and its
      components are all but the last component of the path. */
  lemma {:induction false} DirnameComponents(p: string)
    requires NormalPath(p)
    ensures Dirname(p) == "" <==> |Components(p)| == 1
    ensures Dirname(p) != "" ==>
              && NormalPath(Dirname(p))
              && Components(Dirname(p)) == Components(p)[..|Components(p)| - 1]
  {
    var cs := Components(p);
    DirnameOfNormal(p);
    if |cs| > 1 {
      var init := cs[..|cs| - 1];
      JoinNormal(init);
      JoinEnds(init, '/');
    }
  }
}
