/** POSIX path manipulation as Python's `posixpath` performs it. */
module Paths {
  import opened Strings

  /** `os.path.basename(p)`: everything after the last `/`. */
  function Basename(p: string): (r: string)
    ensures '/' !in r
    ensures |r| <= |p| && r == p[|p| - |r|..]
    ensures |r| < |p| ==> p[|p| - |r| - 1] == '/'
  {
    if |p| == 0 || p[|p| - 1] == '/' then [] else Basename(p[..|p| - 1]) + [p[|p| - 1]]
  }

  /** The part of `p` up to and including its last `/`. */
  function Head(p: string): (r: string)
    ensures r + Basename(p) == p
    ensures |r| > 0 ==> r[|r| - 1] == '/'
  {
    p[..|p| - |Basename(p)|]
  }

  predicate AllSlashes(s: string)
  {
    forall i :: 0 <= i < |s| ==> s[i] == '/'
  }

  /** `s.rstrip('/')` */
  function TrimSlashes(s: string): (r: string)
    ensures |r| <= |s| && r == s[..|r|]
    ensures forall i :: |r| <= i < |s| ==> s[i] == '/'
    ensures |r| > 0 ==> r[|r| - 1] != '/'
  {
    if |s| > 0 && s[|s| - 1] == '/' then TrimSlashes(s[..|s| - 1]) else s
  }

  /** `os.path.dirname(p)`: the head of `p` without its trailing slashes,
      unless the head consists of slashes only. */
  function Dirname(p: string): (r: string)
    ensures |r| <= |p| && r == p[..|r|]
  {
    var h := Head(p);
    if |h| > 0 && !AllSlashes(h) then TrimSlashes(h) else h
  }

  /** `os.path.join(a, b)` for two components. */
  function Join(a: string, b: string): (r: string)
    ensures EndsWith(r, b)
    ensures !StartsWith(b, "/") ==> StartsWith(r, a)
  {
    if StartsWith(b, "/") then b
    else if |a| == 0 || a[|a| - 1] == '/' then a + b
    else a + "/" + b
  }

  lemma {:induction false} BasenameAfterSlash(x: string, b: string)
    requires '/' !in b
    requires |x| == 0 || x[|x| - 1] == '/'
    ensures Basename(x + b) == b
    decreases |b|
  {
    if |b| == 0 {
      assert x + b == x;
    } else {
      var p := x + b;
      var last := b[|b| - 1];
      assert last in b;
      assert p[|p| - 1] == last;
      assert p[..|p| - 1] == x + b[..|b| - 1];
      assert Basename(p) == Basename(p[..|p| - 1]) + [last];
      BasenameAfterSlash(x, b[..|b| - 1]);
      assert b[..|b| - 1] + [last] == b;
    }
  }

  /** Joining a slash-free name onto any directory and taking the basename
      gives the name back. */
  lemma {:induction false} BasenameOfJoin(a: string, b: string)
    requires '/' !in b
    ensures Basename(Join(a, b)) == b
  {
    NoLeadingSlash(b);
    if |a| == 0 || a[|a| - 1] == '/' {
      assert Join(a, b) == a + b;
      BasenameAfterSlash(a, b);
    } else {
      assert Join(a, b) == (a + "/") + b;
      BasenameAfterSlash(a + "/", b);
    }
  }

  lemma NoLeadingSlash(b: string)
    requires '/' !in b
    ensures !StartsWith(b, "/")
  {
    if |b| > 0 {
      assert b[0] in b;
      assert b[..1][0] == b[0];
    }
  }

  /** Joining a slash-free name onto a directory that does not end in a slash
      and taking the dirname gives the directory back. */
  lemma {:induction false} DirnameOfJoin(a: string, b: string)
    requires '/' !in b
    requires |a| > 0 && a[|a| - 1] != '/'
    ensures Dirname(Join(a, b)) == a
  {
    NoLeadingSlash(b);
    var p := Join(a, b);
    assert p == (a + "/") + b;
    BasenameOfJoin(a, b);
    var h := Head(p);
    assert h == a + "/";
    assert h[|a| - 1] != '/';
    assert !AllSlashes(h);
    assert h[..|h| - 1] == a;
  }
}
