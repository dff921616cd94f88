/** The three `os.path` functions the render collector calls, with the
    semantics of Python's `posixpath`: `/` is the only separator; a
    backslash is an ordinary character. */
module PosixPath {

  /** `p.rfind(c)`: position of the last `c` in `p`, or -1. */
  function RFind(p: string, c: char): (i: int)
    ensures -1 <= i < |p|
    ensures 0 <= i ==> p[i] == c
    ensures forall j :: i < j < |p| ==> p[j] != c
  {
    if |p| == 0 then -1
    else if p[|p| - 1] == c then |p| - 1
    else RFind(p[..|p| - 1], c)
  }

  /** Everything up to and including the last `/` (empty when there is none). */
  function Head(p: string): string {
    p[..RFind(p, '/') + 1]
  }

  predicate AllSlashes(s: string) {
    forall i :: 0 <= i < |s| ==> s[i] == '/'
  }

  /** `s.rstrip(c)`. */
  function RStrip(s: string, c: char): (r: string)
    ensures |r| <= |s| && r == s[..|r|]
    ensures forall i :: |r| <= i < |s| ==> s[i] == c
    ensures |r| == 0 || r[|r| - 1] != c
  {
    if |s| > 0 && s[|s| - 1] == c then RStrip(s[..|s| - 1], c) else s
  }

  /** `posixpath.basename(p)`: the longest suffix of `p` without a `/`. */
  function Basename(p: string): (r: string)
    ensures |r| <= |p| && r == p[|p| - |r|..]
    ensures '/' !in r
    ensures |r| < |p| ==> p[|p| - |r| - 1] == '/'
  {
    p[RFind(p, '/') + 1..]
  }

  /** `posixpath.dirname(p)`: the part before the basename, with trailing
      slashes removed unless it consists of slashes only (the root). */
  function Dirname(p: string): (r: string)
    ensures |r| <= |p| && r == p[..|r|]
    ensures |r| == 0 <==> '/' !in p
    ensures |r| > 0 && r[|r| - 1] == '/' ==> AllSlashes(r)
    ensures |r| + |Basename(p)| <= |p|
    ensures forall j :: |r| <= j < |p| - |Basename(p)| ==> p[j] == '/'
    ensures |r| > 0 && r[|r| - 1] == '/' ==> |r| + |Basename(p)| == |p|
  {
    var head := Head(p);
    if |head| > 0 && !AllSlashes(head) then RStrip(head, '/') else head
  }

  /** `posixpath.join(a, b)`: an absolute `b` replaces `a`; otherwise a `/`
      goes between them unless `a` is empty or already ends in one. */
  function Join(a: string, b: string): (r: string)
    ensures |b| <= |r| <= |a| + 1 + |b|
  {
    if |b| > 0 && b[0] == '/' then b
    else if |a| == 0 || a[|a| - 1] == '/' then a + b
    else a + "/" + b
  }

  /** Joining a relative name never touches the directory: the result
      starts with it, and what follows is the name, preceded by a `/`
      exactly when the directory is non-empty and does not end in one. */
  lemma JoinKeepsDirectory(a: string, b: string)
    requires |b| == 0 || b[0] != '/'
    ensures Join(a, b)[..|a|] == a
    ensures |a| == 0 || a[|a| - 1] == '/' ==> Join(a, b) == a + b
    ensures |a| > 0 && a[|a| - 1] != '/' ==> Join(a, b) == a + "/" + b
  {
  }

  /** Splitting a path into `dirname` and `basename` and joining them again
      gives the path back, provided no `/` directly follows another `/`. */
  lemma SplitJoinRoundTrip(p: string)
    requires forall i :: 0 <= i < |p| - 1 ==> !(p[i] == '/' && p[i + 1] == '/')
    ensures Join(Dirname(p), Basename(p)) == p
  {
    var d, b := Dirname(p), Basename(p);
    var n := |p| - |b|;
    assert p == p[..n] + b;
    assert |b| == 0 || b[0] != '/';
    if |d| == 0 {
      assert n == 0;
    } else if d[|d| - 1] == '/' {
      assert p[|d| - 1] == '/';
      assert |d| == n;
      assert p[..n] == d;
    } else {
      assert p[n - 1] == '/' && n >= 2;
      assert p[n - 2] != '/';
      assert |d| == n - 1;
      assert p[..n] == p[..n - 1] + [p[n - 1]];
    }
  }
}
