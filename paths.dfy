/** The parts of Python's `posixpath` the tools rely on: basename, dirname,
    join and relpath, over '/'-separated strings. */
module Paths {
  import opened Strings

  /** `os.path.basename(p)`: the text after the last '/'. */
  function Basename(p: string): (r: string)
    ensures '/' !in r
    ensures |r| <= |p| && r == p[|p| - |r|..]
    ensures |r| < |p| ==> p[|p| - |r| - 1] == '/'
  {
    p[LastIndexOf(p, '/') + 1..]
  }

  /** `os.path.basename(p).split('.')[0]`: the file name up to its first '.'. */
  function Stem(p: string): (s: string)
    ensures '.' !in s && '/' !in s
    ensures s == Split(Basename(p), '.')[0]
  {
    BeforeFirst(Basename(p), '.')
  }

  predicate AllSlashes(s: string) {
    forall i :: 0 <= i < |s| ==> s[i] == '/'
  }

  /** `s.rstrip('/')`. */
  function RStripSlashes(s: string): (r: string)
    ensures |r| <= |s| && r == s[..|r|]
    ensures r == [] || r[|r| - 1] != '/'
    ensures forall i :: |r| <= i < |s| ==> s[i] == '/'
  {
    if s != [] && s[|s| - 1] == '/' then RStripSlashes(s[..|s| - 1]) else s
  }

  /** `os.path.dirname(p)`: everything before the last '/', with trailing
      slashes removed unless the head consists of slashes only. */
  function Dirname(p: string): string {
    var head := p[..LastIndexOf(p, '/') + 1];
    if head != [] && !AllSlashes(head) then RStripSlashes(head) else head
  }

  /** `os.path.join(a, b)`. */
  function Join(a: string, b: string): string {
    if StartsWith(b, "/") then b
    else if a == [] || a[|a| - 1] == '/' then a + b
    else a + "/" + b
  }

  /** Joining a directory and a plain file name is undone by dirname and basename. */
  lemma JoinSplitsBack(d: string, n: string)
    requires '/' !in n
    requires d == [] || d[|d| - 1] != '/'
    ensures Dirname(Join(d, n)) == d
    ensures Basename(Join(d, n)) == n
  {
    if n != [] { assert n[0] != '/'; }
    assert !StartsWith(n, "/");
    var p := Join(d, n);
    if d == [] {
      assert p == n;
      LastIndexOfAbsent(n, '/');
    } else {
      assert p == d + "/" + n;
      assert p[|d|] == '/';
      assert forall m :: |d| < m < |p| ==> p[m] == n[m - |d| - 1];
      LastIndexOfUnique(p, '/', |d|);
      var head := p[..|d| + 1];
      assert head == d + "/";
      assert head[|d| - 1] != '/';
      assert RStripSlashes(head) == RStripSlashes(d);
      assert p[|d| + 1..] == n;
    }
  }

  /** Whatever the directory, the basename of a joined plain name is that name. */
  lemma JoinBasename(a: string, n: string)
    requires '/' !in n
    ensures Basename(Join(a, n)) == n
  {
    if n != [] { assert n[0] != '/'; }
    assert !StartsWith(n, "/");
    var p := Join(a, n);
    if a == [] {
      assert p == n;
      LastIndexOfAbsent(n, '/');
    } else if a[|a| - 1] == '/' {
      assert p == a + n;
      assert forall m :: |a| - 1 < m < |p| ==> p[m] == n[m - |a|];
      LastIndexOfUnique(p, '/', |a| - 1);
      assert p[|a|..] == n;
    } else {
      assert p == a + "/" + n;
      assert forall m :: |a| < m < |p| ==> p[m] == n[m - |a| - 1];
      LastIndexOfUnique(p, '/', |a|);
      assert p[|a| + 1..] == n;
    }
  }

  /** The path `p` lies inside directory `start`. */
  predicate IsUnder(start: string, p: string) {
    StartsWith(p, start + "/")
  }

  /** `os.path.relpath(p, start)` for a path that lies inside `start`. */
  function RelPath(start: string, p: string): (r: string)
    requires IsUnder(start, p)
    ensures start + "/" + r == p
  {
    p[|start| + 1..]
  }
}
