/**
 * The two POSIX path operations the scripts rely on: `os.path.basename` and
 * the two-argument `os.path.join`.
 */
module Paths {

  const SEPARATOR: char := '/'

  /**
   * `os.path.basename(p)`: everything after the last separator, or the whole
   * path when it holds none.
   */
  function Basename(p: string): (r: string)
    ensures SEPARATOR !in r
  {
    if p == [] || p[|p| - 1] == SEPARATOR then []
    else Basename(p[..|p| - 1]) + [p[|p| - 1]]
  }

  /**
   * The basename is a suffix of the path, and it is either the whole path or
   * what follows a separator: it is the last component of the path.
   */
  lemma {:induction false} BasenameIsLastComponent(p: string)
    ensures var r := Basename(p);
            && |r| <= |p| && r == p[|p| - |r|..]
            && (|r| == |p| || p[|p| - |r| - 1] == SEPARATOR)
    decreases |p|
  {
    if p != [] && p[|p| - 1] != SEPARATOR {
      var init := p[..|p| - 1];
      BasenameIsLastComponent(init);
      var b := Basename(init);
      assert p == init + [p[|p| - 1]];
      assert Basename(p) == b + [p[|p| - 1]];
      assert init[|init| - |b|..] + [p[|p| - 1]] == p[|p| - |b| - 1..];
    }
  }

  /**
   * `os.path.join(a, b)`: an absolute `b` replaces `a`; otherwise a separator
   * is put between the two unless `a` is empty or already ends with one.
   */
  function Join(a: string, b: string): (r: string)
    ensures |b| <= |r| && r[|r| - |b|..] == b
    ensures b != [] && b[0] == SEPARATOR ==> r == b
    ensures (b == [] || b[0] != SEPARATOR) ==> |a| <= |r| && r[..|a|] == a
  {
    if b != [] && b[0] == SEPARATOR then b
    else if a == [] || a[|a| - 1] == SEPARATOR then a + b
    else a + [SEPARATOR] + b
  }

  /** A name without separators, put after a directory prefix, is its own basename. */
  lemma {:induction false} BasenameAfterSeparator(dir: string, name: string)
    requires dir == [] || dir[|dir| - 1] == SEPARATOR
    requires SEPARATOR !in name
    ensures Basename(dir + name) == name
    decreases |name|
  {
    if name == [] {
      assert dir + name == dir;
    } else {
      var init := name[..|name| - 1];
      assert (dir + name)[..|dir + name| - 1] == dir + init;
      BasenameAfterSeparator(dir, init);
      assert init + [name[|name| - 1]] == name;
    }
  }

  /** Joining a directory and a plain file name, then taking the basename, gives the file name back. */
  lemma BasenameOfJoin(dir: string, name: string)
    requires SEPARATOR !in name
    ensures Basename(Join(dir, name)) == name
  {
    if dir == [] || dir[|dir| - 1] == SEPARATOR {
      BasenameAfterSeparator(dir, name);
    } else {
      assert dir + [SEPARATOR] + name == (dir + [SEPARATOR]) + name;
      BasenameAfterSeparator(dir + [SEPARATOR], name);
    }
  }
}
