/**
 * POSIX path handling as Node's `path` module does it on Linux: the separator
 * `path.sep`, and `path.dirname` / `path.basename`, which the packaging step
 * uses to run `tar` from the parent of the project directory.
 */
module Paths {
  import opened Wrappers
  import opened Text

  /** `path.sep` on a POSIX system. */
  const Sep: char := '/'

  /** The path without its trailing separators (all of them, so "/" becomes ""). */
  function StripTrailingSeps(p: string): (q: string)
    ensures StartsWith(p, q)
    ensures q == [] || q[|q| - 1] != Sep
    ensures forall i | |q| <= i < |p| :: p[i] == Sep
  {
    if |p| > 0 && p[|p| - 1] == Sep then StripTrailingSeps(p[..|p| - 1]) else p
  }

  /**
   * `path.dirname`: everything before the last separator that is followed by
   * a non-separator, "/" or "." when there is none, and "//" for a path
   * that starts with exactly that prefix before its last name.
   */
  function DirName(p: string): (d: string)
    ensures d == "." || d == "/" || d == "//" || (StartsWith(p, d) && |d| < |p| && p[|d|] == Sep)
    ensures |p| > 0 && p[0] == Sep ==> |d| > 0 && d[0] == Sep
  {
    var q := StripTrailingSeps(p);
    if q == [] then (if p == [] then "." else "/")
    else
      var d := ParentOfStripped(q);
      assert d != "." && d != "/" && d != "//" ==> p[..|d|] == q[..|d|];
      d
  }

  /** `path.dirname` of a non-empty path that has no trailing separator. */
  function ParentOfStripped(q: string): (d: string)
    requires q != []
    ensures d == "." || d == "/" || d == "//" || (StartsWith(q, d) && |d| < |q| && q[|d|] == Sep)
    ensures q[0] == Sep ==> |d| > 0 && d[0] == Sep
  {
    match LastIndexOf(q, Sep)
    case None => "."
    case Some(i) =>
      if i == 0 then "/"
      else if i == 1 && q[0] == Sep then "//"
      else q[..i]
  }

  /** `path.basename` without a suffix argument: the last name of the path. */
  function BaseName(p: string): (b: string)
    ensures Sep !in b
    ensures EndsWith(StripTrailingSeps(p), b)
    ensures var q := StripTrailingSeps(p); |b| == |q| || q[|q| - |b| - 1] == Sep
  {
    var q := StripTrailingSeps(p);
    match LastIndexOf(q, Sep)
    case None => q
    case Some(i) => q[i + 1..]
  }

  /** A directory path that does not end in a separator. */
  predicate NormalDir(dir: string) {
    |dir| > 0 && dir[|dir| - 1] != Sep
  }

  /** A single path component. */
  predicate Name(name: string) {
    |name| > 0 && Sep !in name
  }

  /**
   * Joining a directory and a name with `path.sep` and splitting the result
   * with `dirname` / `basename` gives both back, so the parent, a separator
   * and the base name rebuild the joined path.
   */
  lemma JoinSplit(dir: string, name: string)
    requires NormalDir(dir) && Name(name)
    ensures DirName(dir + [Sep] + name) == dir
    ensures BaseName(dir + [Sep] + name) == name
    ensures DirName(dir + [Sep] + name) + [Sep] + BaseName(dir + [Sep] + name) == dir + [Sep] + name
  {
    var p := dir + [Sep] + name;
    assert p[|p| - 1] == name[|name| - 1];
    assert name[|name| - 1] in name;
    assert StripTrailingSeps(p) == p;
    LastIndexOfAfter(dir, Sep, name);
    assert p[..|dir|] == dir;
    assert p[|dir| + 1..] == name;
    if |dir| == 1 {
      assert p[0] == dir[0];
    }
  }

  /** Appending a separator does not change the path once trailing separators are stripped. */
  lemma StripAppendedSep(p: string)
    ensures StripTrailingSeps(p + [Sep]) == StripTrailingSeps(p)
  {
    assert (p + [Sep])[..|p|] == p;
  }

  /** A path with a trailing separator names the same directory as the path without it. */
  lemma {:induction false} TrailingSepIgnored(p: string)
    ensures DirName(p + [Sep]) == DirName(p) || p == []
    ensures BaseName(p + [Sep]) == BaseName(p)
  {
    StripAppendedSep(p);
    assert p + [Sep] != [];
  }
}
