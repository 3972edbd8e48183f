/**
  POSIX path helpers as Python's `posixpath` computes them, with the separator
  fixed to '/', and the shape of one step of `os.walk`.
*/
module Paths {
  import opened Text

  /** `os.sep` on a POSIX system. */
  const Sep: char := '/'

  /** One triple `(root, dirs, files)` produced by `os.walk`; the sub-directory
      names are not used by the scripts and are not kept. */
  datatype WalkEntry = WalkEntry(root: string, files: seq<string>)

  /** `os.path.join(a, b)` for two components: `b` alone when it is absolute,
      otherwise `a` and `b` with one separator between them unless `a` is empty or
      already ends with one. */
  function PathJoin(a: string, b: string): string {
    if b != [] && b[0] == Sep then b
    else if a == [] || a[|a| - 1] == Sep then a + b
    else a + [Sep] + b
  }

  /** A joined path ends with its last component; unless that component is
      absolute, it starts with the first one, and a separator is put between them
      exactly when the first is non-empty and does not already end with one. */
  lemma PathJoinShape(a: string, b: string)
    ensures EndsWith(PathJoin(a, b), b)
    ensures b == [] || b[0] != Sep ==> |a| <= |PathJoin(a, b)| && PathJoin(a, b)[..|a|] == a
    ensures b != [] && b[0] == Sep ==> PathJoin(a, b) == b
    ensures |PathJoin(a, b)| <= |a| + 1 + |b|
    ensures b == [] || b[0] != Sep ==>
              (|PathJoin(a, b)| == |a| + 1 + |b| <==> a != [] && a[|a| - 1] != Sep)
    ensures |PathJoin(a, b)| == |a| + 1 + |b| ==> PathJoin(a, b)[|a|] == Sep
  {
    if !(b != [] && b[0] == Sep) && !(a == [] || a[|a| - 1] == Sep) {
      assert PathJoin(a, b) == a + ([Sep] + b);
    }
  }

  /** `os.path.basename(p)`: everything after the last separator, or all of `p`
      when it has none. */
  function Basename(p: string): string {
    if p == [] || p[|p| - 1] == Sep then ""
    else Basename(p[..|p| - 1]) + [p[|p| - 1]]
  }

  /** The basename is a suffix of the path without a separator, and either it is
      the whole path or a separator comes right before it. */
  lemma {:induction false} BasenameShape(p: string)
    ensures Sep !in Basename(p)
    ensures EndsWith(p, Basename(p))
    ensures |Basename(p)| == |p| || p[|p| - |Basename(p)| - 1] == Sep
    decreases |p|
  {
    if !(p == [] || p[|p| - 1] == Sep) {
      var init := p[..|p| - 1];
      BasenameShape(init);
      var r := Basename(p);
      assert r == Basename(init) + [p[|p| - 1]];
      assert init[|init| - |Basename(init)|..] + [p[|p| - 1]] == p[|p| - |r|..];
    }
  }

  /** After a separator (or at the very start) the basename is everything that
      follows. */
  lemma {:induction false} BasenameAfterSep(dir: string, name: string)
    requires dir == [] || dir[|dir| - 1] == Sep
    requires Sep !in name
    ensures Basename(dir + name) == name
    decreases |name|
  {
    if name != [] {
      var init := name[..|name| - 1];
      assert (dir + name)[..|dir + name| - 1] == dir + init;
      BasenameAfterSep(dir, init);
    }
  }

  /** Joining a file name (non-empty, without a separator) to any directory and
      taking the basename gives the file name back. */
  lemma BasenameOfJoin(dir: string, name: string)
    requires name != [] && Sep !in name
    ensures Basename(PathJoin(dir, name)) == name
  {
    if dir == [] || dir[|dir| - 1] == Sep {
      BasenameAfterSep(dir, name);
    } else {
      assert PathJoin(dir, name) == (dir + [Sep]) + name;
      BasenameAfterSep(dir + [Sep], name);
    }
  }
}
