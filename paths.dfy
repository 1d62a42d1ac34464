/** The `os.path` operations the scripts apply to POSIX paths. */
module Paths {
  import opened Text

  /** `os.path.basename(p)`: what follows the last '/'. */
  function Basename(p: string): (r: string)
    ensures |r| <= |p| && r == p[|p| - |r|..]
    ensures '/' !in r
    ensures |r| < |p| ==> p[|p| - |r| - 1] == '/'
    decreases |p|
  {
    if p == [] || p[|p| - 1] == '/' then [] else Basename(p[..|p| - 1]) + [p[|p| - 1]]
  }

  /** A path without separators is its own base name. */
  lemma BasenameNoSeparator(p: string)
    requires '/' !in p
    ensures Basename(p) == p
  {
    var r := Basename(p);
    if |r| < |p| {
      assert false;
    }
  }

  /** `os.path.join(dir, name)` for two components: an absolute name replaces the directory, and a
      separator is inserted unless the directory is empty or already ends with one. */
  function PathJoin(dir: string, name: string): (r: string)
    ensures EndsWith(r, name)
  {
    if StartsWith(name, "/") then name
    else if dir == [] || dir[|dir| - 1] == '/' then dir + name
    else dir + "/" + name
  }

  /** A name without separators after a separator (or at the start) is the base name. */
  lemma {:induction false} BasenameAfterSeparator(dir: string, name: string)
    requires name != [] && '/' !in name
    requires dir == [] || dir[|dir| - 1] == '/'
    ensures Basename(dir + name) == name
    decreases |name|
  {
    var p := dir + name;
    var init, c := name[..|name| - 1], name[|name| - 1];
    assert p[..|p| - 1] == dir + init;
    assert p[|p| - 1] == c != '/';
    assert Basename(p) == Basename(dir + init) + [c];
    if init == [] {
      assert Basename(dir) == [];
    } else {
      BasenameAfterSeparator(dir, init);
    }
    assert name == init + [c];
  }

  /** A name without separators is the base name of the path it is joined into. */
  lemma BasenameOfJoin(dir: string, name: string)
    requires name != [] && '/' !in name
    ensures Basename(PathJoin(dir, name)) == name
  {
    assert !StartsWith(name, "/") by {
      assert name[0] != '/';
    }
    if dir == [] || dir[|dir| - 1] == '/' {
      BasenameAfterSeparator(dir, name);
    } else {
      assert PathJoin(dir, name) == (dir + "/") + name;
      BasenameAfterSeparator(dir + "/", name);
    }
  }

  /** Joining one directory with distinct separator-free names gives distinct paths. */
  lemma PathJoinInjective(dir: string, a: string, b: string)
    requires a != [] && '/' !in a && b != [] && '/' !in b
    requires PathJoin(dir, a) == PathJoin(dir, b)
    ensures a == b
  {
    BasenameOfJoin(dir, a);
    BasenameOfJoin(dir, b);
  }

  /** Position of the last occurrence of `c`, or -1. */
  function LastIndex(s: string, c: char): (i: int)
    ensures -1 <= i < |s|
    ensures i >= 0 ==> s[i] == c
    ensures forall j :: i < j < |s| ==> s[j] != c
    decreases |s|
  {
    if s == [] then -1 else if s[|s| - 1] == c then |s| - 1 else LastIndex(s[..|s| - 1], c)
  }

  /** `os.path.splitext(p)[0]`: drops the text from the last '.' of the last path component,
      unless every character before that dot in the component is a dot too (".bashrc"). */
  function SplitExtRoot(p: string): (r: string)
    ensures StartsWith(p, r)
    ensures r != p ==> LastIndex(p, '.') == |r| && LastIndex(p, '/') < |r|
  {
    var sep, dot := LastIndex(p, '/'), LastIndex(p, '.');
    if dot > sep && exists k :: sep < k < dot && p[k] != '.' then p[..dot] else p
  }

  /** A ".txt" file name whose stem is not all dots loses exactly its ".txt". */
  lemma TxtRoot(stem: string)
    requires '/' !in stem
    requires exists k :: 0 <= k < |stem| && stem[k] != '.'
    ensures SplitExtRoot(stem + ".txt") == stem
  {
    var p := stem + ".txt";
    assert LastIndex(p, '.') == |stem| by {
      assert p[|stem|] == '.';
    }
    assert LastIndex(p, '/') == -1 by {
      forall j | 0 <= j < |p| ensures p[j] != '/' {
        if j < |stem| { assert p[j] == stem[j]; }
      }
    }
    var k :| 0 <= k < |stem| && stem[k] != '.';
    assert p[k] != '.';
    assert p[..|stem|] == stem;
  }
}
