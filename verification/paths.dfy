/** `os.path.join(dir, name)` for a relative `name` on a POSIX system. */
module Paths {
  import opened Text

  /** What `os.path.join` puts in front of a relative name: nothing for an
      empty directory, the directory itself when it already ends in `/`,
      otherwise the directory and one `/`. */
  function DirPrefix(dir: string): string {
    if dir == [] || EndsWith(dir, "/") then dir else dir + "/"
  }

  /** `os.path.join(dir, name)`. */
  function Join(dir: string, name: string): (r: string)
    ensures StartsWith(r, dir)
    ensures EndsWith(r, name)
    ensures |r| == |dir| + |name| || (|r| == |dir| + |name| + 1 && r[|dir|] == '/')
    ensures dir == [] ==> r == name
    ensures dir != [] && !EndsWith(dir, "/") ==> r == dir + "/" + name
    ensures dir == [] || EndsWith(dir, "/") ==> r == dir + name
  {
    DirPrefix(dir) + name
  }

  /** Within one directory, distinct names give distinct paths. */
  lemma JoinInjective(dir: string, a: string, b: string)
    requires Join(dir, a) == Join(dir, b)
    ensures a == b
  {
    var p := DirPrefix(dir);
    assert a == Join(dir, a)[|p|..];
    assert b == Join(dir, b)[|p|..];
  }
}
