/**
  Go's slash-separated `path` package, as far as the filesystem uses it:
  path.Base to name an entry and path.Join to name a directory's child.
 */
module Paths {

  /** Index of the last '/' in s, or -1 when there is none. */
  function LastSlash(s: string): (i: int)
    ensures -1 <= i < |s|
    ensures 0 <= i ==> s[i] == '/'
    ensures forall j :: i < j < |s| ==> s[j] != '/'
  {
    if |s| == 0 then -1
    else if s[|s| - 1] == '/' then |s| - 1
    else LastSlash(s[..|s| - 1])
  }

  /** s without its trailing slashes. */
  function TrimTrailingSlashes(s: string): (t: string)
    ensures |t| <= |s| && t == s[..|t|]
    ensures |t| == 0 || t[|t| - 1] != '/'
    ensures forall j :: |t| <= j < |s| ==> s[j] == '/'
  {
    if |s| > 0 && s[|s| - 1] == '/' then TrimTrailingSlashes(s[..|s| - 1]) else s
  }

  /**
    path.Base: the last element of p after trailing slashes are removed;
    "." for the empty path and "/" for a path made only of slashes.
   */
  function Base(p: string): (b: string)
    ensures b != ""
    ensures p == "" ==> b == "."
    ensures b == "/" || forall j :: 0 <= j < |b| ==> b[j] != '/'
  {
    if p == "" then "."
    else
      var t := TrimTrailingSlashes(p);
      var e := t[LastSlash(t) + 1..];
      if e == "" then "/" else e
  }

  /** A single path element that path.Clean leaves alone. */
  predicate SimpleName(s: string) {
    && s != ""
    && s != "."
    && s != ".."
    && forall j :: 0 <= j < |s| ==> s[j] != '/'
  }

  /**
    A cleaned relative path: one or more simple names joined by single
    slashes.
   */
  predicate CleanPath(s: string)
    decreases |s|
  {
    var i := LastSlash(s);
    SimpleName(s[i + 1..]) && (i < 0 || CleanPath(s[..i]))
  }

  /**
    path.Join of a directory and one simple child name; the directory "" is
    the root, whose children are joined to nothing.
   */
  function Join(dir: string, name: string): (p: string)
    ensures dir == "" ==> p == name
    ensures dir != "" ==> |p| == |dir| + 1 + |name|
    ensures dir != "" ==> p[..|dir|] == dir && p[|dir|] == '/' && p[|dir| + 1..] == name
  {
    if dir == "" then name else dir + "/" + name
  }

  /** The last slash of a joined path is the one Join put there. */
  lemma LastSlashOfJoin(dir: string, name: string)
    requires SimpleName(name)
    ensures LastSlash(Join(dir, name)) == (if dir == "" then -1 else |dir|)
  {
    var p := Join(dir, name);
    var i := LastSlash(p);
    if dir == "" {
      assert p == name;
      assert i == -1;
    } else {
      var k := |dir|;
      assert forall j :: k < j < |p| ==> p[j] == name[j - k - 1];
      assert i == k;
    }
  }

  /** The entry that path.Join appends is what path.Base gives back. */
  lemma BaseOfJoin(dir: string, name: string)
    requires SimpleName(name)
    ensures Base(Join(dir, name)) == name
  {
    var p := Join(dir, name);
    assert p[|p| - 1] == name[|name| - 1];
    assert TrimTrailingSlashes(p) == p;
    LastSlashOfJoin(dir, name);
  }

  /** A single simple name is a clean path. */
  lemma SimpleNameIsClean(s: string)
    requires SimpleName(s)
    ensures CleanPath(s)
  {
    var i := LastSlash(s);
    assert i == -1;
    assert s[i + 1..] == s;
  }

  /** Joining a simple name to the root or to a clean path gives a clean path. */
  lemma JoinKeepsPathsClean(dir: string, name: string)
    requires dir == "" || CleanPath(dir)
    requires SimpleName(name)
    ensures CleanPath(Join(dir, name))
  {
    var p := Join(dir, name);
    LastSlashOfJoin(dir, name);
    if dir == "" {
      SimpleNameIsClean(name);
    } else {
      var i := LastSlash(p);
      assert p[i + 1..] == name;
      assert p[..i] == dir;
    }
  }

  /** A clean path is neither empty nor begins or ends with a slash. */
  lemma {:induction false} CleanPathShape(s: string)
    requires CleanPath(s)
    ensures s != "" && s[0] != '/' && s[|s| - 1] != '/'
    decreases |s|
  {
    var i := LastSlash(s);
    var e := s[i + 1..];
    assert e[|e| - 1] == s[|s| - 1];
    if i < 0 {
      assert e == s;
    } else {
      CleanPathShape(s[..i]);
      assert s[..i][0] == s[0];
    }
  }
}
