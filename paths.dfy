/** Windows path handling as `ntpath.join` and `ntpath.basename` do it: a
    path may start with a drive (`C:`) and a root (a separator after the
    drive), and joining a name that has either throws away what it does not
    keep of the folder. */
module Paths {
  import opened Strings

  predicate IsSep(c: char) {
    c == '/' || c == '\\'
  }

  predicate NoSep(s: string) {
    forall i :: 0 <= i < |s| ==> !IsSep(s[i])
  }

  predicate HasSep(s: string) {
    exists i :: 0 <= i < |s| && IsSep(s[i])
  }

  /** A name as a folder listing gives it: no separator, and no `:`, which
      Windows file names cannot hold. */
  predicate Plain(s: string) {
    NoSep(s) && ':' !in s
  }

  /** The drive `splitroot` finds at the start of `p`: a character that is
      not a separator followed by `:`, or nothing. */
  function Drive(p: string): (d: string)
    ensures d == [] || (|d| == 2 && |p| >= 2 && d == p[..2] && d[1] == ':' && NoSep(d))
  {
    if |p| >= 2 && p[1] == ':' && !IsSep(p[0]) then p[..2] else []
  }

  /** `p` has a root: a separator right after its drive. */
  predicate Rooted(p: string) {
    |Drive(p)| < |p| && IsSep(p[|Drive(p)|])
  }

  /** Neither a drive nor a root: `p` is read inside the folder it is
      joined to. */
  predicate Relative(p: string) {
    Drive(p) == [] && !Rooted(p)
  }

  /** A plain name is relative. */
  lemma PlainRelative(s: string)
    requires Plain(s)
    ensures Relative(s)
  {
    if |s| >= 2 {
      assert s[1] in s;
    }
    if s != [] {
      assert !IsSep(s[0]);
    }
  }

  /** What `ntpath.join(dir, name)` puts in front of a relative `name`:
      `dir`, with a separator added unless it is empty, ends with one, or
      is a bare drive. */
  function JoinPrefix(dir: string): (r: string)
    ensures |dir| <= |r| && r[..|dir|] == dir
    ensures r == [] || IsSep(r[|r| - 1]) || r == Drive(dir)
  {
    var path := dir[|Drive(dir)|..];
    if path != [] && !IsSep(path[|path| - 1]) then dir + "\\" else dir
  }

  /** `ntpath.join(dir, name)`.  A rooted `name` keeps only the drive of
      `dir` (none when `name` has its own); a `name` on another drive is
      taken as it is; otherwise `name` goes after `dir` and a separator, and
      a `name` on the same drive spelt in another case brings its spelling. */
  function Join(dir: string, name: string): (r: string)
    ensures Relative(name) ==> r == JoinPrefix(dir) + name
    ensures Rooted(name) && Drive(name) != [] ==> r == name
    ensures Rooted(name) && Drive(name) == [] ==> r == Drive(dir) + name
    ensures !Rooted(name) && Drive(name) != [] && Lower(Drive(name)) != Lower(Drive(dir)) ==> r == name
  {
    var dd := Drive(dir);
    var nd := Drive(name);
    var tail := name[|nd|..];
    if Rooted(name) then (if nd != [] || dd == [] then nd else dd) + tail
    else if nd != [] && Lower(nd) != Lower(dd) then name
    else
      var path := dir[|dd|..];
      (if nd != [] then nd else dd) + (if path != [] && !IsSep(path[|path| - 1]) then path + "\\" else path) + tail
  }

  /** Index of the last separator among the first `n` characters of `p`,
      or -1 when there is none. */
  function LastSepBefore(p: string, n: nat): (i: int)
    requires n <= |p|
    ensures -1 <= i < n
    ensures i >= 0 ==> IsSep(p[i])
    ensures forall j :: i < j < n ==> !IsSep(p[j])
  {
    if n == 0 then -1
    else if IsSep(p[n - 1]) then n - 1
    else LastSepBefore(p, n - 1)
  }

  /** `ntpath.basename(p)`: what follows the drive and the last separator. */
  function Basename(p: string): (r: string)
    ensures NoSep(r)
    ensures |r| + |Drive(p)| <= |p| && r == p[|p| - |r|..]
    ensures |p| - |r| > |Drive(p)| ==> IsSep(p[|p| - |r| - 1])
  {
    var i := LastSepBefore(p, |p|);
    if i < |Drive(p)| then p[|Drive(p)|..] else p[i + 1..]
  }

  /** `ntpath.join(dir, name)` for a relative `name`, such as every name a
      folder listing gives: `name` after `dir` and a separator
      (`ChildIsJoin`). */
  function Child(dir: string, name: string): string {
    JoinPrefix(dir) + name
  }

  /** For a relative name, `Child` is `ntpath.join`. */
  lemma ChildIsJoin(dir: string, name: string)
    requires Relative(name)
    ensures Join(dir, name) == Child(dir, name)
  {
  }

  /** The base name of a folder joined with a plain name is that name. */
  lemma BasenameOfChild(dir: string, name: string)
    requires Plain(name)
    ensures Basename(Child(dir, name)) == name
  {
    PlainRelative(name);
    var prefix := JoinPrefix(dir);
    var p := prefix + name;
    assert p[|prefix|..] == name;
    var i := LastSepBefore(p, |p|);
    forall j | |prefix| <= j < |p| ensures !IsSep(p[j]) {
      assert p[j] == name[j - |prefix|];
    }
    if prefix != [] && IsSep(prefix[|prefix| - 1]) {
      assert i == |prefix| - 1;
      if |Drive(p)| == 2 {
        assert p[1] == ':';
        assert |prefix| >= 2 ==> p[1] == prefix[1];
      }
    } else if prefix == [] {
      assert p == name;
      if |name| >= 2 {
        assert name[1] in name;
      }
    } else {
      assert prefix == Drive(dir);
      assert p[..2] == prefix;
      assert Drive(p) == prefix;
    }
  }

  /** The same for `ntpath.join` itself. */
  lemma BasenameOfJoin(dir: string, name: string)
    requires Plain(name)
    ensures Basename(Join(dir, name)) == name
  {
    PlainRelative(name);
    ChildIsJoin(dir, name);
    BasenameOfChild(dir, name);
  }

  /** Joining one folder with two different plain names gives two different
      paths. */
  lemma ChildInjective(dir: string, a: string, b: string)
    requires Plain(a) && Plain(b) && Child(dir, a) == Child(dir, b)
    ensures a == b
  {
    BasenameOfChild(dir, a);
    BasenameOfChild(dir, b);
  }

  /** A rooted icon name leaves the folder it is joined to: only the
      folder's drive is kept. */
  lemma RootedJoinExample()
    ensures Join("C:\\Temp\\mod_manager", "/icon.dds") == "C:/icon.dds"
    ensures Join("C:\\stacks\\a", "D:\\x.zip") == "D:\\x.zip"
  {
    assert Drive("C:\\Temp\\mod_manager") == "C:";
    assert Drive("/icon.dds") == [] && Rooted("/icon.dds");
    assert Drive("D:\\x.zip") == "D:" && Rooted("D:\\x.zip");
  }

  /** `s` without its trailing separators. */
  function TrimSeps(s: string): (r: string)
    ensures |r| <= |s| && r == s[..|r|]
    ensures r == [] || !IsSep(r[|r| - 1])
    ensures forall i :: |r| <= i < |s| ==> IsSep(s[i])
  {
    if s != [] && IsSep(s[|s| - 1]) then TrimSeps(s[..|s| - 1]) else s
  }

  /** `ntpath.dirname(p)`: the drive, then what comes before the last
      separator with its trailing separators stripped, unless it is all
      separators (a root), which stays. */
  function Dirname(p: string): (r: string)
    ensures |r| <= |p| && r == p[..|r|]
  {
    var d := Drive(p);
    var i := LastSepBefore(p, |p|);
    if i < |d| then d
    else
      var head := p[|d|..i + 1];
      var trimmed := TrimSeps(head);
      if trimmed == [] then
        assert d + head == p[..i + 1];
        d + head
      else
        assert d + trimmed == p[..|d| + |trimmed|];
        d + trimmed
  }

  /** The folder of a path joined from a folder with no trailing separator
      and a plain name is that folder: `dirname` undoes `join`, as
      `basename` gives the name back (`BasenameOfChild`). */
  lemma DirnameOfChild(dir: string, name: string)
    requires Plain(name) && |Drive(dir)| < |dir| && !IsSep(dir[|dir| - 1])
    ensures Dirname(Child(dir, name)) == dir
  {
    ChildShape(dir, name);
    DirnameAfterSep(dir, name);
  }

  /** The same for the joined text itself. */
  lemma DirnameAfterSep(dir: string, name: string)
    requires NoSep(name) && |Drive(dir)| < |dir| && !IsSep(dir[|dir| - 1])
    requires Drive(dir + "\\" + name) == Drive(dir)
    ensures Dirname(dir + "\\" + name) == dir
  {
    var p := dir + "\\" + name;
    var d := Drive(dir);
    var tail := p[|dir| + 1..];
    assert tail == name;
    forall j | |dir| < j < |p| ensures !IsSep(p[j]) {
      assert p[j] == tail[j - |dir| - 1];
    }
    LastSepIs(p, |p|, |dir|);
    var head := p[|d|..|dir| + 1];
    assert head == dir[|d|..] + "\\";
    TrimOneSep(dir[|d|..]);
    assert d + dir[|d|..] == dir;
  }

  /** A folder with no trailing separator is followed by one in the joined
      path, and keeps its drive. */
  lemma ChildShape(dir: string, name: string)
    requires |Drive(dir)| < |dir| && !IsSep(dir[|dir| - 1])
    ensures Child(dir, name) == dir + "\\" + name
    ensures Drive(Child(dir, name)) == Drive(dir)
  {
    var p := dir + "\\" + name;
    if |Drive(dir)| == 2 {
      assert p[..2] == dir[..2];
    } else if |dir| >= 2 {
      assert p[..2] == dir[..2];
    }
  }

  /** Stripping the separators of a text with no trailing one after a
      single separator gives the text back. */
  lemma TrimOneSep(s: string)
    requires s != [] && !IsSep(s[|s| - 1])
    ensures TrimSeps(s + "\\") == s
  {
    assert (s + "\\")[..|s|] == s;
  }

  /** The last separator below `n` is at `i` when `p[i]` is one and none
      follows it. */
  lemma {:induction false} LastSepIs(p: string, n: nat, i: nat)
    requires i < n <= |p| && IsSep(p[i])
    requires forall j :: i < j < n ==> !IsSep(p[j])
    ensures LastSepBefore(p, n) == i
    decreases n
  {
    if n - 1 != i {
      LastSepIs(p, n - 1, i);
    }
  }

  /** The folder of a stack in `C:\\stacks` is `C:\\stacks`, and a path
      right under a drive's root has that root as its folder. */
  lemma DirnameExample()
    ensures Dirname("C:\\stacks\\a") == "C:\\stacks"
    ensures Dirname("C:\\a") == "C:\\"
  {
    assert Drive("C:\\stacks") == "C:" && Drive("C:\\stacks\\a") == "C:";
    assert "C:\\stacks" + "\\" + "a" == "C:\\stacks\\a";
    DirnameAfterSep("C:\\stacks", "a");
    var p := "C:\\a";
    assert Drive(p) == "C:";
    LastSepIs(p, 4, 2);
    assert p[2..3] == "\\";
    assert TrimSeps(p[2..3]) == TrimSeps([]);
  }
}
