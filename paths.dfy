/**
 * POSIX path handling as the application uses it: `os.path.basename`, `os.path.join`,
 * `os.path.splitext` and `pathlib.PurePosixPath(p).name` / `.suffix`. Only '/' separates
 * components.
 */
module Paths {
  import opened Strings

  /** `s.rfind(c)`: the index of the last `c`, or -1. */
  function RFind(s: string, c: char): (r: int)
    ensures -1 <= r < |s|
    ensures r >= 0 ==> s[r] == c
  {
    if s == [] then -1
    else if s[|s| - 1] == c then |s| - 1
    else RFind(s[..|s| - 1], c)
  }

  /** `rfind` finds the last occurrence, and -1 only when there is none. */
  lemma {:induction false} RFindLast(s: string, c: char)
    ensures RFind(s, c) == -1 ==> c !in s
    ensures forall k :: RFind(s, c) < k < |s| ==> s[k] != c
  {
    if s != [] && s[|s| - 1] != c {
      RFindLast(s[..|s| - 1], c);
      assert s == s[..|s| - 1] + [s[|s| - 1]];
    }
  }

  /** `os.path.basename(p)`: everything after the last '/'. */
  function Basename(p: string): (r: string)
    ensures '/' !in r && EndsWith(p, r)
    ensures |r| < |p| ==> p[|p| - |r| - 1] == '/'
  {
    RFindLast(p, '/');
    p[RFind(p, '/') + 1..]
  }

  /** The base name is the only separator-free tail of `p` that is all of `p` or follows a '/'. */
  lemma BasenameUnique(p: string, s: string)
    requires '/' !in s && EndsWith(p, s)
    requires |s| < |p| ==> p[|p| - |s| - 1] == '/'
    ensures Basename(p) == s
  {
    var r := Basename(p);
    assert r == p[|p| - |r|..];
  }

  /** A plain file name joined under any directory is the base name of the result. */
  lemma BasenameOfJoin(dir: string, file: string)
    requires '/' !in file && file != ""
    ensures Basename(PathJoin(dir, file)) == file
  {
    assert file[0] != '/';
    JoinEnds(dir, file);
    var q := PathJoin(dir, file);
    if |file| < |q| {
      assert q[|q| - |file| - 1] == '/';
    }
    BasenameUnique(q, file);
  }

  /** `os.path.join(a, b)` for two components. */
  function PathJoin(a: string, b: string): (r: string)
    ensures StartsWith(b, "/") ==> r == b
    ensures !StartsWith(b, "/") ==> |r| >= |a| + |b|
  {
    if StartsWith(b, "/") then b
    else if a == [] || a[|a| - 1] == '/' then a + b
    else a + "/" + b
  }

  /** A joined path ends with its second part and, when that part is relative, starts with the first. */
  lemma JoinEnds(a: string, b: string)
    ensures EndsWith(PathJoin(a, b), b)
    ensures !StartsWith(b, "/") ==> StartsWith(PathJoin(a, b), a)
  {
    var r := PathJoin(a, b);
    if !StartsWith(b, "/") {
      assert r[..|a|] == a;
    }
    assert r[|r| - |b|..] == b;
  }

  /** The components pathlib keeps after splitting on '/': empty and "." pieces are dropped. */
  function Components(pieces: seq<string>): seq<string> {
    if pieces == [] then []
    else (if pieces[0] == "" || pieces[0] == "." then [] else [pieces[0]]) + Components(pieces[1..])
  }

  lemma {:induction false} ComponentsMembers(pieces: seq<string>)
    ensures forall x :: x in Components(pieces) ==> x != "" && x != "." && x in pieces
  {
    if pieces != [] {
      ComponentsMembers(pieces[1..]);
    }
  }

  lemma {:induction false} ComponentsAppend(a: seq<string>, b: seq<string>)
    ensures Components(a + b) == Components(a) + Components(b)
  {
    if a != [] {
      assert (a + b)[0] == a[0];
      assert (a + b)[1..] == a[1..] + b;
      ComponentsAppend(a[1..], b);
    } else {
      assert a + b == b;
    }
  }

  /** `PurePosixPath(p).name`: the last component, or "" when there is none. */
  function PathName(p: string): (r: string)
    ensures r == "" || r in Split(p, '/')
  {
    var cs := Components(Split(p, '/'));
    ComponentsMembers(Split(p, '/'));
    if cs == [] then "" else cs[|cs| - 1]
  }

  /** A name never holds a separator and is never ".". */
  lemma PathNameShape(p: string)
    ensures '/' !in PathName(p) && PathName(p) != "."
  {
    var pieces := Split(p, '/');
    SplitPieces(p, '/');
    ComponentsMembers(pieces);
    var cs := Components(pieces);
    if cs != [] {
      assert cs[|cs| - 1] in cs;
    }
  }

  /** The pathlib suffix of `stem + ext`, where `ext` is a dot followed by at least one non-dot. */
  lemma SuffixOfAppended(stem: string, ext: string)
    requires stem != []
    requires |ext| >= 2 && ext[0] == '.' && '.' !in ext[1..]
    ensures Suffix(stem + ext) == ext
  {
    var name := stem + ext;
    RFindLast(name, '.');
    assert name[|stem|] == '.';
    assert name[|stem| + 1..] == ext[1..];
    assert name[|stem|..] == ext;
  }

  /** `PurePath.suffix` of a name: from its last '.', provided that dot is neither first nor last. */
  function Suffix(name: string): (r: string)
    ensures r == [] || (|r| >= 2 && r[0] == '.')
  {
    var i := RFind(name, '.');
    if 0 < i < |name| - 1 then name[i..] else ""
  }

  /** `PurePosixPath(p).suffix`. */
  function PathSuffix(p: string): string {
    Suffix(PathName(p))
  }

  /** Some character of `p[lo..hi]` is not a dot. */
  predicate HasNonDot(p: string, lo: int, hi: int)
    requires 0 <= lo && hi <= |p|
  {
    exists k :: lo <= k < hi && p[k] != '.'
  }

  /**
   * `os.path.splitext(p)[1]`: from the last '.', provided it lies in the last component and
   * that component has a character other than '.' before it; otherwise "".
   */
  function SplitExt(p: string): (r: string)
    ensures r == [] || r[0] == '.'
  {
    var sep := RFind(p, '/');
    var dot := RFind(p, '.');
    if dot > sep && HasNonDot(p, sep + 1, dot) then p[dot..] else ""
  }

  /** A plain file name joined under any directory keeps its name. */
  lemma JoinKeepsName(dir: string, file: string)
    requires '/' !in file && file != "" && file != "."
    ensures PathName(PathJoin(dir, file)) == file
  {
    SplitNoSeparator(file, '/');
    assert Components([file]) == [file];
    assert file[0] != '/';
    if dir == [] {
      assert PathJoin(dir, file) == file;
    } else if dir[|dir| - 1] == '/' {
      var d := dir[..|dir| - 1];
      assert PathJoin(dir, file) == d + ['/'] + file;
      SplitAppend(d, file, '/');
      ComponentsAppend(Split(d, '/'), [file]);
    } else {
      assert PathJoin(dir, file) == dir + ['/'] + file;
      SplitAppend(dir, file, '/');
      ComponentsAppend(Split(dir, '/'), [file]);
    }
  }

  /** A plain file name is its own pathlib name. */
  lemma PathNameOfPlain(name: string)
    requires '/' !in name && name != "" && name != "."
    ensures PathName(name) == name
  {
    JoinKeepsName("", name);
    assert PathJoin("", name) == name by { assert name[0] != '/'; }
  }

  /** `splitext` of `stem + ext`, where `ext` is a dot followed by neither '.' nor '/'. */
  lemma SplitExtOfAppended(stem: string, ext: string)
    requires stem != [] && stem[|stem| - 1] != '.' && stem[|stem| - 1] != '/'
    requires |ext| >= 1 && ext[0] == '.' && '.' !in ext[1..] && '/' !in ext
    ensures SplitExt(stem + ext) == ext
  {
    var p := stem + ext;
    var dot := RFind(p, '.');
    RFindLast(p, '.');
    RFindLast(p, '/');
    assert p[|stem|] == '.';
    assert p[|stem| + 1..] == ext[1..];
    assert dot == |stem|;
    var sep := RFind(p, '/');
    assert p[|stem|..] == ext;
    assert sep < |stem| - 1;
    assert p[|stem| - 1] != '.';
    assert HasNonDot(p, sep + 1, dot);
    assert p[dot..] == ext;
  }
}
