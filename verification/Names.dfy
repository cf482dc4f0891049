// Collection names and the paths they are exported to
// (crates/core/src/transfer/receive.rs, `export_target`).
module Names {
  import opened Basics

  /** A path as its list of components. */
  type Path = seq<string>

  /** The pieces of `s` between separators; there is always at least one. */
  function Split(s: string, sep: char): (parts: seq<string>)
    ensures |parts| >= 1
    ensures forall p :: p in parts ==> sep !in p
  {
    if s == "" then [""]
    else
      var rest := Split(s[1..], sep);
      if s[0] == sep then [""] + rest
      else [[s[0]] + rest[0]] + rest[1..]
  }

  function Join(parts: seq<string>, sep: char): string
    requires |parts| >= 1
  {
    if |parts| == 1 then parts[0] else parts[0] + [sep] + Join(parts[1..], sep)
  }

  lemma {:induction false} JoinSplit(s: string, sep: char)
    ensures Join(Split(s, sep), sep) == s
  {
    if s == "" {
    } else {
      var rest := Split(s[1..], sep);
      JoinSplit(s[1..], sep);
      if s[0] == sep {
        assert ([""] + rest)[1..] == rest;
      } else {
        var parts := [[s[0]] + rest[0]] + rest[1..];
        assert parts[1..] == rest[1..];
        assert Join(parts, sep) == [s[0]] + Join(rest, sep);
      }
    }
  }

  lemma {:induction false} SplitPlain(s: string, sep: char)
    requires sep !in s
    ensures Split(s, sep) == [s]
  {
    if s == "" {
    } else {
      SplitPlain(s[1..], sep);
      assert s == [s[0]] + s[1..];
    }
  }

  /** Splitting `p + sep + s` yields `p` and then the pieces of `s`. */
  lemma {:induction false} SplitCons(p: string, s: string, sep: char)
    requires sep !in p
    ensures Split(p + [sep] + s, sep) == [p] + Split(s, sep)
  {
    if p == "" {
      assert (p + [sep] + s)[1..] == s;
    } else {
      SplitCons(p[1..], s, sep);
      assert (p + [sep] + s)[1..] == p[1..] + [sep] + s;
      assert [p[0]] + p[1..] == p;
    }
  }

  lemma {:induction false} SplitJoin(parts: seq<string>, sep: char)
    requires |parts| >= 1
    requires forall p :: p in parts ==> sep !in p
    ensures Split(Join(parts, sep), sep) == parts
  {
    if |parts| == 1 {
      SplitPlain(parts[0], sep);
    } else {
      SplitJoin(parts[1..], sep);
      SplitCons(parts[0], Join(parts[1..], sep), sep);
    }
  }

  /** What the receiver asks of a part of a name. */
  predicate PlainComponent(part: string) {
    part != "" && part != "." && part != ".." && '\\' !in part && '/' !in part
  }

  /** A part that names a drive to Windows. */
  predicate Drive(part: string) {
    |part| >= 2 && part[1] == ':' && ('a' <= part[0] <= 'z' || 'A' <= part[0] <= 'Z')
  }

  /** Add a part to a path, as `PathBuf::push` does: on Windows a part that begins with
      a drive takes the place of the whole path. The drive is a component of its own;
      the root directory after it, where there is one, is the component `\`. */
  function Push(windows: bool, path: Path, part: string): Path {
    if windows && Drive(part) then [part[..2]] + (if |part| > 2 then [part[2..]] else [])
    else path + [part]
  }

  function PushAll(windows: bool, path: Path, parts: seq<string>): Path {
    if parts == [] then path
    else Push(windows, PushAll(windows, path, parts[..|parts| - 1]), parts[|parts| - 1])
  }

  /** A path that does not depend on a current directory. */
  predicate Absolute(windows: bool, path: Path) {
    windows ==> |path| >= 2 && path[1] == "\\"
  }

  /** No part of the name takes the place of the path before it. */
  predicate Driveless(windows: bool, parts: seq<string>) {
    windows ==> forall p :: p in parts ==> !Drive(p)
  }

  predicate Inside(windows: bool, name: string) {
    Driveless(windows, Split(name, '/'))
  }

  /** Where a collection name is exported; `None` is the rejected name. */
  function Target(windows: bool, root: Path, name: string): (target: Option<Path>) {
    var parts := Split(name, '/');
    if forall p :: p in parts ==> PlainComponent(p) then Some(PushAll(windows, root, parts)) else None
  }

  /** No piece of the name is empty, `.` or `..`, or holds a backslash. */
  predicate Harmless(name: string) {
    forall p :: p in Split(name, '/') ==> p != "" && p != "." && p != ".." && '\\' !in p
  }

  /** A name is accepted exactly if it is harmless. */
  lemma NameAccepted(windows: bool, root: Path, name: string)
    ensures Target(windows, root, name).Some? <==> Harmless(name)
  {
    if Harmless(name) {
      forall p | p in Split(name, '/') ensures PlainComponent(p) {
      }
    }
  }

  method ExportTarget(windows: bool, root: Path, name: string) returns (r: Option<Path>)
    ensures r == Target(windows, root, name)
    ensures r.Some? <==> Harmless(name)
  {
    NameAccepted(windows, root, name);
    var target := root;
    var parts := Split(name, '/');
    for i := 0 to |parts|
      invariant target == PushAll(windows, root, parts[..i])
      invariant forall p :: p in parts[..i] ==> PlainComponent(p)
    {
      var part := parts[i];
      if part == "" || part == "." || part == ".." || '\\' in part {
        assert !PlainComponent(part) && part in parts;
        return None;
      }
      assert parts[..i + 1][..i] == parts[..i];
      target := Push(windows, target, part);
    }
    assert parts[..|parts|] == parts;
    r := Some(target);
  }

  // ----- what a path means -----------------------------------------------------------

  /** One step through the directories: `.` and an empty component lead nowhere, `..`
      leaves the directory, which the topmost cannot be. */
  function Step(dir: Path, part: string): Path {
    if part == "" || part == "." then dir
    else if part == ".." then if dir == [] then [] else dir[..|dir| - 1]
    else dir + [part]
  }

  function Follow(dir: Path, parts: seq<string>): Path {
    if parts == [] then dir else Step(Follow(dir, parts[..|parts| - 1]), parts[|parts| - 1])
  }

  /** Windows takes a backslash for a separator as well. */
  function Walk(windows: bool, path: Path): Path {
    if path == [] then []
    else
      var last := path[|path| - 1];
      Follow(Walk(windows, path[..|path| - 1]), if windows then Split(last, '\\') else [last])
  }

  /** Where a path leads, below the root directory; the drive and the root directory of
      an absolute path on Windows are no steps. */
  function Resolve(windows: bool, path: Path): Path {
    if windows && Absolute(windows, path) then path[..2] + Walk(windows, path[2..]) else Walk(windows, path)
  }

  /** The path leads to a place strictly below where the root leads. */
  predicate Under(windows: bool, root: Path, path: Path) {
    Resolve(windows, root) < Resolve(windows, path)
  }

  lemma FollowOne(dir: Path, part: string)
    ensures Follow(dir, [part]) == Step(dir, part)
  {
    assert [part][..0] == [];
  }

  /** A component without a backslash is one step. */
  lemma WalkSnoc(windows: bool, path: Path, part: string)
    requires '\\' !in part
    ensures Walk(windows, path + [part]) == Step(Walk(windows, path), part)
  {
    assert (path + [part])[..|path|] == path;
    SplitPlain(part, '\\');
    FollowOne(Walk(windows, path), part);
  }

  lemma {:induction false} WalkPlain(windows: bool, path: Path, parts: seq<string>)
    requires forall p :: p in parts ==> PlainComponent(p)
    ensures Walk(windows, path + parts) == Walk(windows, path) + parts
  {
    if parts == [] {
      assert path + parts == path;
    } else {
      var n := |parts| - 1;
      assert parts[n] in parts && path + parts == path + parts[..n] + [parts[n]];
      WalkPlain(windows, path, parts[..n]);
      WalkSnoc(windows, path + parts[..n], parts[n]);
      assert parts == parts[..n] + [parts[n]];
    }
  }

  predicate NoBackslash(path: Path) {
    forall p :: p in path ==> '\\' !in p
  }

  lemma {:induction false} WalkNoBackslash(windows: bool, path: Path)
    requires NoBackslash(path)
    ensures NoBackslash(Walk(windows, path))
  {
    if path == [] {
    } else {
      var n := |path| - 1;
      assert path[n] in path && path == path[..n] + [path[n]];
      WalkNoBackslash(windows, path[..n]);
      WalkSnoc(windows, path[..n], path[n]);
    }
  }

  lemma {:induction false} PushDriveless(windows: bool, path: Path, parts: seq<string>)
    requires Driveless(windows, parts)
    ensures PushAll(windows, path, parts) == path + parts
  {
    if parts == [] {
      assert path + parts == path;
    } else {
      var n := |parts| - 1;
      PushDriveless(windows, path, parts[..n]);
      assert parts == parts[..n] + [parts[n]] && parts[n] in parts;
    }
  }

  /** After a drive, the path never has a root directory again. */
  lemma {:induction false} PushDrive(path: Path, parts: seq<string>)
    requires !Driveless(true, parts) && forall p :: p in parts ==> PlainComponent(p)
    ensures var r := PushAll(true, path, parts);
      |r| >= 1 && (forall i :: 1 <= i < |r| ==> '\\' !in r[i]) && '\\' !in r[0]
  {
    var n := |parts| - 1;
    var before, last := PushAll(true, path, parts[..n]), parts[n];
    assert last in parts && parts == parts[..n] + [last];
    if Drive(last) {
      assert forall c :: c in last[2..] || c in last[..2] ==> c in last;
      assert PushAll(true, path, parts) == [last[..2]] + if |last| > 2 then [last[2..]] else [];
    } else {
      PushDrive(path, parts[..n]);
      assert PushAll(true, path, parts) == before + [last];
    }
  }

  /** A name without drives leads to its parts below the root. */
  lemma InsideLeads(windows: bool, root: Path, name: string)
    requires Absolute(windows, root) && Target(windows, root, name).Some? && Inside(windows, name)
    ensures var t := Target(windows, root, name).value;
      && t == root + Split(name, '/') && Absolute(windows, t)
      && Resolve(windows, t) == Resolve(windows, root) + Split(name, '/')
  {
    var parts := Split(name, '/');
    PushDriveless(windows, root, parts);
    if windows {
      assert (root + parts)[..2] == root[..2] && (root + parts)[2..] == root[2..] + parts;
      WalkPlain(windows, root[2..], parts);
    } else {
      WalkPlain(windows, root, parts);
    }
  }

  /** A name with a drive leads out of every root. */
  lemma OutsideLeads(root: Path, name: string)
    requires Absolute(true, root) && Target(true, root, name).Some? && !Inside(true, name)
    ensures var t := Target(true, root, name).value; !Absolute(true, t) && !Under(true, root, t)
  {
    var t := Target(true, root, name).value;
    PushDrive(root, Split(name, '/'));
    assert NoBackslash(t);
    WalkNoBackslash(true, t);
    assert "\\"[0] == '\\';
    assert Resolve(true, root)[1] == "\\";
    assert forall p :: p in Walk(true, t) ==> p != "\\";
    assert Resolve(true, t) == Walk(true, t);
  }

  /** An accepted name leads strictly below the root if and only if no part of it
      begins with a drive, or the system is not Windows; then it leads there by the
      parts of the name, and otherwise the target is not even absolute. */
  lemma TargetBelowRoot(windows: bool, root: Path, name: string)
    requires Absolute(windows, root) && Target(windows, root, name).Some?
    ensures var t := Target(windows, root, name).value;
      && (Under(windows, root, t) <==> Inside(windows, name))
      && (Absolute(windows, t) <==> Inside(windows, name))
      && (Inside(windows, name) ==> t == root + Split(name, '/'))
      && (Inside(windows, name) ==> Resolve(windows, t) == Resolve(windows, root) + Split(name, '/'))
  {
    if Inside(windows, name) {
      InsideLeads(windows, root, name);
    } else {
      OutsideLeads(root, name);
    }
  }

  /** Below the root, different names lead to different places, and no name from outside
      leads there. */
  lemma TargetInjective(windows: bool, root: Path, a: string, b: string)
    requires Absolute(windows, root) && Inside(windows, a)
    requires Target(windows, root, a).Some? && Target(windows, root, b).Some?
    requires Resolve(windows, Target(windows, root, a).value) == Resolve(windows, Target(windows, root, b).value)
    ensures a == b
  {
    var pa, pb, r := Split(a, '/'), Split(b, '/'), Resolve(windows, root);
    TargetBelowRoot(windows, root, a);
    TargetBelowRoot(windows, root, b);
    assert pa == (r + pa)[|r|..];
    assert pb == (r + pb)[|r|..];
    JoinSplit(a, '/');
    JoinSplit(b, '/');
  }

  /** Any list of plain components is accepted; it comes out below the root unchanged if
      and only if none of them begins with a drive, or the system is not Windows. */
  lemma TargetRoundTrip(windows: bool, root: Path, parts: seq<string>)
    requires Absolute(windows, root) && |parts| >= 1
    requires forall p :: p in parts ==> PlainComponent(p)
    ensures Target(windows, root, Join(parts, '/')).Some?
    ensures Target(windows, root, Join(parts, '/')) == Some(root + parts) <==> Driveless(windows, parts)
  {
    SplitJoin(parts, '/');
    TargetBelowRoot(windows, root, Join(parts, '/'));
  }

  predicate Letter(c: char) {
    'A' <= c <= 'Z' || 'a' <= c <= 'z'
  }

  /** On Windows a name that begins with a drive, of either case, is accepted and leaves
      the root; and behind a directory it does so for the very same target. */
  lemma DriveEscapes(root: Path, letter: char, file: string)
    requires Absolute(true, root) && Letter(letter) && file != "" && '/' !in file && '\\' !in file
    ensures var name := [letter, ':'] + file;
      && Target(true, root, name) == Some([[letter, ':'], file]) == Target(true, root, "a/" + name)
      && !Under(true, root, [[letter, ':'], file])
  {
    var name := [letter, ':'] + file;
    DriveName(letter, file);
    LastDrive(root, [], name);
    LastDrive(root, ["a"], name);
    assert [] + [name] == [name] && ["a"] + [name] == ["a", name];
    assert [name[..2]] + [name[2..]] == [[letter, ':'], file];
    TargetBelowRoot(true, root, name);
  }

  lemma DriveName(letter: char, file: string)
    requires Letter(letter) && file != "" && '/' !in file && '\\' !in file
    ensures var name := [letter, ':'] + file;
      && Split(name, '/') == [name] && Split("a/" + name, '/') == ["a", name]
      && PlainComponent("a") && PlainComponent(name)
      && Drive(name) && name[..2] == [letter, ':'] && name[2..] == file
  {
    var name := [letter, ':'] + file;
    SplitPlain(name, '/');
    SplitCons("a", name, '/');
    assert "a" + ['/'] + name == "a/" + name;
  }

  /** What comes before a drive does not matter. */
  lemma LastDrive(root: Path, before: seq<string>, drive: string)
    requires Drive(drive)
    ensures PushAll(true, root, before + [drive]) == [drive[..2]] + if |drive| > 2 then [drive[2..]] else []
  {
    assert (before + [drive])[..|before|] == before;
  }
}
