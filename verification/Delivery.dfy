// From the sender's tree to the receiver's directory: names, paths and totals fit
// together across crates/core/src/transfer/send.rs, receive.rs and the protocol.
module Delivery {
  import opened Basics
  import opened Names
  import opened Walk
  import opened Prepare
  import Receive = ReceiveSpec
  import History = ReceiveHistory
  import Accounting
  import Protocol
  import Control

  /** What an operating system can list as an entry of a directory. */
  predicate EntryName(k: string) {
    k != "" && '/' !in k && k != "." && k != ".."
  }

  predicate WellNamed(t: Tree) {
    t.Dir? ==> forall k :: k in t.children ==> EntryName(k) && WellNamed(t.children[k])
  }

  lemma {:induction false} JoinSnoc(parts: seq<string>, k: string)
    requires |parts| >= 1
    ensures Join(parts + [k], '/') == Join(parts, '/') + "/" + k
  {
    assert (parts + [k])[1..] == parts[1..] + [k];
    if |parts| == 1 {
    } else {
      JoinSnoc(parts[1..], k);
    }
  }

  /** A collection name spells the path from the root of the input. */
  lemma {:induction false} NameSpellsPath(t: Tree, parts: seq<string>, path: Path, f: Found)
    requires |parts| >= 1 && WellNamed(t) && f in Flatten(t, Join(parts, '/'), path)
    ensures path <= f.path && f.name == Join(parts + f.path[|path|..], '/')
    ensures forall k :: k in f.path[|path|..] ==> EntryName(k)
    decreases t
  {
    if t.Dir? {
      var k :| k in t.children && f in Flatten(t.children[k], Join(parts, '/') + "/" + k, path + [k]);
      JoinSnoc(parts, k);
      NameSpellsPath(t.children[k], parts + [k], path + [k], f);
      assert f.path[|path|..] == [k] + f.path[|path + [k]|..];
      assert parts + [k] + f.path[|path + [k]|..] == parts + f.path[|path|..];
    } else {
      assert parts + f.path[|path|..] == parts;
    }
  }

  lemma {:induction false} PathDetermines(t: Tree, name: string, path: Path, f: Found, g: Found)
    requires f in Flatten(t, name, path) && g in Flatten(t, name, path) && f.path == g.path
    ensures f == g
  {
    if !t.Dir? {
    } else {
      var k :| k in t.children && f in Flatten(t.children[k], name + "/" + k, path + [k]);
      var l :| l in t.children && g in Flatten(t.children[l], name + "/" + l, path + [l]);
      FoundAreNodes(t.children[k], name + "/" + k, path + [k], f);
      NodesUnder(t.children[k], path + [k], f.path);
      FoundAreNodes(t.children[l], name + "/" + l, path + [l], g);
      NodesUnder(t.children[l], path + [l], g.path);
      assert k == (path + [k])[|path|] == f.path[|path|] == l;
      PathDetermines(t.children[k], name + "/" + k, path + [k], f, g);
    }
  }

  /** An input whose last component and entries are names the system can list. */
  predicate WellNamedInput(input: Input) {
    input.tree.Some? && input.rootName.Some? && EntryName(input.rootName.value) && WellNamed(input.tree.value)
  }

  /** The components of a file's collection name. */
  function Parts(input: Input, f: Found): seq<string>
    requires input.rootName.Some? && |input.path| <= |f.path|
  {
    [input.rootName.value] + f.path[|input.path|..]
  }

  lemma InputNames(input: Input, f: Found)
    requires WellNamedInput(input) && f in FilesOf(input)
    ensures input.path <= f.path
    ensures f.name == Join(Parts(input, f), '/') && forall k :: k in Parts(input, f) ==> EntryName(k)
  {
    NameSpellsPath(input.tree.value, [input.rootName.value], input.path, f);
  }

  /** Files of one input never clash, so a single input is never refused for its
      names. */
  lemma OneInputNeverClashes(input: Input)
    requires WellNamedInput(input)
    ensures Unique(FilesOf(input))
    ensures Preparable([input]) <==> Accessible(input)
  {
    forall f, g | f in FilesOf(input) && g in FilesOf(input) && f.name == g.name ensures f == g {
      InputNames(input, f);
      InputNames(input, g);
      SplitJoin(Parts(input, f), '/');
      SplitJoin(Parts(input, g), '/');
      assert f.path == input.path + Parts(input, f)[1..];
      assert g.path == input.path + Parts(input, g)[1..];
      PathDetermines(input.tree.value, input.rootName.value, input.path, f, g);
    }
    assert [input][0] == input;
  }

  /** The receiver accepts the name of a sent file if and only if no component of it
      holds a backslash. It then rebuilds below its target directory the very path the
      file has below the parent of the input, if and only if it does not run on Windows
      or no component begins with a drive. */
  lemma MirrorsTree(input: Input, windows: bool, root: Path, f: Found)
    requires WellNamedInput(input) && f in FilesOf(input) && Absolute(windows, root)
    ensures input.path <= f.path
    ensures Target(windows, root, f.name).Some? <==> forall k :: k in Parts(input, f) ==> '\\' !in k
    ensures Target(windows, root, f.name).Some? ==>
              (Target(windows, root, f.name).value == root + Parts(input, f) <==> Driveless(windows, Parts(input, f)))
  {
    InputNames(input, f);
    SplitJoin(Parts(input, f), '/');
    forall k | k in Parts(input, f) ensures PlainComponent(k) <==> '\\' !in k {
      assert EntryName(k);
    }
    if Target(windows, root, f.name).Some? {
      TargetBelowRoot(windows, root, f.name);
    }
  }

  /** A file called `C:x`, as it can be on any other system, is not mirrored by Windows. */
  lemma DriveNotMirrored(input: Input, root: Path, f: Found)
    requires input == Input(["C:x"], Some("C:x"), Some(File("h", 0))) && f == Found("C:x", ["C:x"], "h", 0)
    requires Absolute(true, root)
    ensures WellNamedInput(input) && f in FilesOf(input)
    ensures Target(true, root, f.name).Some? && Target(true, root, f.name).value != root + Parts(input, f)
  {
    DriveName('C', "x");
    DriveEscapes(root, 'C', "x");
    assert ['C', ':'] + "x" == "C:x";
    assert EntryName("C:x");
    assert (root + Parts(input, f))[1] == root[1] == "\\" && "\\"[0] != "x"[0];
  }

  // ----- the collection ----------------------------------------------------------------

  /** `j` receives the collection made of `p`, whose blobs have the imported sizes. */
  predicate Collects(p: Prepared, j: Receive.Job) {
    && j.Valid()
    && |j.files| == |p.files|
    && forall i :: 0 <= i < |p.files| ==>
         j.files[i] == Receive.Entry(p.files[i].name, p.files[i].hash) && |j.Content(i)| == p.files[i].size
  }

  lemma {:induction false} CollectionTotal(p: Prepared, j: Receive.Job, n: nat)
    requires Collects(p, j) && n <= |p.files|
    ensures Receive.TotalBytes(j, n) == TotalSize(p.files[..n])
  {
    if n == 0 {
    } else {
      CollectionTotal(p, j, n - 1);
      assert p.files[..n][..n - 1] == p.files[..n - 1];
    }
  }

  /** A prepared collection has distinct names. */
  lemma CollectionDistinct(inputs: seq<Input>, p: Prepared, j: Receive.Job)
    requires PreparedFrom(inputs, p) && Collects(p, j)
    ensures History.Distinct(j)
  {
    forall i, k | 0 <= i < k < |p.files| ensures j.files[i].name != j.files[k].name {
      assert NamesOf(p.files)[i] != NamesOf(p.files)[k];
    }
  }

  /** What the sender adds up while importing is what a receiver counts; so a receive
      that succeeds, with every size lookup answered, reports totals that the sender
      accepts, whatever was skipped, resumed or replaced. */
  lemma SuccessIsAccepted(inputs: seq<Input>, p: Prepared, c: Protocol.Setup, run: Receive.Run)
    requires PreparedFrom(inputs, p) && Collects(p, run.job)
    requires c.total == p.total && |c.files| == |p.files| < Accounting.U32_LIMIT
    requires Receive.RunSpec(run) && run.out.Success? && Receive.AllTrue(run.info.answered)
    ensures var r := run.out.result;
      c.Accepts(Control.Totals(r.bytes, r.files % Accounting.U32_LIMIT, r.skippedBytes, |r.skipped| % Accounting.U32_LIMIT))
  {
    CollectionTotal(p, run.job, |p.files|);
    assert p.files[..|p.files|] == p.files;
    Accounting.AllAnswered(run);
  }
}
