// Preparing a send (crates/core/src/transfer/send.rs): from input paths to one
// inventory in name order, and where a receiver puts those names.
module Prepare {
  import opened Basics
  import opened Names
  import opened Order
  import opened Walk

  function NamesOf(files: seq<Found>): seq<string> {
    seq(|files|, i requires 0 <= i < |files| => files[i].name)
  }

  // ----- sorting by name ---------------------------------------------------------

  predicate Sorted(files: seq<Found>) {
    forall i, j :: 0 <= i < j < |files| ==> Leq(files[i].name, files[j].name)
  }

  lemma SortedBelow(files: seq<Found>, f: Found)
    requires Sorted(files) && files != [] && Leq(files[|files| - 1].name, f.name)
    ensures forall i :: 0 <= i < |files| ==> Leq(files[i].name, f.name)
  {
    forall i | 0 <= i < |files| - 1 ensures Leq(files[i].name, f.name) {
      LeqTransitive(files[i].name, files[|files| - 1].name, f.name);
    }
  }

  lemma InsertedBelow(files: seq<Found>, rest: seq<Found>, f: Found)
    requires Sorted(files) && files != [] && !Leq(files[|files| - 1].name, f.name)
    requires multiset(rest) == multiset(files[..|files| - 1]) + multiset{f}
    ensures forall i :: 0 <= i < |rest| ==> Leq(rest[i].name, files[|files| - 1].name)
  {
    var last := files[|files| - 1];
    LeqTotal(last.name, f.name);
    forall i | 0 <= i < |rest| ensures Leq(rest[i].name, last.name) {
      assert rest[i] in multiset(rest);
      assert rest[i] == f || rest[i] in files[..|files| - 1];
    }
  }

  /** Insert `f` after the files that may come before it. */
  function Insert(files: seq<Found>, f: Found): (r: seq<Found>)
    requires Sorted(files)
    ensures Sorted(r) && multiset(r) == multiset(files) + multiset{f}
  {
    if files == [] then [f]
    else
      var n := |files| - 1;
      if Leq(files[n].name, f.name) then
        SortedBelow(files, f);
        files + [f]
      else
        var rest := Insert(files[..n], f);
        assert files == files[..n] + [files[n]];
        InsertedBelow(files, rest, f);
        rest + [files[n]]
  }

  function Sort(files: seq<Found>): (r: seq<Found>)
    ensures Sorted(r) && multiset(r) == multiset(files)
  {
    if files == [] then []
    else
      assert files == files[..|files| - 1] + [files[|files| - 1]];
      Insert(Sort(files[..|files| - 1]), files[|files| - 1])
  }

  /** Sorting distinct names puts them in ascending order. */
  lemma SortAscending(files: seq<Found>)
    requires NoDup(NamesOf(files))
    ensures Ascending(NamesOf(Sort(files))) && Elems(Sort(files)) == Elems(files)
  {
    var r := Sort(files);
    SameElems(files, r);
    PermutedNames(files, r);
    forall i, j | 0 <= i < j < |r| ensures Less(NamesOf(r)[i], NamesOf(r)[j]) {
      assert NamesOf(r)[i] != NamesOf(r)[j];
    }
  }

  lemma SameElems(a: seq<Found>, b: seq<Found>)
    requires multiset(a) == multiset(b)
    ensures Elems(a) == Elems(b)
  {
    forall x ensures x in a <==> x in b {
      assert x in a <==> x in multiset(a);
      assert x in b <==> x in multiset(b);
    }
  }

  /** Distinct names stay distinct under a permutation. */
  lemma PermutedNames(a: seq<Found>, b: seq<Found>)
    requires multiset(a) == multiset(b) && NoDup(NamesOf(a))
    ensures NoDup(NamesOf(b))
  {
    forall i, j | 0 <= i < j < |b| ensures NamesOf(b)[i] != NamesOf(b)[j] {
      var k, l := TwoPlaces(b, a, i, j);
      assert NamesOf(a)[k] != NamesOf(a)[l];
    }
  }

  /** Two places of one list are two places of any permutation of it. */
  lemma TwoPlaces<T>(b: seq<T>, a: seq<T>, i: nat, j: nat) returns (k: nat, l: nat)
    requires multiset(a) == multiset(b) && i < j < |b|
    ensures k < |a| && l < |a| && k != l && a[k] == b[i] && a[l] == b[j]
  {
    assert b[i] in multiset(b) && b[j] in multiset(b);
    k :| 0 <= k < |a| && a[k] == b[i];
    if b[i] != b[j] {
      l :| 0 <= l < |a| && a[l] == b[j];
    } else {
      assert b == b[..i] + [b[i]] + b[i + 1..];
      assert b[j] == b[i + 1..][j - i - 1];
      assert multiset(b)[b[i]] >= 2;
      assert a == a[..k] + [a[k]] + a[k + 1..];
      assert b[j] in multiset(a[..k]) + multiset(a[k + 1..]);
      if b[j] in a[..k] {
        l :| 0 <= l < k && a[..k][l] == b[j];
      } else {
        var m :| 0 <= m < |a[k + 1..]| && a[k + 1..][m] == b[j];
        l := k + 1 + m;
      }
    }
  }

  // ----- one input ------------------------------------------------------------------

  /** An input path: what is there, if anything, and its last component, if it has
      one that is UTF-8. */
  datatype Input = Input(path: Path, rootName: Option<string>, tree: Option<Tree>)

  predicate Accessible(input: Input) {
    && input.tree.Some?
    && (input.tree.value.Symlink? || (input.rootName.Some? && Walkable(input.tree.value)))
  }

  function FilesOf(input: Input): set<Found> {
    if input.tree.Some? && input.rootName.Some?
    then Flatten(input.tree.value, input.rootName.value, input.path)
    else {}
  }

  /** `f` is a regular file of the input: the input itself, or one found below it, with
      the name that begins with the input's last component. */
  predicate OfInput(input: Input, f: Found) {
    && input.tree.Some? && input.rootName.Some?
    && IsFileOf(input.tree.value, input.rootName.value, input.path, f)
  }

  lemma FilesOfMeaning(input: Input, f: Found)
    ensures f in FilesOf(input) <==> OfInput(input, f)
  {
    if input.tree.Some? && input.rootName.Some? {
      FlattenMeaning(input.tree.value, input.rootName.value, input.path, f);
    }
  }

  method WalkFiles(input: Input) returns (r: Result<seq<Found>, WalkError>)
    ensures r.Ok? <==> Accessible(input)
    ensures r.Ok? ==> NoDup(r.value) && Elems(r.value) == FilesOf(input) && Sorted(r.value)
    ensures r.Ok? ==> forall f :: f in r.value <==> OfInput(input, f)
    ensures input.tree == Some(Symlink) ==> r == Ok([])
    ensures r == Err(MissingSource) <==> input.tree.None?
    ensures r.Err? && input.tree.Some? ==>
              (r.error == InvalidRootName && input.rootName.None?) || StoppedBy(input.tree.value, r.error)
  {
    if input.tree.None? {
      return Err(MissingSource);
    }
    var tree := input.tree.value;
    if tree.Symlink? {
      assert forall f :: f in FilesOf(input) <==> OfInput(input, f) by {
        forall f ensures f in FilesOf(input) <==> OfInput(input, f) {
          FilesOfMeaning(input, f);
        }
      }
      return Ok([]);
    }
    if tree.Unreadable? {
      assert NodeAt(tree, []) == Some(tree);
      return Err(ReadMetadata);
    }
    if input.rootName.None? {
      return Err(InvalidRootName);
    }
    var walked := Traverse(Item(tree, input.path, input.rootName.value));
    if walked.Err? {
      return walked;
    }
    var sorted := Sort(walked.value);
    SameElems(walked.value, sorted);
    NoDupPermuted(walked.value, sorted);
    assert forall f :: f in sorted <==> f in Elems(sorted);
    r := Ok(sorted);
  }

  lemma NoDupPermuted(a: seq<Found>, b: seq<Found>)
    requires multiset(a) == multiset(b) && NoDup(a)
    ensures NoDup(b)
  {
    forall i, j | 0 <= i < j < |b| ensures b[i] != b[j] {
      var k, l := TwoPlaces(b, a, i, j);
      assert a[k] != a[l];
    }
  }

  // ----- all inputs -----------------------------------------------------------------

  function AllFiles(inputs: seq<Input>): set<Found> {
    set i, f | 0 <= i < |inputs| && f in FilesOf(inputs[i]) :: f
  }

  predicate Unique(files: set<Found>) {
    forall f, g :: f in files && g in files && f.name == g.name ==> f == g
  }

  predicate NamesApart(a: set<Found>, b: set<Found>) {
    forall f, g :: f in a && g in b ==> f.name != g.name
  }

  /** No two files, of one input or of two, want the same collection name. */
  predicate NoClash(inputs: seq<Input>) {
    && (forall i :: 0 <= i < |inputs| ==> Unique(FilesOf(inputs[i])))
    && (forall i, j :: 0 <= i < j < |inputs| ==> NamesApart(FilesOf(inputs[i]), FilesOf(inputs[j])))
  }

  /** `found` lists the files of the inputs; its names repeat exactly if they clash. */
  predicate Gathered(inputs: seq<Input>, found: seq<Found>) {
    Elems(found) == AllFiles(inputs) && NoDup(NamesOf(found)) == NoClash(inputs)
  }

  lemma GatherStep(done: seq<Input>, next: Input, before: seq<Found>, more: seq<Found>)
    requires Gathered(done, before) && WalkOf(next, more)
    ensures Gathered(done + [next], before + more)
  {
    assert (done + [next])[..|done|] == done;
    ClashStep(done + [next], before, more);
  }

  /** `found` lists the files of one input. */
  predicate WalkOf(input: Input, found: seq<Found>) {
    NoDup(found) && Elems(found) == FilesOf(input)
  }

  function Concat(walks: seq<seq<Found>>): seq<Found> {
    if walks == [] then [] else Concat(walks[..|walks| - 1]) + walks[|walks| - 1]
  }

  lemma {:induction false} WalksGather(inputs: seq<Input>, walks: seq<seq<Found>>)
    requires |walks| == |inputs|
    requires forall k :: 0 <= k < |inputs| ==> WalkOf(inputs[k], walks[k])
    ensures Gathered(inputs, Concat(walks))
  {
    if inputs == [] {
    } else {
      var n := |inputs| - 1;
      WalksGather(inputs[..n], walks[..n]);
      GatherStep(inputs[..n], inputs[n], Concat(walks[..n]), walks[n]);
      assert inputs == inputs[..n] + [inputs[n]];
    }
  }

  lemma ClashStep(inputs: seq<Input>, before: seq<Found>, more: seq<Found>)
    requires inputs != []
    requires NoDup(more) && Elems(more) == FilesOf(inputs[|inputs| - 1])
    requires Gathered(inputs[..|inputs| - 1], before)
    ensures Gathered(inputs, before + more)
  {
    var n := |inputs| - 1;
    var init, last := inputs[..n], FilesOf(inputs[n]);
    forall f ensures f in AllFiles(inputs) <==> f in AllFiles(init) || f in last {
      if f in AllFiles(init) {
        var i :| 0 <= i < n && f in FilesOf(init[i]);
        assert f in FilesOf(inputs[i]);
      }
    }
    ClashInit(inputs);
    NamesConcat(before, more);
    UniqueNoDup(more);
  }

  lemma ClashInit(inputs: seq<Input>)
    requires inputs != []
    ensures NoClash(inputs) <==> LastFits(inputs)
  {
    if NoClash(inputs) {
      ClashShrink(inputs);
    }
    if LastFits(inputs) {
      ClashGrow(inputs);
    }
  }

  /** The last input clashes with nothing, and neither do the others. */
  predicate LastFits(inputs: seq<Input>)
    requires inputs != []
  {
    var n := |inputs| - 1;
    NoClash(inputs[..n]) && Unique(FilesOf(inputs[n])) && NamesApart(AllFiles(inputs[..n]), FilesOf(inputs[n]))
  }

  lemma ClashShrink(inputs: seq<Input>)
    requires inputs != [] && NoClash(inputs)
    ensures LastFits(inputs)
  {
    var n := |inputs| - 1;
    var init := inputs[..n];
    forall f, g | f in AllFiles(init) && g in FilesOf(inputs[n]) ensures f.name != g.name {
      var i :| 0 <= i < n && f in FilesOf(init[i]);
      assert NamesApart(FilesOf(inputs[i]), FilesOf(inputs[n]));
    }
    forall i, j | 0 <= i < j < n ensures NamesApart(FilesOf(init[i]), FilesOf(init[j])) {
      assert NamesApart(FilesOf(inputs[i]), FilesOf(inputs[j]));
    }
  }

  lemma ClashGrow(inputs: seq<Input>)
    requires inputs != [] && LastFits(inputs)
    ensures NoClash(inputs)
  {
    var n := |inputs| - 1;
    var init := inputs[..n];
    forall i, j | 0 <= i < j < |inputs| ensures NamesApart(FilesOf(inputs[i]), FilesOf(inputs[j])) {
      if j < n {
        assert NamesApart(FilesOf(init[i]), FilesOf(init[j]));
      } else {
        assert FilesOf(init[i]) <= AllFiles(init);
      }
    }
    forall i | 0 <= i < |inputs| ensures Unique(FilesOf(inputs[i])) {
      if i < n {
        assert Unique(FilesOf(init[i]));
      }
    }
  }

  lemma NamesConcat(a: seq<Found>, b: seq<Found>)
    ensures NoDup(NamesOf(a + b)) <==> NoDup(NamesOf(a)) && NoDup(NamesOf(b)) && NamesApart(Elems(a), Elems(b))
    ensures Elems(a + b) == Elems(a) + Elems(b)
  {
    var x, y, z := NamesOf(a), NamesOf(b), NamesOf(a + b);
    assert z == x + y;
    if NoDup(z) {
      forall i, j | 0 <= i < j < |x| ensures x[i] != x[j] {
        assert z[i] != z[j];
      }
      forall i, j | 0 <= i < j < |y| ensures y[i] != y[j] {
        assert z[|x| + i] != z[|x| + j];
      }
      forall f, g | f in a && g in b ensures f.name != g.name {
        var i :| 0 <= i < |a| && a[i] == f;
        var j :| 0 <= j < |b| && b[j] == g;
        assert z[i] != z[|x| + j];
      }
    }
    if NoDup(x) && NoDup(y) && NamesApart(Elems(a), Elems(b)) {
      forall i, j | 0 <= i < j < |z| ensures z[i] != z[j] {
        if i < |x| <= j {
          assert a[i] in Elems(a) && b[j - |x|] in Elems(b);
        } else if |x| <= i {
          assert y[i - |x|] != y[j - |x|];
        }
      }
    }
  }

  lemma UniqueNoDup(files: seq<Found>)
    requires NoDup(files)
    ensures NoDup(NamesOf(files)) <==> Unique(Elems(files))
  {
    if NoDup(NamesOf(files)) {
      forall f, g | f in files && g in files && f.name == g.name ensures f == g {
        var i :| 0 <= i < |files| && files[i] == f;
        var j :| 0 <= j < |files| && files[j] == g;
        assert NamesOf(files)[i] == NamesOf(files)[j];
      }
    }
    if Unique(Elems(files)) {
      forall i, j | 0 <= i < j < |files| ensures NamesOf(files)[i] != NamesOf(files)[j] {
        assert files[i] in Elems(files) && files[j] in Elems(files) && files[i] != files[j];
      }
    }
  }

  function TotalSize(files: seq<Found>): nat {
    if files == [] then 0 else TotalSize(files[..|files| - 1]) + files[|files| - 1].size
  }

  /** The inventory: collection order is name order. */
  datatype Prepared = Prepared(files: seq<Found>, total: nat)

  /** What a prepared send is, from the inputs as a collection of trees. */
  predicate PreparedFrom(inputs: seq<Input>, p: Prepared) {
    && Ascending(NamesOf(p.files))
    && Elems(p.files) == AllFiles(inputs)
    && p.total == TotalSize(p.files)
  }

  predicate Preparable(inputs: seq<Input>) {
    (forall i :: 0 <= i < |inputs| ==> Accessible(inputs[i])) && NoClash(inputs)
  }

  method PrepareSend(inputs: seq<Input>, reliable: bool) returns (r: Result<Prepared, WalkError>)
    ensures r.Ok? ==> Preparable(inputs) && PreparedFrom(inputs, r.value)
    ensures r.Ok? ==> forall f :: f in r.value.files <==> exists i :: 0 <= i < |inputs| && OfInput(inputs[i], f)
    ensures reliable ==> (r.Ok? <==> Preparable(inputs))
    ensures r.Err? ==>
      if forall i :: 0 <= i < |inputs| ==> Accessible(inputs[i])
      then if NoClash(inputs) then r.error.Import? else r.error.DuplicateName? && NameUsed(inputs, r.error.name)
      else exists i :: 0 <= i < |inputs| && Refuses(inputs[i], r.error)
  {
    var walked := WalkAll(inputs);
    if walked.Err? {
      return Err(walked.error);
    }
    var repeated := FirstRepeated(walked.value);
    if repeated.Some? {
      assert NameUsed(inputs, repeated.value) by {
        var k :| 0 <= k < |walked.value| && walked.value[k].name == repeated.value;
        assert walked.value[k] in Elems(walked.value);
      }
      return Err(DuplicateName(repeated.value));
    }
    SortAscending(walked.value);
    AllFilesMeaning(inputs, Sort(walked.value));
    r := ImportAll(Sort(walked.value), reliable);
  }

  /** Some file of the inputs has this name. */
  predicate NameUsed(inputs: seq<Input>, name: string) {
    exists f :: f in AllFiles(inputs) && f.name == name
  }

  /** Why the input cannot be walked. */
  ghost predicate Refuses(input: Input, error: WalkError) {
    if input.tree.None? then error == MissingSource
    else (error == InvalidRootName && input.rootName.None?) || StoppedBy(input.tree.value, error)
  }

  lemma AllFilesMeaning(inputs: seq<Input>, files: seq<Found>)
    requires Elems(files) == AllFiles(inputs)
    ensures forall f :: f in files <==> exists i :: 0 <= i < |inputs| && OfInput(inputs[i], f)
  {
    forall f ensures f in files <==> exists i :: 0 <= i < |inputs| && OfInput(inputs[i], f) {
      assert f in files <==> f in Elems(files);
      forall i | 0 <= i < |inputs| ensures f in FilesOf(inputs[i]) <==> OfInput(inputs[i], f) {
        FilesOfMeaning(inputs[i], f);
      }
      if f in AllFiles(inputs) {
        var i :| 0 <= i < |inputs| && f in FilesOf(inputs[i]);
        assert OfInput(inputs[i], f);
      }
    }
  }

  /** The walks of all inputs, one after the other; the first failure ends it. */
  method WalkAll(inputs: seq<Input>) returns (r: Result<seq<Found>, WalkError>)
    ensures r.Ok? <==> forall i :: 0 <= i < |inputs| ==> Accessible(inputs[i])
    ensures r.Err? ==> exists i :: 0 <= i < |inputs| && Refuses(inputs[i], r.error)
    ensures r.Ok? ==> Gathered(inputs, r.value)
  {
    var discovered: seq<Found> := [];
    ghost var walks: seq<seq<Found>> := [];
    for i := 0 to |inputs|
      invariant |walks| == i && discovered == Concat(walks)
      invariant forall k :: 0 <= k < i ==> Accessible(inputs[k]) && WalkOf(inputs[k], walks[k])
    {
      var walked := WalkFiles(inputs[i]);
      if walked.Err? {
        assert Refuses(inputs[i], walked.error);
        return walked;
      }
      assert (walks + [walked.value])[..i] == walks;
      discovered, walks := discovered + walked.value, walks + [walked.value];
    }
    WalksGather(inputs, walks);
    r := Ok(discovered);
  }

  /** The first name that has been seen before. */
  method FirstRepeated(files: seq<Found>) returns (name: Option<string>)
    ensures name.None? <==> NoDup(NamesOf(files))
    ensures name.Some? ==> exists i, j :: 0 <= i < j < |files| && files[i].name == files[j].name == name.value
  {
    var seen: set<string> := {};
    var names := NamesOf(files);
    for i := 0 to |files|
      invariant seen == Elems(names[..i]) && NoDup(names[..i])
    {
      if names[i] in seen {
        var k :| 0 <= k < i && names[..i][k] == names[i];
        assert names[k] == names[i];
        assert files[k].name == files[i].name;
        return Some(files[i].name);
      }
      seen := seen + {names[i]};
      assert names[..i + 1] == names[..i] + [names[i]];
    }
    assert names[..|files|] == names;
    name := None;
  }

  /** Import the files one by one in the order given. */
  method ImportAll(files: seq<Found>, reliable: bool) returns (r: Result<Prepared, WalkError>)
    ensures r.Ok? ==> r.value == Prepared(files, TotalSize(files))
    ensures r.Err? ==> r.error.Import?
    ensures reliable ==> r.Ok?
  {
    var imported: seq<Found> := [];
    var total := 0;
    for i := 0 to |files|
      invariant imported == files[..i] && total == TotalSize(imported)
    {
      var io := Attempt(reliable);
      if !io.Performed? {
        return Err(Import(files[i].name));
      }
      assert (imported + [files[i]])[..i] == imported;
      imported := imported + [files[i]];
      total := total + files[i].size;
    }
    assert files[..|files|] == files;
    r := Ok(Prepared(imported, total));
  }

  // ----- the result does not depend on any order -----------------------------------------

  /** Two prepared sends of the same inputs, given in any order and enumerated in any
      order, are the same, down to the collection order and the total. */
  lemma PreparedUnique(a: seq<Input>, b: seq<Input>, p: Prepared, q: Prepared)
    requires multiset(a) == multiset(b)
    requires PreparedFrom(a, p) && PreparedFrom(b, q)
    ensures p == q
  {
    SameFiles(a, b);
    assert Elems(p.files) == Elems(q.files);
    forall x ensures x in NamesOf(p.files) <==> x in NamesOf(q.files) {
      NameMember(p.files, x);
      NameMember(q.files, x);
    }
    AscendingUnique(NamesOf(p.files), NamesOf(q.files));
    assert |p.files| == |NamesOf(p.files)| == |NamesOf(q.files)| == |q.files|;
    forall i | 0 <= i < |p.files| ensures p.files[i] == q.files[i] {
      assert p.files[i] in Elems(q.files);
      var k :| 0 <= k < |q.files| && q.files[k] == p.files[i];
      assert NamesOf(q.files)[k] == NamesOf(q.files)[i];
    }
    assert p.files == q.files;
  }

  lemma NameMember(files: seq<Found>, x: string)
    ensures x in NamesOf(files) <==> exists f :: f in Elems(files) && f.name == x
  {
    if x in NamesOf(files) {
      var i :| 0 <= i < |files| && NamesOf(files)[i] == x;
      assert files[i] in Elems(files);
    }
    if f :| f in Elems(files) && f.name == x {
      var i :| 0 <= i < |files| && files[i] == f;
      assert NamesOf(files)[i] == x;
    }
  }

  lemma SameFiles(a: seq<Input>, b: seq<Input>)
    requires multiset(a) == multiset(b)
    ensures AllFiles(a) == AllFiles(b)
  {
    forall f ensures f in AllFiles(a) <==> f in AllFiles(b) {
      if f in AllFiles(a) {
        var i :| 0 <= i < |a| && f in FilesOf(a[i]);
        assert a[i] in multiset(b);
        var j :| 0 <= j < |b| && b[j] == a[i];
      }
      if f in AllFiles(b) {
        var i :| 0 <= i < |b| && f in FilesOf(b[i]);
        assert b[i] in multiset(a);
        var j :| 0 <= j < |a| && a[j] == b[i];
      }
    }
  }

  lemma NamesApartSymmetric(a: set<Found>, b: set<Found>)
    requires NamesApart(a, b)
    ensures NamesApart(b, a)
  {
  }

  /** Nor does it depend on the order of the inputs whether they can be sent. */
  lemma PreparableAnyOrder(a: seq<Input>, b: seq<Input>)
    requires multiset(a) == multiset(b) && Preparable(a)
    ensures Preparable(b)
  {
    forall i | 0 <= i < |b| ensures Accessible(b[i]) && Unique(FilesOf(b[i])) {
      assert b[i] in multiset(a);
      var k :| 0 <= k < |a| && a[k] == b[i];
    }
    forall i, j | 0 <= i < j < |b| ensures NamesApart(FilesOf(b[i]), FilesOf(b[j])) {
      var k, l := TwoPlaces(b, a, i, j);
      if k < l {
        assert NamesApart(FilesOf(a[k]), FilesOf(a[l]));
      } else {
        NamesApartSymmetric(FilesOf(a[l]), FilesOf(a[k]));
      }
    }
  }
}
