// The sender's inventory (crates/core/src/transfer/send.rs): walk the inputs into
// files with collection names, and prepare the collection in name order.
module Walk {
  import opened Basics
  import opened Names
  import opened Records

  datatype WalkError =
    | MissingSource
    | ReadMetadata
    | ReadDirectory
    | InvalidUtf8
    | InvalidRootName
    | UnsupportedFileType
    | DuplicateName(name: string)
    | Import(name: string)

  /** An error met while a directory is listed: an unreadable entry, or a name that is
      not UTF-8. */
  datatype Defect = BadEntry | BadName

  function DefectError(defect: Defect): WalkError {
    match defect
    case BadEntry => ReadDirectory
    case BadName => InvalidUtf8
  }

  /** A file system tree as the walk meets it. */
  datatype Tree =
    | File(hash: Hash, size: nat)
    | Symlink
    | Special
    | Unreadable
    | Dir(children: map<string, Tree>, defect: Option<Defect>)

  /** A discovered file: collection name, local path, content. */
  datatype Found = Found(name: string, path: Path, hash: Hash, size: nat)

  // ----- what a walk should find: a plain recursion -------------------------------

  /** Every regular file below `t`, without following symbolic links. */
  function Flatten(t: Tree, name: string, path: Path): set<Found> {
    match t
    case File(hash, size) => {Found(name, path, hash, size)}
    case Dir(children, _) =>
      set k, f | k in children && f in Flatten(children[k], name + "/" + k, path + [k]) :: f
    case _ => {}
  }

  /** Nothing in the tree stops a walk. */
  predicate Walkable(t: Tree) {
    match t
    case Dir(children, defect) => defect.None? && forall k :: k in children ==> Walkable(children[k])
    case File(_, _) => true
    case Symlink => true
    case _ => false
  }

  /** The paths of all nodes of the tree. */
  function Nodes(t: Tree, path: Path): set<Path> {
    {path} + match t
      case Dir(children, _) => set k, p | k in children && p in Nodes(children[k], path + [k]) :: p
      case _ => {}
  }

  lemma {:induction false} NodesUnder(t: Tree, path: Path, p: Path)
    requires p in Nodes(t, path)
    ensures path <= p
  {
    if p == path {
    } else {
      var k :| t.Dir? && k in t.children && p in Nodes(t.children[k], path + [k]);
      NodesUnder(t.children[k], path + [k], p);
    }
  }

  lemma {:induction false} FoundAreNodes(t: Tree, name: string, path: Path, f: Found)
    requires f in Flatten(t, name, path)
    ensures f.path in Nodes(t, path)
  {
    if !t.Dir? {
    } else {
      var k :| k in t.children && f in Flatten(t.children[k], name + "/" + k, path + [k]);
      FoundAreNodes(t.children[k], name + "/" + k, path + [k], f);
    }
  }

  // ----- what that means, path by path ----------------------------------------------

  /** The node that `rest` leads to from `t`, one directory entry at a time. */
  function NodeAt(t: Tree, rest: seq<string>): Option<Tree> {
    if rest == [] then Some(t)
    else if t.Dir? && rest[0] in t.children then NodeAt(t.children[rest[0]], rest[1..])
    else None
  }

  /** `name` with the components of `rest` after it. */
  function Below(name: string, rest: seq<string>): string
    decreases rest
  {
    if rest == [] then name else Below(name + "/" + rest[0], rest[1..])
  }

  /** `f` is a regular file at or below `t`, with its own content, under its own name. */
  predicate IsFileOf(t: Tree, name: string, path: Path, f: Found) {
    && path <= f.path
    && var rest := f.path[|path|..];
       NodeAt(t, rest) == Some(File(f.hash, f.size)) && f.name == Below(name, rest)
  }

  /** The flattening holds every regular file of the tree and nothing else. */
  lemma {:induction false} FlattenMeaning(t: Tree, name: string, path: Path, f: Found)
    ensures f in Flatten(t, name, path) <==> IsFileOf(t, name, path, f)
    decreases t
  {
    if t.Dir? {
      if f in Flatten(t, name, path) {
        var k :| k in t.children && f in Flatten(t.children[k], name + "/" + k, path + [k]);
        FlattenMeaning(t.children[k], name + "/" + k, path + [k], f);
        FileStep(t, name, path, f, k);
      }
      if IsFileOf(t, name, path, f) {
        assert NodeAt(t, []) == Some(t);
        var k := f.path[|path|];
        assert path + [k] == f.path[..|path| + 1];
        FileStep(t, name, path, f, k);
        FlattenMeaning(t.children[k], name + "/" + k, path + [k], f);
      }
    } else {
      assert f.path == path ==> f.path[|path|..] == [];
      assert path <= f.path && f.path[|path|..] == [] ==> f.path == path;
    }
  }

  /** A file below the entry `k` is a file below the directory. */
  lemma FileStep(t: Tree, name: string, path: Path, f: Found, k: string)
    requires t.Dir? && path + [k] <= f.path
    ensures IsFileOf(t, name, path, f) <==> k in t.children && IsFileOf(t.children[k], name + "/" + k, path + [k], f)
  {
    var rest := f.path[|path|..];
    assert f.path[|path|] == k && path == f.path[..|path|];
    assert rest[0] == k && rest[1..] == f.path[|path + [k]|..];
  }

  /** The walk has a way to deal with the node itself. */
  predicate Fine(t: Tree) {
    t.File? || t.Symlink? || (t.Dir? && t.defect.None?)
  }

  ghost predicate AllFine(t: Tree) {
    forall rest :: NodeAt(t, rest).Some? ==> Fine(NodeAt(t, rest).value)
  }

  /** A tree is walkable exactly if there is nothing else in it. */
  lemma {:induction false} WalkableMeaning(t: Tree)
    ensures Walkable(t) <==> AllFine(t)
  {
    assert NodeAt(t, []) == Some(t);
    if t.Dir? {
      forall k | k in t.children ensures Walkable(t.children[k]) <==> AllFine(t.children[k]) {
        WalkableMeaning(t.children[k]);
      }
      FineBelow(t);
    }
  }

  lemma FineBelow(t: Tree)
    requires t.Dir?
    ensures AllFine(t) <==> Fine(t) && forall k :: k in t.children ==> AllFine(t.children[k])
  {
    assert NodeAt(t, []) == Some(t);
    if AllFine(t) {
      forall k | k in t.children ensures AllFine(t.children[k]) {
        forall rest | NodeAt(t.children[k], rest).Some? ensures Fine(NodeAt(t.children[k], rest).value) {
          assert ([k] + rest)[1..] == rest;
          assert NodeAt(t, [k] + rest) == NodeAt(t.children[k], rest);
        }
      }
    }
    if Fine(t) && forall k :: k in t.children ==> AllFine(t.children[k]) {
      forall rest | NodeAt(t, rest).Some? ensures Fine(NodeAt(t, rest).value) {
        if rest != [] {
          assert AllFine(t.children[rest[0]]);
        }
      }
    }
  }

  /** The error that the node itself gives rise to. */
  predicate Gives(t: Tree, error: WalkError) {
    match t
    case Special => error == UnsupportedFileType
    case Unreadable => error == ReadMetadata
    case Dir(_, Some(BadEntry)) => error == ReadDirectory
    case Dir(_, Some(BadName)) => error == InvalidUtf8
    case _ => false
  }

  /** Some node of the tree gives rise to the error. */
  ghost predicate StoppedBy(t: Tree, error: WalkError) {
    exists rest :: NodeAt(t, rest).Some? && Gives(NodeAt(t, rest).value, error)
  }

  /** `item` is a node of `root`. */
  predicate Within(root: Item, item: Item) {
    root.path <= item.path && NodeAt(root.tree, item.path[|root.path|..]) == Some(item.tree)
  }

  lemma {:induction false} NodeAtSnoc(t: Tree, rest: seq<string>, k: string)
    requires NodeAt(t, rest).Some? && NodeAt(t, rest).value.Dir? && k in NodeAt(t, rest).value.children
    ensures NodeAt(t, rest + [k]) == Some(NodeAt(t, rest).value.children[k])
  {
    if rest == [] {
      assert [] + [k] == [k];
    } else {
      NodeAtSnoc(t.children[rest[0]], rest[1..], k);
      assert (rest + [k])[1..] == rest[1..] + [k];
    }
  }

  /** The entries of a directory within the root are within the root. */
  lemma EntriesWithin(root: Item, rest: seq<Item>, item: Item, items: seq<Item>)
    requires AllWithin(root, rest) && Within(root, item)
    requires item.tree.Dir? && EntriesOf(items, item.tree.children, item.path, item.name)
    ensures AllWithin(root, rest + items)
  {
    forall i | 0 <= i < |items| ensures Within(root, items[i]) {
      assert EntryOf(items[i], item.tree.children, item.path, item.name);
      var k := items[i].path[|item.path|];
      NodeAtSnoc(root.tree, item.path[|root.path|..], k);
      assert items[i].path[|root.path|..] == item.path[|root.path|..] + [k];
    }
  }

  // ----- the walk: a stack and a loop -----------------------------------------------

  /** Work not yet done: a node with its local path and collection name. */
  datatype Item = Item(tree: Tree, path: Path, name: string)
  {
    function Files(): set<Found> {
      Flatten(tree, name, path)
    }

    function Under(): set<Path> {
      Nodes(tree, path)
    }
  }

  function Pending(stack: seq<Item>): set<Found> {
    set i, f | 0 <= i < |stack| && f in stack[i].Files() :: f
  }

  function PendingNodes(stack: seq<Item>): set<Path> {
    set i, p | 0 <= i < |stack| && p in stack[i].Under() :: p
  }

  predicate Apart(stack: seq<Item>) {
    forall i, j :: 0 <= i < j < |stack| ==> stack[i].Under() !! stack[j].Under()
  }

  /** `items` are the entries of the directory at `path`, in some order. */
  predicate EntriesOf(items: seq<Item>, children: map<string, Tree>, path: Path, name: string) {
    && (forall i :: 0 <= i < |items| ==> EntryOf(items[i], children, path, name))
    && (forall k :: k in children ==> Item(children[k], path + [k], name + "/" + k) in items)
    && (forall i, j :: 0 <= i < j < |items| ==> items[i].path != items[j].path)
  }

  predicate EntryOf(item: Item, children: map<string, Tree>, path: Path, name: string) {
    && |item.path| == |path| + 1
    && var k := item.path[|path|];
    k in children && item == Item(children[k], path + [k], name + "/" + k)
  }

  /** List a directory. The order is the operating system's. */
  method ReadDir(children: map<string, Tree>, path: Path, name: string) returns (items: seq<Item>)
    ensures EntriesOf(items, children, path, name)
  {
    items := [];
    var todo := children.Keys;
    while todo != {}
      invariant todo <= children.Keys
      invariant forall i :: 0 <= i < |items| ==> EntryOf(items[i], children, path, name) && items[i].path[|path|] !in todo
      invariant forall k :: k in children.Keys - todo ==> Item(children[k], path + [k], name + "/" + k) in items
      invariant forall i, j :: 0 <= i < j < |items| ==> items[i].path != items[j].path
      decreases todo
    {
      var k :| k in todo;
      var item := Item(children[k], path + [k], name + "/" + k);
      assert EntryOf(item, children, path, name);
      todo := todo - {k};
      items := items + [item];
    }
  }

  lemma EntriesFiles(items: seq<Item>, children: map<string, Tree>, defect: Option<Defect>, path: Path, name: string)
    requires EntriesOf(items, children, path, name)
    ensures Pending(items) == Flatten(Dir(children, defect), name, path)
  {
    var t := Dir(children, defect);
    forall f ensures f in Pending(items) <==> f in Flatten(t, name, path) {
      if f in Pending(items) {
        var i :| 0 <= i < |items| && f in items[i].Files();
        assert EntryOf(items[i], children, path, name);
      }
      if f in Flatten(t, name, path) {
        var k :| k in children && f in Flatten(children[k], name + "/" + k, path + [k]);
        var i :| 0 <= i < |items| && items[i] == Item(children[k], path + [k], name + "/" + k);
        assert f in items[i].Files();
      }
    }
  }

  lemma EntriesNodes(items: seq<Item>, children: map<string, Tree>, defect: Option<Defect>, path: Path, name: string)
    requires EntriesOf(items, children, path, name)
    ensures PendingNodes(items) == Nodes(Dir(children, defect), path) - {path}
  {
    var t := Dir(children, defect);
    forall p ensures p in PendingNodes(items) <==> p in Nodes(t, path) - {path} {
      if p in PendingNodes(items) {
        var i :| 0 <= i < |items| && p in items[i].Under();
        assert EntryOf(items[i], children, path, name);
        NodesUnder(items[i].tree, items[i].path, p);
      }
      if p in Nodes(t, path) - {path} {
        var k :| k in children && p in Nodes(children[k], path + [k]);
        var i :| 0 <= i < |items| && items[i] == Item(children[k], path + [k], name + "/" + k);
        assert p in items[i].Under();
      }
    }
  }

  /** The entries hold what their directory holds, and do not overlap. */
  lemma EntriesPartition(items: seq<Item>, children: map<string, Tree>, defect: Option<Defect>, path: Path, name: string)
    requires EntriesOf(items, children, path, name)
    ensures Pending(items) == Flatten(Dir(children, defect), name, path)
    ensures PendingNodes(items) == Nodes(Dir(children, defect), path) - {path}
    ensures Apart(items)
  {
    EntriesFiles(items, children, defect, path, name);
    EntriesNodes(items, children, defect, path, name);
    forall i, j | 0 <= i < j < |items| ensures items[i].Under() !! items[j].Under() {
      assert EntryOf(items[i], children, path, name) && EntryOf(items[j], children, path, name);
      forall p | p in items[i].Under() && p in items[j].Under() ensures false {
        NodesUnder(items[i].tree, items[i].path, p);
        NodesUnder(items[j].tree, items[j].path, p);
      }
    }
  }

  lemma PendingConcat(a: seq<Item>, b: seq<Item>)
    ensures Pending(a + b) == Pending(a) + Pending(b)
    ensures PendingNodes(a + b) == PendingNodes(a) + PendingNodes(b)
    ensures Apart(a + b) <==> Apart(a) && Apart(b) && PendingNodes(a) !! PendingNodes(b)
  {
    var c := a + b;
    forall i | 0 <= i < |b| ensures c[|a| + i] == b[i] {
    }
    forall f ensures f in Pending(c) <==> f in Pending(a) + Pending(b) {
      if f in Pending(b) {
        var i :| 0 <= i < |b| && f in b[i].Files();
        assert f in c[|a| + i].Files();
      }
      if f in Pending(a) {
        var i :| 0 <= i < |a| && f in a[i].Files();
        assert f in c[i].Files();
      }
    }
    forall p ensures p in PendingNodes(c) <==> p in PendingNodes(a) + PendingNodes(b) {
      if p in PendingNodes(b) {
        var i :| 0 <= i < |b| && p in b[i].Under();
        assert p in c[|a| + i].Under();
      }
      if p in PendingNodes(a) {
        var i :| 0 <= i < |a| && p in a[i].Under();
        assert p in c[i].Under();
      }
    }
    if Apart(c) {
      forall i, j | 0 <= i < j < |b| ensures b[i].Under() !! b[j].Under() {
        assert c[|a| + i].Under() !! c[|a| + j].Under();
      }
      forall i, j | 0 <= i < j < |a| ensures a[i].Under() !! a[j].Under() {
        assert c[i].Under() !! c[j].Under();
      }
      forall i, j | 0 <= i < |a| && 0 <= j < |b| ensures a[i].Under() !! b[j].Under() {
        assert c[i].Under() !! c[|a| + j].Under();
      }
    }
    if Apart(a) && Apart(b) && PendingNodes(a) !! PendingNodes(b) {
      forall i, j | 0 <= i < j < |c| ensures c[i].Under() !! c[j].Under() {
        if i < |a| <= j {
          assert c[i].Under() <= PendingNodes(a) && c[j].Under() <= PendingNodes(b);
        } else if |a| <= i {
          assert b[i - |a|].Under() !! b[j - |a|].Under();
        }
      }
    }
  }

  /** Taking the last item off the stack. */
  lemma PopItem(stack: seq<Item>)
    requires stack != [] && Apart(stack)
    ensures var rest, top := stack[..|stack| - 1], stack[|stack| - 1];
      && Apart(rest) && PendingNodes(rest) !! top.Under()
      && Pending(stack) == Pending(rest) + top.Files()
      && PendingNodes(stack) == PendingNodes(rest) + top.Under()
      && (StackWalkable(stack) <==> StackWalkable(rest) && Walkable(top.tree))
  {
    var rest, top := stack[..|stack| - 1], stack[|stack| - 1];
    PendingConcat(rest, [top]);
    assert stack == rest + [top];
    OneItem(top);
    if StackWalkable(rest) && Walkable(top.tree) {
      forall i | 0 <= i < |stack| ensures Walkable(stack[i].tree) {
        assert i < |rest| ==> stack[i] == rest[i];
      }
    }
    if StackWalkable(stack) {
      forall i | 0 <= i < |rest| ensures Walkable(rest[i].tree) {
        assert stack[i] == rest[i];
      }
    }
  }

  lemma OneItem(item: Item)
    ensures Apart([item]) && Pending([item]) == item.Files() && PendingNodes([item]) == item.Under()
    ensures StackWalkable([item]) <==> Walkable(item.tree)
  {
    assert [item][0] == item;
  }

  /** A walk that cannot go on has met something that is not walkable. */
  predicate StackWalkable(stack: seq<Item>) {
    forall i :: 0 <= i < |stack| ==> Walkable(stack[i].tree)
  }

  /** Putting the entries of a directory on the stack in its place. */
  lemma PushEntries(rest: seq<Item>, item: Item, items: seq<Item>)
    requires item.tree.Dir? && item.tree.defect.None? && EntriesOf(items, item.tree.children, item.path, item.name)
    requires Apart(rest) && PendingNodes(rest) !! item.Under()
    ensures Apart(rest + items)
    ensures Pending(rest + items) == Pending(rest) + item.Files()
    ensures PendingNodes(rest + items) == PendingNodes(rest) + item.Under() - {item.path}
    ensures StackWalkable(rest + items) <==> StackWalkable(rest) && Walkable(item.tree)
  {
    EntriesPartition(items, item.tree.children, item.tree.defect, item.path, item.name);
    PendingConcat(rest, items);
    EntriesWalkable(items, item.tree.children, item.path, item.name, rest);
    assert item.path in item.Under();
  }

  /** A file below a node that was not visited has not been found before. */
  lemma AddFound(found: seq<Found>, f: Found, nodes: set<Path>)
    requires NoDup(found) && f.path in nodes
    requires forall g :: g in found ==> g.path !in nodes
    ensures NoDup(found + [f]) && Elems(found + [f]) == Elems(found) + {f}
  {
    assert f !in found;
  }

  lemma FilesMeaning(root: Item, found: seq<Found>)
    requires Elems(found) == root.Files()
    ensures forall f :: f in found <==> IsFileOf(root.tree, root.name, root.path, f)
  {
    forall f ensures f in found <==> IsFileOf(root.tree, root.name, root.path, f) {
      FlattenMeaning(root.tree, root.name, root.path, f);
      assert f in Elems(found) <==> f in found;
    }
  }

  /** A node of the root at which the walk stops. */
  lemma StopsAt(root: Item, item: Item, error: WalkError)
    requires Within(root, item) && Gives(item.tree, error)
    ensures StoppedBy(root.tree, error)
  {
  }

  lemma PopWithin(root: Item, stack: seq<Item>)
    requires stack != [] && AllWithin(root, stack)
    ensures AllWithin(root, stack[..|stack| - 1]) && Within(root, stack[|stack| - 1])
  {
  }

  predicate AllWithin(root: Item, stack: seq<Item>) {
    forall i :: 0 <= i < |stack| ==> Within(root, stack[i])
  }

  /** List the directory `item`, to put its entries on the stack in its place. */
  method OpenDir(ghost root: Item, ghost rest: seq<Item>, item: Item) returns (r: Result<seq<Item>, WalkError>)
    requires item.tree.Dir? && Within(root, item) && AllWithin(root, rest)
    requires Apart(rest) && PendingNodes(rest) !! item.Under()
    ensures r.Err? ==> !Walkable(item.tree) && StoppedBy(root.tree, r.error)
    ensures r.Ok? ==> var stack := rest + r.value;
      && Apart(stack) && AllWithin(root, stack)
      && Pending(stack) == Pending(rest) + item.Files()
      && PendingNodes(stack) == PendingNodes(rest) + item.Under() - {item.path}
      && (StackWalkable(stack) <==> StackWalkable(rest) && Walkable(item.tree))
  {
    var defect := item.tree.defect;
    if defect.Some? {
      StopsAt(root, item, DefectError(defect.value));
      return Err(DefectError(defect.value));
    }
    var items := ReadDir(item.tree.children, item.path, item.name);
    PushEntries(rest, item, items);
    EntriesWithin(root, rest, item, items);
    r := Ok(items);
  }

  /** What was found and what is still pending make up the files of the root, once each. */
  predicate OnTheWay(root: Item, found: seq<Found>, stack: seq<Item>) {
    && Apart(stack)
    && NoDup(found)
    && Elems(found) + Pending(stack) == root.Files()
    && (forall f :: f in found ==> f.path !in PendingNodes(stack))
    && (StackWalkable(stack) <==> Walkable(root.tree))
    && AllWithin(root, stack)
  }

  /** The next item is a file: it is found. */
  lemma TakeFile(root: Item, found: seq<Found>, stack: seq<Item>, f: Found)
    requires stack != [] && OnTheWay(root, found, stack)
    requires var top := stack[|stack| - 1]; top.tree == File(f.hash, f.size) && f.name == top.name && f.path == top.path
    ensures OnTheWay(root, found + [f], stack[..|stack| - 1])
  {
    var top := stack[|stack| - 1];
    PopItem(stack);
    PopWithin(root, stack);
    assert top.path in top.Under();
    AddFound(found, f, top.Under());
  }

  /** The next item is a symbolic link: it is passed over. */
  lemma PassLink(root: Item, found: seq<Found>, stack: seq<Item>)
    requires stack != [] && OnTheWay(root, found, stack) && stack[|stack| - 1].tree.Symlink?
    ensures OnTheWay(root, found, stack[..|stack| - 1])
  {
    PopItem(stack);
    PopWithin(root, stack);
  }

  /** The traversal: a stack of paths, children pushed in whatever order the system
      lists them. It finds each regular file once and nothing else, and it fails
      exactly if the tree holds something it cannot handle. */
  method Traverse(root: Item) returns (r: Result<seq<Found>, WalkError>)
    ensures r.Ok? <==> Walkable(root.tree)
    ensures r.Ok? ==> NoDup(r.value) && Elems(r.value) == root.Files()
    ensures r.Ok? ==> forall f :: f in r.value <==> IsFileOf(root.tree, root.name, root.path, f)
    ensures r.Err? ==> StoppedBy(root.tree, r.error)
  {
    var found: seq<Found> := [];
    var stack := [root];
    OneItem(root);
    while stack != []
      invariant OnTheWay(root, found, stack)
      decreases PendingNodes(stack)
    {
      ghost var all := stack;
      var item := stack[|stack| - 1];
      stack := stack[..|stack| - 1];
      PopItem(all);
      PopWithin(root, all);
      assert item.path in item.Under();
      match item.tree {
        case Symlink =>
          PassLink(root, found, all);
        case File(hash, size) =>
          var f := Found(item.name, item.path, hash, size);
          TakeFile(root, found, all, f);
          found := found + [f];
        case Special =>
          StopsAt(root, item, UnsupportedFileType);
          return Err(UnsupportedFileType);
        case Unreadable =>
          StopsAt(root, item, ReadMetadata);
          return Err(ReadMetadata);
        case Dir(_, _) =>
          var items := OpenDir(root, stack, item);
          if items.Err? {
            return Err(items.error);
          }
          stack := stack + items.value;
      }
    }
    assert Pending(stack) == {};
    FilesMeaning(root, found);
    r := Ok(found);
  }

  lemma EntriesWalkable(items: seq<Item>, children: map<string, Tree>, path: Path, name: string, rest: seq<Item>)
    requires EntriesOf(items, children, path, name)
    ensures StackWalkable(rest + items) <==> StackWalkable(rest) && forall k :: k in children ==> Walkable(children[k])
  {
    var all := rest + items;
    if StackWalkable(all) {
      forall i | 0 <= i < |rest| ensures Walkable(rest[i].tree) {
        assert all[i] == rest[i];
      }
      forall k | k in children ensures Walkable(children[k]) {
        var i :| 0 <= i < |items| && items[i] == Item(children[k], path + [k], name + "/" + k);
        assert all[|rest| + i] == items[i];
      }
    }
    if StackWalkable(rest) && forall k :: k in children ==> Walkable(children[k]) {
      forall i | 0 <= i < |all| ensures Walkable(all[i].tree) {
        if i >= |rest| {
          assert EntryOf(items[i - |rest|], children, path, name);
        }
      }
    }
  }
}
