// What one receive is meant to do, as functions and relations on values: the
// uninterrupted run as a fold over the collection, the runs that faults and
// crashes cut short, and the accounting and progress reports of a run.
module ReceiveSpec {
  import opened Basics
  import opened Names
  import opened Records

  datatype Entry = Entry(name: string, hash: Hash)

  datatype Node = File(data: Bytes) | Directory

  /** One receive: which collection, where to, on which system, and the conflict
      policy. The root is the target directory made absolute; `blobs` gives every blob
      its content, as content addressing does. */
  datatype Job = Job(
    hash: Hash,
    targetDir: string,
    root: Path,
    files: seq<Entry>,
    blobs: map<Hash, Bytes>,
    overwrite: bool,
    windows: bool)
  {
    predicate Valid() {
      Absolute(windows, root) && forall i :: 0 <= i < |files| ==> files[i].hash in blobs
    }

    function Content(i: nat): Bytes
      requires Valid() && i < |files|
    {
      blobs[files[i].hash]
    }

    function TargetOf(i: nat): Option<Path>
      requires i < |files|
    {
      Target(windows, root, files[i].name)
    }

    /** No part of the name begins with a drive that leaves the root. */
    predicate Stays(i: nat)
      requires i < |files|
    {
      Inside(windows, files[i].name)
    }
  }

  // ----- the uninterrupted run -------------------------------------------------

  /** Target files, recorded names and completed exports. */
  datatype World = World(targets: map<Path, Node>, done: seq<string>, log: seq<string>)

  /** The export of file `i`, rather than a skip, is started from `w`. */
  predicate Attempts(j: Job, w: World, i: nat)
    requires i < |j.files|
  {
    && j.files[i].name !in w.done
    && j.TargetOf(i).Some?
    && (j.overwrite || j.TargetOf(i).value !in w.targets)
  }

  /** A directory stands where file `i` belongs. */
  predicate InTheWay(j: Job, targets: map<Path, Node>, i: nat)
    requires i < |j.files|
  {
    j.TargetOf(i).Some? && j.TargetOf(i).value in targets && targets[j.TargetOf(i).value].Directory?
  }

  /** The export of file `i` can succeed: its target is below the root, and what stands
      there can be removed. The store refuses a target that is not absolute, and no
      other targets leave the root. */
  predicate Exports(j: Job, w: World, i: nat)
    requires i < |j.files|
  {
    Attempts(j, w, i) && j.Stays(i) && !InTheWay(j, w.targets, i)
  }

  /** The receive ends at file `i`, which cannot be exported. */
  predicate Blocked(j: Job, w: World, i: nat)
    requires i < |j.files|
  {
    Attempts(j, w, i) && !Exports(j, w, i)
  }

  function Ideal(j: Job, w0: World, n: nat): World
    requires j.Valid() && n <= |j.files|
  {
    if n == 0 then w0
    else
      var w := Ideal(j, w0, n - 1);
      if Exports(j, w, n - 1) then Place(j, w, n - 1) else w
  }

  /** File `i` exported and recorded. */
  function Place(j: Job, w: World, i: nat): World
    requires j.Valid() && i < |j.files| && j.TargetOf(i).Some?
  {
    World(w.targets[j.TargetOf(i).value := File(j.Content(i))],
          w.done + [j.files[i].name],
          w.log + [j.files[i].name])
  }

  // ----- runs cut short --------------------------------------------------------

  /** What an interrupted run leaves of the one file it was working on: nothing,
      a complete export the record does not know, or whatever the removal and the
      interrupted copy left at the target. */
  datatype Residue = Clean | Unrecorded | Torn(node: Option<Node>)

  /** `cut` files were dealt with; `answered[i]` says that the size lookup of file
      `i` succeeded, for those that were skipped. */
  datatype RunInfo = RunInfo(cut: nat, residue: Residue, answered: seq<bool>)

  /** The targets once work on file `i` stopped with `residue`. */
  predicate ResidueAt(j: Job, w: World, i: nat, residue: Residue, targets: map<Path, Node>)
    requires j.Valid() && i < |j.files|
  {
    if residue.Clean? then targets == w.targets
    else
      && Attempts(j, w, i) && !InTheWay(j, w.targets, i)
      && (j.Stays(i) || residue == Torn(None))
      && (residue.Torn? && residue.node.Some? ==> residue.node.value.File?)
      && var t := j.TargetOf(i).value;
      match residue
      case Unrecorded => targets == w.targets[t := File(j.Content(i))]
      case Torn(node) => targets == if node.None? then w.targets - {t} else w.targets[t := node.value]
  }

  /** The first `n` names were acceptable, or had been recorded. */
  predicate Accepted(j: Job, done: seq<string>, n: nat)
    requires n <= |j.files|
  {
    forall i :: 0 <= i < n ==> j.files[i].name in done || j.TargetOf(i).Some?
  }

  /** None of the first `n` exports was refused. */
  predicate Unblocked(j: Job, w0: World, n: nat)
    requires j.Valid() && n <= |j.files|
  {
    forall i :: 0 <= i < n ==> !Blocked(j, Ideal(j, w0, i), i)
  }

  predicate CutRun(j: Job, w0: World, info: RunInfo, post: World)
    requires j.Valid()
  {
    && info.cut <= |j.files|
    && Accepted(j, post.done, info.cut)
    && Unblocked(j, w0, info.cut)
    && var w := Ideal(j, w0, info.cut);
    if info.residue.Clean? then post == w
    else
      && info.cut < |j.files|
      && ResidueAt(j, w, info.cut, info.residue, post.targets)
      && post.done == w.done
      && post.log == if info.residue.Unrecorded? then w.log + [j.files[info.cut].name] else w.log
  }

  // ----- accounting ------------------------------------------------------------

  datatype TransferResult = TransferResult(bytes: nat, files: nat, skippedBytes: nat, skipped: seq<string>)

  function TotalBytes(j: Job, n: nat): nat
    requires j.Valid() && n <= |j.files|
  {
    if n == 0 then 0 else TotalBytes(j, n - 1) + |j.Content(n - 1)|
  }

  function ResultOf(j: Job, w0: World, answered: seq<bool>, n: nat): TransferResult
    requires j.Valid() && n <= |j.files| && n <= |answered|
  {
    if n == 0 then TransferResult(0, 0, 0, [])
    else
      var skip := !Exports(j, Ideal(j, w0, n - 1), n - 1);
      var size := if !skip || answered[n - 1] then |j.Content(n - 1)| else 0;
      Tally(ResultOf(j, w0, answered, n - 1), skip, size, j.files[n - 1].name)
  }

  function Tally(r: TransferResult, skip: bool, size: nat, name: string): TransferResult {
    if skip then r.(skippedBytes := r.skippedBytes + size, skipped := r.skipped + [name])
    else r.(bytes := r.bytes + size, files := r.files + 1)
  }

  lemma ResultStep(j: Job, w0: World, answers: seq<bool>, answered: bool, i: nat)
    requires j.Valid() && i < |j.files| && i == |answers|
    ensures ResultOf(j, w0, answers + [answered], i + 1) ==
      var skip := !Exports(j, Ideal(j, w0, i), i);
      var size := if !skip || answered then |j.Content(i)| else 0;
      Tally(ResultOf(j, w0, answers, i), skip, size, j.files[i].name)
  {
    ResultPrefix(j, w0, answers, answers + [answered], i);
  }

  predicate AllTrue(s: seq<bool>) {
    forall i :: 0 <= i < |s| ==> s[i]
  }

  /** The run dealt with every file. */
  predicate Dealt(j: Job, info: RunInfo) {
    info.cut == |j.files| == |info.answered| && info.residue.Clean?
  }

  /** The run dealt with every file, and this is its result. */
  predicate Finishes(j: Job, w0: World, info: RunInfo, result: TransferResult)
    requires j.Valid()
  {
    && Dealt(j, info)
    && result == ResultOf(j, w0, info.answered, |j.files|)
  }

  /** Later lookups do not change what earlier files were counted as. */
  lemma {:induction false} ResultPrefix(j: Job, w0: World, a: seq<bool>, b: seq<bool>, n: nat)
    requires j.Valid() && n <= |j.files| && n <= |a| && a <= b
    ensures ResultOf(j, w0, a, n) == ResultOf(j, w0, b, n)
  {
    if n == 0 {
    } else {
      ResultPrefix(j, w0, a, b, n - 1);
    }
  }

  // ----- progress --------------------------------------------------------------

  datatype Progress =
    | Connecting
    | Downloading(received: nat, total: nat)
    | Exporting(file: string)
    | Finished(bytes: nat, files: nat)
    | Error

  datatype ReceiveError =
    | TargetDirError
    | LocalState
    | Connect
    | Sizes
    | Download
    | LoadCollection
    | InvalidCollectionName(name: string)
    | RemoveExisting(path: Path)
    | Export(file: string)
    | ExportStreamEnded(file: string)
    | RecordSave

  datatype Outcome = Success(result: TransferResult) | Failure(error: ReceiveError) | Crash

  /** One item of the download stream. */
  datatype GetItem = Offset(offset: nat) | GetDone | GetError

  function Min(a: nat, b: nat): nat {
    if a < b then a else b
  }

  /** The offsets shown for a stretch of the download stream without its end. */
  function Received(items: seq<GetItem>, local: nat, total: nat): seq<nat> {
    if items == [] then []
    else
      var shown := Received(items[..|items| - 1], local, total);
      match items[|items| - 1]
      case Offset(offset) => shown + [Min(local + offset, total)]
      case _ => shown
  }

  function Downloads(items: seq<GetItem>, local: nat, total: nat): seq<Progress> {
    Reports(Received(items, local, total), total)
  }

  function Reports(shown: seq<nat>, total: nat): seq<Progress> {
    if shown == [] then []
    else Reports(shown[..|shown| - 1], total) + [Downloading(shown[|shown| - 1], total)]
  }

  /** The offset shown last, in a run that starts from `before`. */
  function LastShown(items: seq<GetItem>, local: nat, total: nat, before: nat): nat {
    var shown := Received(items, local, total);
    if shown == [] then before else shown[|shown| - 1]
  }

  lemma OffsetShown(got: seq<GetItem>, item: GetItem, local: nat, total: nat)
    requires item.Offset?
    ensures var received := Min(local + item.offset, total);
      && Downloads(got + [item], local, total) == Downloads(got, local, total) + [Downloading(received, total)]
      && forall before :: LastShown(got + [item], local, total, before) == received
  {
    var received := Min(local + item.offset, total);
    assert (got + [item])[..|got|] == got;
    var shown := Received(got, local, total);
    assert (shown + [received])[..|shown|] == shown;
  }

  function Exportings(names: seq<string>): seq<Progress> {
    if names == [] then []
    else Exportings(names[..|names| - 1]) + [Exporting(names[|names| - 1])]
  }

  lemma {:induction false} ExportingsConcat(a: seq<string>, b: seq<string>, before: seq<Progress>, after: seq<Progress>)
    ensures before + Exportings(a) + Exportings(b) + after == before + Exportings(a + b) + after
    ensures after == [] ==> before + Exportings(a + b) + after == before + Exportings(a + b)
  {
    if b == [] {
      assert a + b == a;
    } else {
      assert (a + b)[..|a + b| - 1] == a + b[..|b| - 1];
      ExportingsConcat(a, b[..|b| - 1], before, []);
      assert before + Exportings(a) + Exportings(b) ==
        before + Exportings(a) + Exportings(b[..|b| - 1]) + [] + [Exporting(b[|b| - 1])];
    }
  }

  /** The reports of one run, in the only order they can come: `got` is the part
      of the download stream that was reported, `exporting` the files that were
      announced, `end` the closing report if there is one. */
  datatype Trace = Trace(connected: bool, got: seq<GetItem>, local: nat, total: nat, exporting: seq<string>, end: seq<Progress>)
  {
    function Events(): seq<Progress> {
      (if connected then [Connecting] else []) + Downloads(got, local, total) + Exportings(exporting) + end
    }
  }

  /** How a run that comes to `out` closes its reports. */
  predicate EndOf(end: seq<Progress>, out: Outcome) {
    match out
    case Success(r) => end == [Finished(r.bytes, r.files)]
    case Failure(_) => end == [] || end == [Error]
    case Crash => end == []
  }

  /** The reports of the exports come after those of the download. */
  lemma EventsExtend(tr: Trace, exporting: seq<string>, end: seq<Progress>, before: seq<Progress>)
    requires tr.exporting == [] && tr.end == []
    ensures before + tr.Events() + Exportings(exporting) + end == before + tr.(exporting := exporting, end := end).Events()
  {
    assert tr.(exporting := exporting, end := end).Events() == tr.Events() + Exportings(exporting) + end;
  }

  /** `tr` reports on a run of `j` fed by `items`. */
  predicate TraceOf(tr: Trace, j: Job, items: seq<GetItem>, local: nat)
    requires j.Valid()
  {
    && tr.got <= items
    && (!tr.connected ==> tr.got == [])
    && tr.local == local
    && tr.total == TotalBytes(j, |j.files|)
  }

  /** The offset on the user's screen after the reports `tr`. */
  function ShownBytes(tr: Trace, before: nat): nat {
    LastShown(tr.got, tr.local, tr.total, before)
  }

  /** The byte count on disk is the one shown last. Only a process that dies during
      the download can have saved the next one of the stream without showing it. */
  predicate SavedBytes(tr: Trace, items: seq<GetItem>, before: nat, saved: nat, crashed: bool) {
    || saved == ShownBytes(tr, before)
    || (crashed && tr.connected && tr.exporting == [] && Ahead(tr.got, items, tr.local, tr.total, saved))
  }

  /** `saved` is the offset that comes next in the stream, after those in `got`. */
  predicate Ahead(got: seq<GetItem>, items: seq<GetItem>, local: nat, total: nat, saved: nat) {
    && |got| < |items| && items[|got|].Offset?
    && saved == Min(local + items[|got|].offset, total)
  }

  /** The record on disk after a run that began with `rec0`: the same transfer. It is
      marked done by a success, left as it was by a failure; a process that dies
      can have marked it only once every file was dealt with. */
  predicate SameRun(j: Job, rec0: TransferRecord, rec: TransferRecord, info: RunInfo, out: Outcome) {
    && rec.collectionHash == rec0.collectionHash
    && rec.targetDir == rec0.targetDir
    && Marked(j, rec0.status, rec.status, info, out)
  }

  predicate Marked(j: Job, before: Status, after: Status, info: RunInfo, out: Outcome) {
    match out
    case Success(_) => after == Status.Done
    case Failure(_) => after == before
    case Crash => after == before || (after == Status.Done && Dealt(j, info))
  }

  /** Nothing about the collection and the targets ends a receive. */
  predicate Unobstructed(j: Job, targets: map<Path, Node>, done: seq<string>) {
    forall i :: 0 <= i < |j.files| ==> ClearAt(j, targets, done, i)
  }

  /** File `i` is recorded already; or its name is valid, and it is respected where it
      stands, or can be exported to a place below the root where no directory stands. */
  predicate ClearAt(j: Job, targets: map<Path, Node>, done: seq<string>, i: nat)
    requires i < |j.files|
  {
    || j.files[i].name in done
    || (j.TargetOf(i).Some? &&
        ((!j.overwrite && j.TargetOf(i).value in targets) || (j.Stays(i) && !InTheWay(j, targets, i))))
  }

  lemma PlaceKeepsClear(j: Job, w: World, i: nat)
    requires j.Valid() && i < |j.files| && j.TargetOf(i).Some? && Unobstructed(j, w.targets, w.done)
    ensures Unobstructed(j, Place(j, w, i).targets, Place(j, w, i).done)
  {
    forall k | 0 <= k < |j.files| ensures ClearAt(j, Place(j, w, i).targets, Place(j, w, i).done, k) {
      assert ClearAt(j, w.targets, w.done, k);
    }
  }

  /** Why a run that failed failed. `w` is the state when it came to file `cut`. */
  predicate Blames(j: Job, w: World, cut: nat, residue: Residue, error: ReceiveError)
    requires cut <= |j.files|
  {
    match error
    case InvalidCollectionName(name) =>
      cut < |j.files| && name == j.files[cut].name && name !in w.done && j.TargetOf(cut).None? && residue.Clean?
    case RemoveExisting(path) =>
      && cut < |j.files| && Attempts(j, w, cut) && j.TargetOf(cut) == Some(path) && path in w.targets && residue.Clean?
    case Export(file) => cut < |j.files| && Attempts(j, w, cut) && file == j.files[cut].name && residue.Torn?
    case ExportStreamEnded(file) => cut < |j.files| && Attempts(j, w, cut) && file == j.files[cut].name && residue.Torn?
    case RecordSave => residue.Unrecorded? || (residue.Clean? && (cut == 0 || cut == |j.files|))
    case _ => cut == 0 && residue.Clean?
  }

  predicate Blamed(j: Job, w: World, cut: nat, residue: Residue, out: Outcome)
    requires cut <= |j.files|
  {
    out.Failure? ==> Blames(j, w, cut, residue, out.error)
  }

  predicate StreamCompletes(items: seq<GetItem>) {
    exists k :: 0 <= k < |items| && items[k].GetDone? && forall i :: 0 <= i < k ==> items[i].Offset?
  }

  // ----- one run, from disk to disk ----------------------------------------------

  /** What survives the process: the target files and the record `Load` would find. */
  datatype Disk = Disk(targets: map<Path, Node>, record: Option<TransferRecord>)

  /** `kept`: the record on disk was read; otherwise the run started a new one.
      `saved`: the record was written before anything else happened. `done` is the
      list of exported names the run wrote to disk last, `log` its completed
      exports. */
  datatype Run = Run(
    job: Job,
    pre: Disk,
    kept: bool,
    saved: bool,
    info: RunInfo,
    done: seq<string>,
    log: seq<string>,
    out: Outcome,
    post: Disk)

  function StartList(run: Run): seq<string> {
    if run.kept && run.pre.record.Some? then run.pre.record.value.exported else []
  }

  function StartBytes(run: Run): nat {
    if run.kept && run.pre.record.Some? then run.pre.record.value.bytesReceived else 0
  }

  function StartStatus(run: Run): Status {
    if run.kept && run.pre.record.Some? then run.pre.record.value.status else InProgress
  }

  function StartWorld(run: Run): World {
    World(run.pre.targets, StartList(run), [])
  }

  predicate RunSpec(run: Run) {
    && run.job.Valid()
    && if !run.saved then run.post == run.pre && run.log == [] && run.out in {Crash, Failure(RecordSave)}
       else
         && CutRun(run.job, StartWorld(run), run.info, World(run.post.targets, run.done, run.log))
         && Blamed(run.job, Ideal(run.job, StartWorld(run), run.info.cut), run.info.cut, run.info.residue, run.out)
         && (run.post.record.Some? ==> run.post.record.value.exported == run.done)
         && (run.post.record.None? ==> !run.out.Failure? && Dealt(run.job, run.info))
         && (run.out.Success? ==> Finishes(run.job, StartWorld(run), run.info, run.out.result))
  }

  /** Refusing to resume drops the record, if the removal succeeds. */
  predicate RefuseSpec(before: Disk, after: Disk) {
    after.targets == before.targets && (after == before || after.record.None?)
  }

  // ----- the record files of all transfers ----------------------------------------

  /** What survives the process, with the record files of all collections. There is one
      for each collection, whatever directories it is received into. */
  datatype Store = Store(targets: map<Path, Node>, files: map<Hash, FileContent>)
  {
    /** As a receive of `j` sees it. */
    function View(j: Job): Disk {
      Disk(targets, Loadable(files, j.hash, j.targetDir))
    }

    /** No other directory has a record of this collection. */
    ghost predicate Only(j: Job) {
      forall dir :: dir != j.targetDir ==> Loadable(files, j.hash, dir).None?
    }
  }

  /** The run took the store from `before` to `after`. A record that was written is the
      only one of its collection; nothing else was touched. */
  ghost predicate Receives(run: Run, before: Store, after: Store) {
    && RunSpec(run) && run.pre == before.View(run.job) && run.post == after.View(run.job)
    && after.files - {run.job.hash} == before.files - {run.job.hash}
    && if run.saved then after.Only(run.job) else after.files == before.files
  }

  /** The user was asked whether to resume `j`: the record that was found may be gone. */
  predicate Refuses(j: Job, before: Store, after: Store) {
    && after.targets == before.targets
    && (after.files == before.files || (before.View(j).record.Some? && after.files == before.files - {j.hash}))
  }
}
