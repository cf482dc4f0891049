// The receiving engine (crates/core/src/transfer/receive.rs and receive/core.rs):
// download into the store, export every file, keep the resume record.
module Receive {
  import opened Basics
  import opened Names
  import opened Records
  import opened ReceiveSpec

  datatype Exported = Exported(size: nat) | ExportFailed | ExportEnded | ExportCrashed

  /** What the export loop has done since `trace0` and `exports0`: the size lookups it
      made, the exports it completed and the files it announced. */
  datatype Accounts = Accounts(
    trace0: seq<Progress>,
    exports0: seq<string>,
    answers: seq<bool>,
    log: seq<string>,
    announced: seq<string>)

  /** What came of one item of the download stream. */
  datatype Got = More | All | Broken(out: Outcome)

  /** The failures of a receive that come before its first export. */
  predicate BeforeExports(out: Outcome) {
    out.Failure? ==> out.error in {TargetDirError, Connect, Sizes, ReceiveError.Download, LoadCollection, RecordSave}
  }

  /** The error fits the place where the run was cut. */
  predicate Faults(j: Job, w0: World, info: RunInfo, out: Outcome)
    requires j.Valid()
  {
    info.cut <= |j.files| && Blamed(j, Ideal(j, w0, info.cut), info.cut, info.residue, out)
  }

  /** Files before `i` are dealt with, as in the uninterrupted run from `w0`, and the
      accounts say how. */
  predicate DealtWith(j: Job, w0: World, i: nat, w: World, result: TransferResult,
                      exports: seq<string>, trace: seq<Progress>, acc: Accounts)
    requires j.Valid() && i <= |j.files|
  {
    && w == Ideal(j, w0, i)
    && Accepted(j, w.done, i)
    && Unblocked(j, w0, i)
    && |acc.answers| == i && result == ResultOf(j, w0, acc.answers, i)
    && exports == acc.exports0 + acc.log
    && trace == acc.trace0 + Exportings(acc.announced)
  }

  /** One more turn is accounted for. */
  lemma OneMore(j: Job, w0: World, i: nat, w: World, result0: TransferResult, exports0: seq<string>, trace0: seq<Progress>, acc0: Accounts,
                now: seq<string>, after: World, result: TransferResult, answers: seq<bool>)
    requires j.Valid() && i < |j.files| && DealtWith(j, w0, i, w, result0, exports0, trace0, acc0)
    requires after == Ideal(j, w0, i + 1) && Accepted(j, after.done, i + 1) && !Blocked(j, w, i)
    requires |answers| == i + 1 && result == ResultOf(j, w0, answers, i + 1)
    ensures DealtWith(j, w0, i + 1, after, result, exports0 + now, trace0 + Exportings(now) + [],
                      Accounts(acc0.trace0, acc0.exports0, answers, acc0.log + now, acc0.announced + now))
  {
    ExportingsConcat(acc0.announced, now, acc0.trace0, []);
    assert acc0.exports0 + (acc0.log + now) == acc0.exports0 + acc0.log + now;
  }

  /** The run is cut at file `i`, with what its turn left of it. */
  lemma CutHere(j: Job, w0: World, info: RunInfo, targets: map<Path, Node>, done: seq<string>, log: seq<string>, out: Outcome)
    requires j.Valid() && info.cut < |j.files|
    requires var w := Ideal(j, w0, info.cut);
      && w.done == done && Accepted(j, done, info.cut) && Unblocked(j, w0, info.cut)
      && ResidueAt(j, w, info.cut, info.residue, targets) && Blamed(j, w, info.cut, info.residue, out)
      && log == if info.residue.Unrecorded? then w.log + [j.files[info.cut].name] else w.log
    ensures CutRun(j, w0, info, World(targets, done, log)) && Faults(j, w0, info, out)
  {
    var w := Ideal(j, w0, info.cut);
    if info.residue.Clean? {
      assert World(targets, done, log) == w;
    }
  }

  class Engine {
    const records: RecordStore
    var targets: map<Path, Node>
    var stored: set<Hash>            // blobs complete in the local store
    var trace: seq<Progress>         // reports so far, oldest first
    ghost var exports: seq<string>   // completed exports so far, oldest first

    constructor (records: RecordStore, targets: map<Path, Node>, stored: set<Hash>)
      ensures this.records == records && this.targets == targets && this.stored == stored
      ensures trace == [] && exports == []
    {
      this.records := records;
      this.targets := targets;
      this.stored := stored;
      trace := [];
      exports := [];
    }

    predicate Complete(j: Job)
      reads this
    {
      j.hash in stored && forall i :: 0 <= i < |j.files| ==> j.files[i].hash in stored
    }

    method Report(event: Progress)
      modifies this`trace
      ensures trace == old(trace) + [event]
    {
      trace := trace + [event];
    }

    /** Size of a stored blob for the accounting of a skipped file; a failed
        lookup, or a blob that is not complete, counts 0. */
    method SkippedBlobSize(j: Job, i: nat) returns (size: nat, ghost answered: bool)
      requires j.Valid() && i < |j.files|
      ensures size == 0 || (size == |j.Content(i)| && j.files[i].hash in stored)
      ensures size == if answered then |j.Content(i)| else 0
      ensures records.reliable && j.files[i].hash in stored ==> answered
    {
      var io := Attempt(records.reliable);
      if io.Performed? && j.files[i].hash in stored {
        size, answered := |j.blobs[j.files[i].hash]|, true;
      } else {
        size, answered := 0, false;
      }
    }

    /** The library's export stream, taken as one effect: it refuses a target that is
        not absolute; otherwise it copies a complete blob, or fails and may leave a part
        of the copy at the target. */
    method Export(j: Job, i: nat, target: Path) returns (r: Exported)
      requires j.Valid() && i < |j.files| && target !in targets
      modifies this`targets, this`exports
      ensures r.Exported? ==> r.size == |j.Content(i)| && targets == old(targets)[target := File(j.Content(i))]
      ensures r.Exported? ==> exports == old(exports) + [j.files[i].name]
      ensures !r.Exported? ==> exports == old(exports)
      ensures !r.Exported? ==> targets == old(targets) || exists torn :: targets == old(targets)[target := File(torn)]
      ensures r.Exported? || targets != old(targets) ==> Absolute(j.windows, target)
      ensures records.reliable && j.files[i].hash in stored && Absolute(j.windows, target) ==> r.Exported?
    {
      var io := Attempt(records.reliable);
      if !Absolute(j.windows, target) {
        return if io.Crashed? then ExportCrashed else ExportFailed;
      }
      if io.Performed? && j.files[i].hash in stored {
        targets := targets[target := File(j.blobs[j.files[i].hash])];
        exports := exports + [j.files[i].name];
        return Exported(|j.blobs[j.files[i].hash]|);
      }
      if * {
        var torn: Bytes := *;
        targets := targets[target := File(torn)];
      }
      r := if io.Crashed? then ExportCrashed else if io.Failed? then ExportFailed else ExportEnded;
    }

    /** The record file of this transfer holds `rec`, all others are as in `others`. */
    ghost predicate Keeps(others: map<Hash, FileContent>, rec: TransferRecord)
      reads records
    {
      records.files == others[rec.collectionHash := Json(rec)]
    }

    /** Save the record; `None` means go on. */
    method SaveRecord(rec: TransferRecord, ghost rec0: TransferRecord, ghost others: map<Hash, FileContent>)
      returns (stop: Option<Outcome>)
      requires Keeps(others, rec0) && rec.collectionHash == rec0.collectionHash
      modifies records
      ensures stop.None? ==> Keeps(others, rec)
      ensures stop.Some? ==> stop.value in {Crash, Failure(RecordSave)} && Keeps(others, rec0)
      ensures records.reliable ==> stop.None?
    {
      var io := records.Save(rec);
      match io
      case Performed => stop := None;
      case Failed => stop := Some(Failure(RecordSave));
      case Crashed => stop := Some(Crash);
    }

    /** Ask the peer for the connection and the sizes of the blobs. */
    method Dial() returns (stop: Option<Outcome>)
      modifies this`trace
      ensures stop.None? ==> trace == old(trace) + [Connecting]
      ensures stop.Some? ==> stop.value in {Crash, Failure(Connect), Failure(Sizes)}
      ensures stop.Some? ==> trace == old(trace) + [Connecting] + if stop.value.Crash? then [] else [Progress.Error]
      ensures records.reliable ==> stop.None?
    {
      Report(Connecting);
      var io := Attempt(records.reliable);
      var step := Connect;
      if io.Performed? {
        io := Attempt(records.reliable);
        step := Sizes;
      }
      match io
      case Performed => stop := None;
      case Failed => Report(Progress.Error); stop := Some(Failure(step));
      case Crashed => stop := Some(Crash);
    }

    /** Take in one offset: the record is made durable before the report. `rec` is what
        is on disk; if the process dies it can be ahead of the report. */
    method Advance(offset: nat, local: nat, total: nat, rec0: TransferRecord, ghost others: map<Hash, FileContent>)
      returns (stop: Option<Outcome>, rec: TransferRecord)
      requires Keeps(others, rec0)
      modifies this`stored, this`trace, records
      ensures old(stored) <= stored
      ensures Keeps(others, rec)
      ensures rec == rec0 || rec == rec0.(bytesReceived := Min(local + offset, total))
      ensures stop.None? ==> rec.bytesReceived == Min(local + offset, total)
      ensures stop == Some(Failure(RecordSave)) ==> rec == rec0
      ensures stop.None? ==> trace == old(trace) + [Downloading(rec.bytesReceived, total)]
      ensures stop.Some? ==> stop.value in {Crash, Failure(RecordSave)}
      ensures stop.Some? ==> trace == old(trace)
      ensures records.reliable ==> stop.None?
    {
      var arrived: set<Hash> := *;
      stored := stored + arrived;
      var received := Min(local + offset, total);
      rec, stop := rec0, None;
      if rec0.bytesReceived != received {
        var next := rec0.(bytesReceived := received);
        stop := SaveRecord(next, rec0, others);
        if stop.Some? { return; }
        rec := next;
      }
      var dead := Dies(records.reliable);      // saved, not yet reported
      if dead {
        return Some(Crash), rec;
      }
      Report(Downloading(received, total));
    }

    /** Take in one item of the download stream. */
    method TakeItem(j: Job, item: GetItem, local: nat, total: nat, rec0: TransferRecord, ghost others: map<Hash, FileContent>)
      returns (got: Got, rec: TransferRecord, ghost end: seq<Progress>)
      requires Keeps(others, rec0)
      modifies this`stored, this`trace, records
      ensures Keeps(others, rec) && SameButBytes(rec0, rec)
      ensures old(stored) <= stored
      ensures got.More? ==> item.Offset? && rec.bytesReceived == Min(local + item.offset, total)
      ensures got.More? ==> trace == old(trace) + [Downloading(rec.bytesReceived, total)]
      ensures got.All? ==> item.GetDone? && Complete(j)
      ensures !got.More? ==> trace == old(trace) + end
      ensures end == if got.Broken? && got.out == Failure(ReceiveError.Download) then [Progress.Error] else []
      ensures got.Broken? ==> got.out in {Crash, Failure(ReceiveError.Download), Failure(RecordSave)}
      ensures !got.More? ==>
        || rec == rec0
        || (got.Broken? && got.out.Crash? && item.Offset? && rec.bytesReceived == Min(local + item.offset, total))
      ensures records.reliable ==> got.Broken? == item.GetError? && got.All? == item.GetDone?
    {
      rec, end := rec0, [];
      var dead := Dies(records.reliable);      // waiting, or before an error is reported
      if dead {
        return Broken(Crash), rec, end;
      }
      match item {
        case Offset(offset) =>
          var stop;
          stop, rec := Advance(offset, local, total, rec0, others);
          got := if stop.None? then More else Broken(stop.value);
        case GetDone =>
          stored := stored + {j.hash} + set i | 0 <= i < |j.files| :: j.files[i].hash;
          got := All;
        case GetError =>
          Report(Progress.Error);
          got, end := Broken(Failure(ReceiveError.Download)), [Progress.Error];
      }
    }

    /** Fetch what the store misses. The record on disk holds the offset reported last;
        if the process died, it may hold the next one. */
    method Download(j: Job, items: seq<GetItem>, local: nat, rec0: TransferRecord, ghost others: map<Hash, FileContent>)
      returns (stop: Option<Outcome>, rec: TransferRecord, ghost got: seq<GetItem>, ghost end: seq<Progress>)
      requires j.Valid() && Keeps(others, rec0)
      modifies this`stored, this`trace, records
      ensures Keeps(others, rec) && SameButBytes(rec0, rec)
      ensures old(stored) <= stored
      ensures got <= items
      ensures trace == old(trace) + Downloads(got, local, TotalBytes(j, |j.files|)) + end
      ensures rec.bytesReceived == LastShown(got, local, TotalBytes(j, |j.files|), rec0.bytesReceived) ||
              (stop == Some(Crash) && Ahead(got, items, local, TotalBytes(j, |j.files|), rec.bytesReceived))
      ensures stop.None? ==> end == []
      ensures stop.Some? ==> stop.value in {Crash, Failure(ReceiveError.Download), Failure(RecordSave)}
      ensures stop.Some? ==> end == if stop.value == Failure(ReceiveError.Download) then [Progress.Error] else []
      ensures records.reliable && StreamCompletes(items) ==> stop.None? && Complete(j)
    {
      rec, got, end := rec0, [], [];
      var total := TotalBytes(j, |j.files|);
      for k := 0 to |items|
        invariant Keeps(others, rec) && SameButBytes(rec0, rec)
        invariant old(stored) <= stored
        invariant got == items[..k] && end == []
        invariant trace == old(trace) + Downloads(got, local, total)
        invariant rec.bytesReceived == LastShown(got, local, total, rec0.bytesReceived)
        invariant forall i :: 0 <= i < k ==> items[i].Offset?
      {
        var taken;
        taken, rec, end := TakeItem(j, items[k], local, total, rec, others);
        if taken.All? {
          return None, rec, got, end;
        }
        if taken.Broken? {
          return Some(taken.out), rec, got, end;
        }
        OffsetShown(got, items[k], local, total);
        assert items[..k + 1] == got + [items[k]];
        got := got + [items[k]];
      }
      stop := None;
    }

    /** Announce, export and record one file whose target is free. */
    method ExportNew(j: Job, i: nat, target: Path, rec0: TransferRecord, ghost others: map<Hash, FileContent>)
      returns (stop: Option<Outcome>, rec: TransferRecord, size: nat, ghost residue: Residue, ghost end: seq<Progress>)
      requires j.Valid() && i < |j.files| && target !in targets
      requires Keeps(others, rec0)
      modifies this`targets, this`exports, this`trace, records
      ensures trace == old(trace) + [Exporting(j.files[i].name)] + end
      ensures exports == if residue.Torn? then old(exports) else old(exports) + [j.files[i].name]
      ensures stop.None? ==> residue.Clean? && end == []
      ensures Keeps(others, if stop.None? then rec else rec0)
      ensures stop.None? ==> rec == rec0.(exported := rec0.exported + [j.files[i].name])
      ensures stop.None? ==> targets == old(targets)[target := File(j.Content(i))] && size == |j.Content(i)|
      ensures stop.Some? ==> residue.Unrecorded? || residue.Torn?
      ensures residue.Torn? && residue.node.Some? ==> residue.node.value.File?
      ensures stop.Some? && stop.value.Failure? ==>
        stop.value.error in if residue.Unrecorded? then {RecordSave}
                            else {ReceiveError.Export(j.files[i].name), ExportStreamEnded(j.files[i].name)}
      ensures residue.Unrecorded? ==> targets == old(targets)[target := File(j.Content(i))]
      ensures residue.Torn? ==>
        targets == if residue.node.None? then old(targets) else old(targets)[target := residue.node.value]
      ensures stop.Some? ==> stop.value.Crash? || stop.value.Failure?
      ensures stop.Some? ==> end == [] || (end == [Progress.Error] && stop.value.Failure?)
      ensures stop.None? || residue != Torn(None) ==> Absolute(j.windows, target)
      ensures records.reliable && j.files[i].hash in stored && Absolute(j.windows, target) ==> stop.None?
    {
      rec, size, residue, end := rec0, 0, Torn(None), [];
      var name := j.files[i].name;
      Report(Exporting(name));
      var r := Export(j, i, target);
      if !r.Exported? && targets != old(targets) {
        residue := Torn(Some(targets[target]));
      }
      match r {
        case ExportCrashed => return Some(Crash), rec, size, residue, end;
        case ExportEnded => return Some(Failure(ExportStreamEnded(name))), rec, size, residue, end;
        case ExportFailed =>
          Report(Progress.Error);
          return Some(Failure(ReceiveError.Export(name))), rec, size, residue, [Progress.Error];
        case Exported(s) => size := s;
      }
      var next := rec.(exported := rec.exported + [name]);
      stop := SaveRecord(next, rec, others);
      if stop.Some? {
        residue := Unrecorded;
      } else {
        rec, residue := next, Clean;
      }
    }

    /** Remove what stands at the target. The process can die after that as well. */
    method MakeRoom(target: Path) returns (stop: Option<Outcome>)
      modifies this`targets
      ensures stop.None? ==> targets == old(targets) - {target}
      ensures stop.Some? ==> stop.value == Crash || (stop.value == Failure(RemoveExisting(target)) && targets == old(targets))
      ensures stop.Some? && stop.value.Failure? ==> target in old(targets)
      ensures target in old(targets) && old(targets)[target].Directory? ==> stop.Some? && targets == old(targets)
      ensures targets == old(targets) || targets == old(targets) - {target}
      ensures records.reliable && (target in old(targets) ==> old(targets)[target].File?) ==> stop.None?
    {
      if target in targets {
        var io := Attempt(records.reliable);
        if io.Crashed? {
          return Some(Crash);
        }
        if io.Failed? || targets[target].Directory? {
          return Some(Failure(RemoveExisting(target)));
        }
        targets := targets - {target};
      }
      var dead := Dies(records.reliable);      // removed, not yet announced
      stop := if dead then Some(Crash) else None;
    }

    /** Export a file that is not to be skipped. */
    method ExportFile(j: Job, i: nat, target: Path, rec0: TransferRecord, ghost w: World, ghost others: map<Hash, FileContent>)
      returns (stop: Option<Outcome>, rec: TransferRecord, size: nat,
               ghost residue: Residue, ghost announced: seq<string>, ghost end: seq<Progress>)
      requires j.Valid() && i < |j.files| && j.TargetOf(i) == Some(target)
      requires Keeps(others, rec0)
      requires w.targets == targets && w.done == rec0.exported && Attempts(j, w, i)
      modifies this`targets, this`exports, this`trace, records
      ensures trace == old(trace) + Exportings(announced) + end
      ensures Keeps(others, if stop.None? then rec else rec0)
      ensures stop.None? ==> residue.Clean? && end == [] && announced == [j.files[i].name]
      ensures stop.None? ==> rec == rec0.(exported := rec0.exported + [j.files[i].name])
      ensures stop.None? ==> j.Stays(i) && targets == w.targets[target := File(j.Content(i))] && size == |j.Content(i)|
      ensures stop.Some? ==> stop.value.Crash? || stop.value.Failure?
      ensures stop.Some? ==> end == [] || (end == [Progress.Error] && stop.value.Failure?)
      ensures stop.Some? ==> ResidueAt(j, w, i, residue, targets) && Blamed(j, w, i, residue, stop.value)
      ensures exports == if stop.None? || residue.Unrecorded? then old(exports) + [j.files[i].name] else old(exports)
      ensures stop.None? ==> Exports(j, w, i)
      ensures records.reliable && j.files[i].hash in stored && ClearAt(j, w.targets, w.done, i) ==> stop.None?
    {
      rec, size, announced, end := rec0, 0, [], [];
      stop := MakeRoom(target);
      if stop.Some? {
        residue := if targets == w.targets then Clean else Torn(None);
        return;
      }
      TargetBelowRoot(j.windows, j.root, j.files[i].name);
      announced := [j.files[i].name];
      stop, rec, size, residue, end := ExportNew(j, i, target, rec, others);
    }

    /** Deal with one file of the collection: skip it, or export it, in the latter
        case removing the file in its way if that is wanted. */
    method HandleFile(j: Job, i: nat, rec0: TransferRecord, ghost w: World, ghost others: map<Hash, FileContent>)
      returns (stop: Option<Outcome>, rec: TransferRecord, skip: bool, size: nat,
               ghost residue: Residue, ghost answered: bool, ghost announced: seq<string>, ghost end: seq<Progress>)
      requires j.Valid() && i < |j.files|
      requires Keeps(others, rec0)
      requires w.targets == targets && w.done == rec0.exported
      modifies this`targets, this`exports, this`trace, records
      ensures trace == old(trace) + Exportings(announced) + end
      ensures Keeps(others, if stop.None? then rec else rec0)
      ensures stop.None? ==> residue.Clean? && end == []
      ensures stop.None? ==> SameButExports(rec0, rec)
      ensures stop.None? ==> !Blocked(j, w, i)
      ensures stop.None? ==> skip == !Exports(j, w, i) && announced == if skip then [] else [j.files[i].name]
      ensures stop.None? ==> World(targets, rec.exported, w.log + announced) == if skip then w else Place(j, w, i)
      ensures stop.None? ==> exports == old(exports) + announced
      ensures stop.None? ==> size == if !skip || answered then |j.Content(i)| else 0
      ensures stop.None? ==> j.files[i].name in rec.exported || j.TargetOf(i).Some?
      ensures stop.Some? ==> stop.value.Crash? || stop.value.Failure?
      ensures stop.Some? ==> end == [] || (end == [Progress.Error] && stop.value.Failure?)
      ensures stop.Some? ==> ResidueAt(j, w, i, residue, targets) && Blamed(j, w, i, residue, stop.value)
      ensures stop.Some? ==> exports == if residue.Unrecorded? then old(exports) + [j.files[i].name] else old(exports)
      ensures records.reliable && j.files[i].hash in stored && ClearAt(j, w.targets, w.done, i) ==> stop.None? && answered
    {
      stop, rec, skip, size, residue, answered, announced, end := None, rec0, false, 0, Clean, true, [], [];
      var dead := Dies(records.reliable);
      if dead {
        stop := Some(Crash);
        return;
      }
      var name := j.files[i].name;
      if name in rec.exported {
        skip := true;
        size, answered := SkippedBlobSize(j, i);
        return;
      }
      var accepted := ExportTarget(j.windows, j.root, name);
      assert accepted == j.TargetOf(i);
      if accepted.None? {
        stop := Some(Failure(InvalidCollectionName(name)));
        return;
      }
      var target := accepted.value;
      if target in targets {
        if !j.overwrite {
          skip := true;
          size, answered := SkippedBlobSize(j, i);
          return;
        }
      }
      stop, rec, size, residue, announced, end := ExportFile(j, i, target, rec, w, others);
    }

    /** Nothing stands in the way of the exports, and every size lookup so far was
        answered. */
    predicate Smooth(j: Job, done: seq<string>, answers: seq<bool>)
      reads this, records
    {
      records.reliable && Complete(j) && Unobstructed(j, targets, done) && AllTrue(answers)
    }

    /** One turn of the export loop: file `i`, the counters, and where that leaves
        the run that began in `w0`. */
    method Turn(j: Job, i: nat, rec0: TransferRecord, result0: TransferResult,
                ghost w0: World, ghost w: World, ghost answers0: seq<bool>, ghost others: map<Hash, FileContent>)
      returns (stop: Option<Outcome>, rec: TransferRecord, result: TransferResult,
               ghost residue: Residue, ghost answers: seq<bool>, ghost announced: seq<string>, ghost end: seq<Progress>)
      requires j.Valid() && i < |j.files| && Keeps(others, rec0)
      requires w == Ideal(j, w0, i) && w == World(targets, rec0.exported, w.log)
      requires |answers0| == i && result0 == ResultOf(j, w0, answers0, i)
      modifies this`targets, this`exports, this`trace, records
      ensures Keeps(others, if stop.None? then rec else rec0)
      ensures trace == old(trace) + Exportings(announced) + end
      ensures stop.None? ==> SameButExports(rec0, rec) && end == []
      ensures stop.None? ==> World(targets, rec.exported, w.log + announced) == Ideal(j, w0, i + 1)
      ensures stop.None? ==> exports == old(exports) + announced
      ensures stop.None? ==> |answers| == i + 1 && result == ResultOf(j, w0, answers, i + 1)
      ensures stop.None? && Accepted(j, rec0.exported, i) ==> Accepted(j, rec.exported, i + 1)
      ensures stop.None? ==> !Blocked(j, w, i)
      ensures stop.Some? ==> stop.value.Crash? || stop.value.Failure?
      ensures stop.Some? ==> end == [] || (end == [Progress.Error] && stop.value.Failure?)
      ensures stop.Some? ==> ResidueAt(j, w, i, residue, targets) && Blamed(j, w, i, residue, stop.value)
      ensures stop.Some? ==> exports == if residue.Unrecorded? then old(exports) + [j.files[i].name] else old(exports)
      ensures old(Smooth(j, rec0.exported, answers0)) ==> stop.None? && Smooth(j, rec.exported, answers)
    {
      var skip, size;
      ghost var answered;
      stop, rec, skip, size, residue, answered, announced, end := HandleFile(j, i, rec0, w, others);
      answers := answers0 + [answered];
      result := Tally(result0, skip, size, j.files[i].name);
      if stop.None? {
        ResultStep(j, w0, answers0, answered, i);
        if !skip && Unobstructed(j, w.targets, w.done) {
          PlaceKeepsClear(j, w, i);
        }
      }
    }

    /** Files before `i` are dealt with. */
    ghost predicate Reached(j: Job, w0: World, i: nat, rec: TransferRecord, result: TransferResult, acc: Accounts)
      requires j.Valid() && i <= |j.files|
      reads this`targets, this`exports, this`trace
    {
      DealtWith(j, w0, i, World(targets, rec.exported, acc.log), result, exports, trace, acc)
    }

    /** One turn with the accounts of all turns so far. */
    method Proceed(j: Job, i: nat, rec0: TransferRecord, result0: TransferResult,
                   ghost w0: World, ghost acc0: Accounts, ghost others: map<Hash, FileContent>)
      returns (stop: Option<Outcome>, rec: TransferRecord, result: TransferResult,
               ghost acc: Accounts, ghost info: RunInfo, ghost end: seq<Progress>)
      requires j.Valid() && i < |j.files| && Keeps(others, rec0)
      requires Reached(j, w0, i, rec0, result0, acc0)
      modifies this`targets, this`exports, this`trace, records
      ensures Keeps(others, rec) && SameButExports(rec0, rec)
      ensures acc.trace0 == acc0.trace0 && acc.exports0 == acc0.exports0
      ensures stop.None? ==> Reached(j, w0, i + 1, rec, result, acc)
      ensures stop.Some? ==> stop.value.Crash? || stop.value.Failure?
      ensures stop.Some? ==> end == [] || (end == [Progress.Error] && stop.value.Failure?)
      ensures stop.Some? ==> CutRun(j, w0, info, World(targets, rec.exported, acc.log)) && Faults(j, w0, info, stop.value)
      ensures stop.Some? ==> exports == acc.exports0 + acc.log
      ensures stop.Some? ==> trace == acc.trace0 + Exportings(acc.announced) + end
      ensures old(Smooth(j, rec0.exported, acc0.answers)) ==> stop.None? && Smooth(j, rec.exported, acc.answers)
    {
      ghost var w, residue, answers, now := Ideal(j, w0, i), Clean, [], [];
      stop, rec, result, residue, answers, now, end := Turn(j, i, rec0, result0, w0, w, acc0.answers, others);
      info := RunInfo(i, residue, answers);
      ghost var log := acc0.log + now;
      if stop.None? {
        OneMore(j, w0, i, w, result0, old(exports), old(trace), acc0, now, World(targets, rec.exported, log), result, answers);
      } else {
        ExportingsConcat(acc0.announced, now, acc0.trace0, end);
        rec := rec0;
        log := if residue.Unrecorded? then acc0.log + [j.files[i].name] else acc0.log;
        CutHere(j, w0, info, targets, rec.exported, log, stop.value);
      }
      acc := Accounts(acc0.trace0, acc0.exports0, answers, log, acc0.announced + now);
    }

    /** The export loop: the uninterrupted run from `w0`, or that run cut at some
        file with at most that one file in between. */
    method ExportAll(j: Job, rec0: TransferRecord, ghost w0: World, ghost others: map<Hash, FileContent>)
      returns (stop: Option<Outcome>, rec: TransferRecord, result: TransferResult,
               ghost info: RunInfo, ghost acc: Accounts, ghost end: seq<Progress>)
      requires j.Valid() && Keeps(others, rec0)
      requires w0 == World(targets, rec0.exported, [])
      modifies this`targets, this`exports, this`trace, records
      ensures Keeps(others, rec) && SameButExports(rec0, rec)
      ensures exports == old(exports) + acc.log
      ensures CutRun(j, w0, info, World(targets, rec.exported, acc.log))
      ensures trace == old(trace) + Exportings(acc.announced) + end
      ensures stop.None? ==> end == [] && Finishes(j, w0, info, result)
      ensures stop.Some? ==> stop.value.Crash? || stop.value.Failure?
      ensures stop.Some? ==> end == [] || (end == [Progress.Error] && stop.value.Failure?)
      ensures stop.Some? ==> Faults(j, w0, info, stop.value)
      ensures stop.None? ==> info.cut == |j.files| && info.residue.Clean?
      ensures old(Smooth(j, rec0.exported, [])) ==> stop.None? && AllTrue(info.answered)
    {
      rec, result, end := rec0, TransferResult(0, 0, 0, []), [];
      acc := Accounts(trace, exports, [], [], []);
      for i := 0 to |j.files|
        invariant Keeps(others, rec) && SameButExports(rec0, rec)
        invariant acc.trace0 == old(trace) && acc.exports0 == old(exports)
        invariant Reached(j, w0, i, rec, result, acc)
        invariant old(Smooth(j, rec0.exported, [])) ==> Smooth(j, rec.exported, acc.answers)
      {
        stop, rec, result, acc, info, end := Proceed(j, i, rec, result, w0, acc, others);
        if stop.Some? {
          return;
        }
      }
      stop, info, end := None, RunInfo(|j.files|, Clean, acc.answers), [];
    }

    /** Connect to the peer and download. */
    method FetchMissing(j: Job, items: seq<GetItem>, local: nat, rec0: TransferRecord, ghost others: map<Hash, FileContent>)
      returns (stop: Option<Outcome>, rec: TransferRecord, ghost tr: Trace)
      requires j.Valid() && Keeps(others, rec0)
      modifies this`stored, this`trace, records
      ensures Keeps(others, rec) && SameButBytes(rec0, rec)
      ensures SavedBytes(tr, items, rec0.bytesReceived, rec.bytesReceived, stop == Some(Crash))
      ensures trace == old(trace) + tr.Events() && tr.exporting == [] && tr.connected
      ensures TraceOf(tr, j, items, local)
      ensures stop.None? ==> tr.end == []
      ensures stop.Some? ==> !stop.value.Success? && EndOf(tr.end, stop.value) && BeforeExports(stop.value)
      ensures records.reliable && StreamCompletes(items) ==> stop.None? && Complete(j)
    {
      rec := rec0;
      tr := Trace(true, [], local, TotalBytes(j, |j.files|), [], []);
      stop := Dial();
      if stop.Some? {
        tr := tr.(end := if stop.value.Crash? then [] else [Progress.Error]);
        return;
      }
      ghost var got, end;
      stop, rec, got, end := Download(j, items, local, rec, others);
      tr := tr.(got := got, end := end);
    }

    /** Everything before the exports: the target directory, the store, the
        download if anything is missing, and the collection itself. */
    method Fetch(j: Job, items: seq<GetItem>, local: nat, rec0: TransferRecord, ghost others: map<Hash, FileContent>)
      returns (stop: Option<Outcome>, rec: TransferRecord, ghost tr: Trace)
      requires j.Valid() && Keeps(others, rec0)
      modifies this`stored, this`trace, records
      ensures Keeps(others, rec) && SameButBytes(rec0, rec)
      ensures SavedBytes(tr, items, rec0.bytesReceived, rec.bytesReceived, stop == Some(Crash))
      ensures stop.None? ==> rec.bytesReceived == ShownBytes(tr, rec0.bytesReceived)
      ensures trace == old(trace) + tr.Events() && tr.exporting == []
      ensures TraceOf(tr, j, items, local)
      ensures stop.None? ==> tr.end == []
      ensures stop.Some? ==> !stop.value.Success? && EndOf(tr.end, stop.value) && BeforeExports(stop.value)
      ensures records.reliable && (old(Complete(j)) || StreamCompletes(items)) ==> stop.None? && Complete(j)
    {
      rec := rec0;
      tr := Trace(false, [], local, TotalBytes(j, |j.files|), [], []);
      var io := Attempt(records.reliable);     // target directory, store state
      if !io.Performed? {
        stop := Some(if io.Crashed? then Crash else Failure(TargetDirError));
        return;
      }
      if !Complete(j) {
        stop, rec, tr := FetchMissing(j, items, local, rec, others);
        if stop.Some? {
          return;
        }
      }
      io := Attempt(records.reliable);         // load the collection
      stop := if io.Crashed? then Some(Crash)
              else if io.Failed? || j.hash !in stored then Some(Failure(LoadCollection))
              else None;
    }

    /** Mark the record done, then report the end. `rec` is what is on disk. */
    method MarkDone(rec0: TransferRecord, result: TransferResult, ghost others: map<Hash, FileContent>)
      returns (stop: Option<Outcome>, rec: TransferRecord, ghost end: seq<Progress>)
      requires Keeps(others, rec0)
      modifies this`trace, records
      ensures Keeps(others, rec)
      ensures rec == rec0 || rec == rec0.(status := Status.Done)
      ensures stop.None? ==> rec.status == Status.Done && end == [Finished(result.bytes, result.files)]
      ensures stop.Some? ==> end == [] && stop.value in {Crash, Failure(RecordSave)}
      ensures stop == Some(Failure(RecordSave)) ==> rec == rec0
      ensures trace == old(trace) + end
      ensures records.reliable ==> stop.None?
    {
      rec, end := rec0, [];
      stop := SaveRecord(rec0.(status := Status.Done), rec0, others);
      if stop.Some? {
        return;
      }
      rec := rec0.(status := Status.Done);
      var dead := Dies(records.reliable);      // marked, not yet reported
      if dead {
        return Some(Crash), rec, end;
      }
      Report(Finished(result.bytes, result.files));
      end := [Finished(result.bytes, result.files)];
    }

    /** Export every file, then mark the record done. */
    method ExportAndMark(j: Job, rec0: TransferRecord, ghost w0: World, ghost others: map<Hash, FileContent>)
      returns (out: Outcome, rec: TransferRecord,
               ghost info: RunInfo, ghost log: seq<string>, ghost announced: seq<string>, ghost end: seq<Progress>)
      requires j.Valid() && Keeps(others, rec0)
      requires w0 == World(targets, rec0.exported, [])
      modifies this`targets, this`exports, this`trace, records
      ensures Keeps(others, rec) && SameRun(j, rec0, rec, info, out) && rec.bytesReceived == rec0.bytesReceived
      ensures exports == old(exports) + log
      ensures CutRun(j, w0, info, World(targets, rec.exported, log)) && Faults(j, w0, info, out)
      ensures trace == old(trace) + Exportings(announced) + end
      ensures EndOf(end, out)
      ensures out.Success? ==> Finishes(j, w0, info, out.result)
      ensures old(Smooth(j, rec0.exported, [])) ==> out.Success? && AllTrue(info.answered)
    {
      var stop, exported, result;
      ghost var acc;
      stop, exported, result, info, acc, end := ExportAll(j, rec0, w0, others);
      log, announced := acc.log, acc.announced;
      rec := exported;
      if stop.None? {
        stop, rec, end := MarkDone(exported, result, others);
      }
      out := if stop.None? then Success(result) else stop.value;
    }

    /** The whole receive with its record: fetch, export, mark the record done. */
    method ReceiveImpl(j: Job, items: seq<GetItem>, local: nat, rec0: TransferRecord, ghost w0: World, ghost others: map<Hash, FileContent>)
      returns (out: Outcome, rec: TransferRecord, ghost info: RunInfo, ghost log: seq<string>, ghost tr: Trace)
      requires j.Valid() && Keeps(others, rec0)
      requires w0 == World(targets, rec0.exported, [])
      modifies this`targets, this`exports, this`stored, this`trace, records
      ensures Keeps(others, rec) && SameRun(j, rec0, rec, info, out)
      ensures SavedBytes(tr, items, rec0.bytesReceived, rec.bytesReceived, out.Crash?)
      ensures exports == old(exports) + log
      ensures CutRun(j, w0, info, World(targets, rec.exported, log)) && Faults(j, w0, info, out)
      ensures trace == old(trace) + tr.Events()
      ensures TraceOf(tr, j, items, local) && EndOf(tr.end, out)
      ensures out.Success? ==> Finishes(j, w0, info, out.result)
      ensures records.reliable && Unobstructed(j, w0.targets, w0.done) && (old(Complete(j)) || StreamCompletes(items)) ==>
        out.Success? && AllTrue(info.answered)
    {
      var stop, mem;
      stop, mem, tr := Fetch(j, items, local, rec0, others);
      if stop.Some? {
        return stop.value, mem, RunInfo(0, Clean, []), [], tr;
      }
      ghost var announced, end;
      out, rec, info, log, announced, end := ExportAndMark(j, mem, w0, others);
      EventsExtend(tr, announced, end, old(trace));
      tr := tr.(exporting := announced, end := end);
    }

    /** Load the record, or start a new one, and make sure it is on disk. */
    method Begin(j: Job) returns (stop: Option<Outcome>, rec: TransferRecord, ghost kept: bool)
      modifies records
      ensures Matches(rec, j.hash, j.targetDir)
      ensures var before := Loadable(old(records.files), j.hash, j.targetDir);
        rec == if kept && before.Some? then before.value else NewRecord(j.hash, j.targetDir)
      ensures stop.None? ==> Keeps(old(records.files), rec)
      ensures stop.Some? ==> records.files == old(records.files) && stop.value in {Crash, Failure(RecordSave)}
      ensures records.reliable ==> stop.None? && kept
    {
      var loaded := records.Load(j.hash, j.targetDir);
      kept := loaded == Loadable(records.files, j.hash, j.targetDir);
      rec := if loaded.Some? then loaded.value else NewRecord(j.hash, j.targetDir);
      var io := records.Save(rec);
      match io
      case Performed => stop := None;
      case Failed => stop := Some(Failure(RecordSave));
      case Crashed => stop := Some(Crash);
    }

    /** After a success, remove the record. A failed removal leaves it behind; a process
        that dies here has not succeeded, whether or not the record is gone. */
    method Discard(j: Job, rec: TransferRecord, out0: Outcome, ghost others: map<Hash, FileContent>)
      returns (out: Outcome, ghost left: Option<TransferRecord>)
      requires Keeps(others, rec) && Matches(rec, j.hash, j.targetDir)
      modifies records`files
      ensures out == out0 || (out0.Success? && out.Crash?)
      ensures !out0.Success? ==> left == Some(rec)
      ensures left == Loadable(records.files, j.hash, j.targetDir) && (left == Some(rec) || left == None)
      ensures records.files - {j.hash} == others - {j.hash}
      ensures Store(targets, records.files).Only(j)
      ensures records.reliable && out0.Success? ==> out == out0 && left.None?
    {
      out, left := out0, Some(rec);
      if !out0.Success? {
        return;
      }
      var io := records.Delete(j.hash);
      left := if io.Performed? then None else Some(rec);
      var dead := Dies(records.reliable);
      if io.Crashed? || dead {
        out := Crash;
      }
    }

    /** A receive once its record `rec0` is on disk. */
    method RunSaved(j: Job, items: seq<GetItem>, local: nat, rec0: TransferRecord,
                    ghost pre: Disk, ghost kept: bool, ghost others: map<Hash, FileContent>)
      returns (out: Outcome, ghost run: Run, ghost tr: Trace)
      requires j.Valid() && Keeps(others, rec0) && Matches(rec0, j.hash, j.targetDir)
      requires pre.targets == targets
      requires rec0 == if kept && pre.record.Some? then pre.record.value else NewRecord(j.hash, j.targetDir)
      modifies this`targets, this`exports, this`stored, this`trace, records
      ensures RunSpec(run) && run.saved && run.job == j && run.out == out && run.pre == pre && run.kept == kept
      ensures run.post == Store(targets, records.files).View(j) && Store(targets, records.files).Only(j)
      ensures exports == old(exports) + run.log
      ensures records.files - {j.hash} == others - {j.hash}
      ensures trace == old(trace) + tr.Events() && TraceOf(tr, j, items, local)
      ensures EndOf(tr.end, out) || (out.Crash? && Dealt(j, run.info) && exists r :: EndOf(tr.end, Success(r)))
      ensures run.post.record.Some? ==>
        && SavedBytes(tr, items, rec0.bytesReceived, run.post.record.value.bytesReceived, out.Crash?)
        && Marked(j, rec0.status, run.post.record.value.status, run.info, out)
      ensures records.reliable && Unobstructed(j, run.pre.targets, StartList(run)) && (old(Complete(j)) || StreamCompletes(items)) ==>
        out.Success? && AllTrue(run.info.answered) && run.post.record.None?
    {
      var final;
      ghost var info, log, left;
      out, final, info, log, tr := ReceiveImpl(j, items, local, rec0, World(targets, rec0.exported, []), others);
      out, left := Discard(j, final, out, others);
      run := Run(j, pre, kept, true, info, final.exported, log, out, Disk(targets, left));
    }

    /** Receive with a persistent record: load or create it, run, and remove it
        after success. A failed removal leaves a stale record behind. */
    method ReceiveResumable(j: Job, items: seq<GetItem>, local: nat)
      returns (out: Outcome, ghost run: Run, ghost tr: Trace)
      requires j.Valid()
      modifies this`targets, this`exports, this`stored, this`trace, records
      ensures run.job == j && run.out == out
      ensures Receives(run, Store(old(targets), old(records.files)), Store(targets, records.files))
      ensures var found := old(records.files);
        j.hash in found && found[j.hash].Json? && found[j.hash].rec.targetDir != j.targetDir ==> StartList(run) == []
      ensures exports == old(exports) + run.log
      ensures trace == old(trace) + tr.Events()
      ensures TraceOf(tr, j, items, local)
      ensures EndOf(tr.end, out) || (out.Crash? && Dealt(j, run.info) && exists r :: EndOf(tr.end, Success(r)))
      ensures run.saved && run.post.record.Some? ==>
        && SavedBytes(tr, items, StartBytes(run), run.post.record.value.bytesReceived, out.Crash?)
        && Marked(j, StartStatus(run), run.post.record.value.status, run.info, out)
      ensures records.reliable && Unobstructed(j, run.pre.targets, StartList(run)) && (old(Complete(j)) || StreamCompletes(items)) ==>
        out.Success? && AllTrue(run.info.answered) && run.post.record.None?
    {
      ghost var pre := Disk(targets, Loadable(records.files, j.hash, j.targetDir));
      ghost var others := records.files;
      var stop, rec;
      ghost var kept;
      stop, rec, kept := Begin(j);
      if stop.Some? {
        out := stop.value;
        run := Run(j, pre, kept, false, RunInfo(0, Clean, []), rec.exported, [], out, pre);
        tr := Trace(false, [], local, TotalBytes(j, |j.files|), [], []);
        return;
      }
      out, run, tr := RunSaved(j, items, local, rec, pre, kept, others);
    }

    /** Ask whether to resume when there is something to resume; anything but a yes
        drops the record, as far as that succeeds. `answer` is what the user typed in
        time, if anything. */
    method CheckResume(j: Job, answer: Option<bool>) returns (resume: bool)
      modifies records`files
      ensures resume ==> answer == Some(true) && records.files == old(records.files)
      ensures resume ==> Loadable(records.files, j.hash, j.targetDir).Some?
      ensures Refuses(j, Store(targets, old(records.files)), Store(targets, records.files))
      ensures records.reliable ==>
                (resume <==> Loadable(old(records.files), j.hash, j.targetDir).Some? && answer == Some(true))
      ensures records.reliable && !resume ==> Loadable(records.files, j.hash, j.targetDir).None?
    {
      var found := records.Load(j.hash, j.targetDir);
      resume := found.Some? && answer == Some(true);
      if found.Some? && !resume {
        var _ := records.Delete(j.hash);
      }
    }
  }
}
