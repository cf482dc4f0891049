// Receives of several collections into several directories, with the one record file
// that each collection has (crates/core/src/transfer/record.rs, `matches` and `path`).
module SharedRecords {
  import opened Basics
  import opened Names
  import opened Records
  import opened ReceiveSpec
  import opened ReceiveHistory
  import Accounting

  datatype Event = Received(run: Run) | Refused(job: Job)

  ghost predicate Leads(before: Store, event: Event, after: Store) {
    match event
    case Received(run) => Receives(run, before, after)
    case Refused(job) => Refuses(job, before, after)
  }

  /** What `event` can mean to the transfer `j`: it is a step of the same transfer, of the
      same collection into another directory, or of another collection none of whose
      targets is one of `j`. */
  predicate Compatible(j: Job, event: Event) {
    match event
    case Received(run) =>
      if run.job.hash != j.hash then forall i :: 0 <= i < |j.files| && j.TargetOf(i).Some? ==> !IsTarget(run.job, j.TargetOf(i).value)
      else run.job.targetDir == j.targetDir ==> run.job == j.(overwrite := run.job.overwrite)
    case Refused(_) => true
  }

  /** `stores` is the store before, between and after the events. */
  ghost predicate Story(j: Job, stores: seq<Store>, events: seq<Event>) {
    && |stores| == |events| + 1
    && forall i :: 0 <= i < |events| ==> Leads(stores[i], events[i], stores[i + 1]) && Compatible(j, events[i])
  }

  /** Files of `j` that another run has not touched are still delivered. */
  lemma DeliveredStays(j: Job, run: Run)
    requires j.Valid() && RunSpec(run) && Compatible(j, Received(run)) && run.job.hash != j.hash
    ensures forall done :: Trustworthy(j, run.pre.targets, done) ==> Trustworthy(j, run.post.targets, done)
  {
    RunRespects(run);
    forall name | Delivered(j, run.pre.targets, name) ensures Delivered(j, run.post.targets, name) {
      var i :| 0 <= i < |j.files| && DeliveredAt(j, run.pre.targets, name, i);
      assert DeliveredAt(j, run.post.targets, name, i);
    }
  }

  lemma EventKeepsSound(j: Job, before: Store, event: Event, after: Store)
    requires j.Valid() && Sound(j, before.View(j)) && Leads(before, event, after) && Compatible(j, event)
    ensures Sound(j, after.View(j))
  {
    match event
    case Received(run) =>
      if run.job.hash != j.hash {
        DeliveredStays(j, run);
        assert j.hash in after.files - {run.job.hash} <==> j.hash in before.files - {run.job.hash};
      } else if run.job.targetDir == j.targetDir {
        SoundAnyPolicy(j, run.job, run.pre);
        RunKeepsSound(run);
        SoundAnyPolicy(j, run.job, run.post);
      } else if run.saved {
        assert after.View(j).record.None?;
      }
    case Refused(job) =>
      if after.files != before.files && job.hash == j.hash {
        assert after.View(j).record.None?;
      } else if after.files != before.files {
        assert after.View(j) == before.View(j);
      }
  }

  /** However receives of a collection into several directories, of other collections
      with other targets, crashes, failures and refusals follow one another: what is
      found as the record for a directory can be trusted there. */
  lemma {:induction false} SharedRecordSound(j: Job, stores: seq<Store>, events: seq<Event>)
    requires j.Valid() && Story(j, stores, events) && Sound(j, stores[0].View(j))
    ensures Sound(j, stores[|events|].View(j))
  {
    if events == [] {
    } else {
      var n := |events| - 1;
      SharedRecordSound(j, stores[..n + 1], events[..n]);
      EventKeepsSound(j, stores[n], events[n], stores[n + 1]);
    }
  }

  /** A receive into one directory, however it ends, leaves no record of the collection
      for another that was not there before; once it has written its own there is none,
      and the next receive into the other directory starts from nothing. */
  lemma OneRecord(run: Run, j: Job, before: Store, after: Store, next: Run, last: Store)
    requires Receives(run, before, after) && j.hash == run.job.hash && j.targetDir != run.job.targetDir
    requires Receives(next, after, last) && next.job == j
    ensures after.View(j).record in {None, before.View(j).record}
    ensures run.saved ==> after.View(j).record.None? && StartList(next) == []
  {
  }

  // ----- two collections with a common target -------------------------------------------

  /** Another collection with a file of the same name. */
  const OTHER := Job("g", "d", [], [Entry("a", "c")], map["c" := [2]], true, false)
  const DELIVERED: map<Path, Node> := map[["a"] := File([1])]
  const REPLACED: map<Path, Node> := map[["a"] := File([2])]

  const OTHER_RUN := Run(OTHER, Disk(DELIVERED, None), true, true, RunInfo(1, Clean, [true]), ["a"], ["a"],
                         Success(TransferResult(1, 1, 0, [])), Disk(REPLACED, None))

  lemma OtherRun()
    ensures RunSpec(OTHER_RUN)
  {
    Accounting.PlainTarget();
    var w0 := StartWorld(OTHER_RUN);
    assert OTHER.TargetOf(0) == Some(["a"]) && OTHER.Stays(0);
    assert Ideal(OTHER, w0, 0) == w0 && Exports(OTHER, w0, 0);
    assert DELIVERED[["a"] := File([2])] == REPLACED;
    assert Ideal(OTHER, w0, 1) == World(REPLACED, ["a"], ["a"]);
    assert ResultOf(OTHER, w0, [true], 0) == TransferResult(0, 0, 0, []);
  }

  /** Its receive does not touch the record files of other collections. */
  lemma OtherReceives(files: map<Hash, FileContent>)
    requires OTHER.hash !in files
    ensures Receives(OTHER_RUN, Store(DELIVERED, files), Store(REPLACED, files))
  {
    OtherRun();
  }

  lemma DeliveredOne(targets: map<Path, Node>)
    ensures Accounting.ONE_FILE.Valid()
    ensures Trustworthy(Accounting.ONE_FILE, targets, ["a"]) <==> ["a"] in targets && targets[["a"]] == File([1])
  {
    var j := Accounting.ONE_FILE;
    Accounting.OneTarget(j);
    assert DeliveredAt(j, targets, "a", 0) <==> ["a"] in targets && targets[["a"]] == File([1]);
    assert Delivered(j, targets, "a") <==> DeliveredAt(j, targets, "a", 0);
    assert "a" in ["a"];
  }

  /** A collection that replaces a file of another leaves the other's record wrong. */
  lemma CommonTarget(rec: TransferRecord, files: map<Hash, FileContent>) returns (j: Job, before: Store, run: Run, after: Store)
    requires rec == NewRecord("h", "d").(exported := ["a"]) && files == map["h" := Json(rec)]
    ensures j.Valid() && Receives(run, before, after) && run.job.hash != j.hash
    ensures Sound(j, before.View(j)) && !Sound(j, after.View(j))
  {
    j, before, run, after := Accounting.ONE_FILE, Store(DELIVERED, files), OTHER_RUN, Store(REPLACED, files);
    OtherReceives(files);
    assert before.View(j).record == Some(rec) == after.View(j).record;
    DeliveredOne(DELIVERED);
    DeliveredOne(REPLACED);
  }
}
