// How a receive's totals and progress reports add up, and what the sender makes
// of them (crates/cli/src/send/transfer.rs, `result_matches`).
module Accounting {
  import opened Basics
  import opened Names
  import opened Records
  import opened ReceiveSpec
  import opened Control
  import History = ReceiveHistory

  const U32_LIMIT := 0x1_0000_0000

  /** File `i` was skipped and its size lookup failed. */
  predicate Unaccounted(j: Job, w0: World, answered: seq<bool>, i: nat)
    requires j.Valid() && i < |j.files| && i < |answered|
  {
    !Exports(j, Ideal(j, w0, i), i) && !answered[i]
  }

  function LostBytes(j: Job, w0: World, answered: seq<bool>, n: nat): nat
    requires j.Valid() && n <= |j.files| && n <= |answered|
  {
    if n == 0 then 0
    else LostBytes(j, w0, answered, n - 1) + if Unaccounted(j, w0, answered, n - 1) then |j.Content(n - 1)| else 0
  }

  /** Every byte of the collection is exported, skipped, or lost to a failed
      lookup; every file is exported or skipped. */
  lemma {:induction false} Conservation(j: Job, w0: World, answered: seq<bool>, n: nat)
    requires j.Valid() && n <= |j.files| && n <= |answered|
    ensures var r := ResultOf(j, w0, answered, n);
      && r.bytes + r.skippedBytes + LostBytes(j, w0, answered, n) == TotalBytes(j, n)
      && r.files + |r.skipped| == n
  {
    if n == 0 {
    } else {
      Conservation(j, w0, answered, n - 1);
    }
  }

  lemma {:induction false} NothingLost(j: Job, w0: World, answered: seq<bool>, n: nat)
    requires j.Valid() && n <= |j.files| && n <= |answered|
    ensures LostBytes(j, w0, answered, n) == 0 <==>
            forall i :: 0 <= i < n && Unaccounted(j, w0, answered, i) ==> j.Content(i) == []
  {
    if n == 0 {
    } else {
      NothingLost(j, w0, answered, n - 1);
    }
  }

  lemma FitsU32(n: nat)
    requires n < U32_LIMIT
    ensures n % U32_LIMIT == n
  {
  }

  /** The sender accepts the result of a successful receive exactly if no size
      lookup failed for a skipped file that has content. The code counts such a
      file as 0 bytes, in the belief that no receive can fail over its totals; the
      sender then reports a mismatch. */
  lemma SuccessReconciles(run: Run)
    requires RunSpec(run) && run.out.Success? && |run.job.files| < U32_LIMIT
    ensures var r := run.out.result;
      ResultMatches(r.bytes, r.files % U32_LIMIT, r.skippedBytes, |r.skipped| % U32_LIMIT,
                    TotalBytes(run.job, |run.job.files|), |run.job.files| % U32_LIMIT)
      <==>
      forall i :: 0 <= i < |run.job.files| && Unaccounted(run.job, StartWorld(run), run.info.answered, i) ==>
        run.job.Content(i) == []
  {
    var n, r := |run.job.files|, run.out.result;
    Conservation(run.job, StartWorld(run), run.info.answered, n);
    NothingLost(run.job, StartWorld(run), run.info.answered, n);
    FitsU32(r.files);
    FitsU32(|r.skipped|);
    FitsU32(n);
    assert ResultMatches(r.bytes, r.files, r.skippedBytes, |r.skipped|, TotalBytes(run.job, n), n) <==>
           LostBytes(run.job, StartWorld(run), run.info.answered, n) == 0;
  }

  /** In a collection without repeated names it is known before the receive which files
      it will skip: those that are not wanted. */
  lemma UnaccountedBefore(j: Job, w0: World, answered: seq<bool>, i: nat)
    requires j.Valid() && History.Distinct(j) && i < |j.files| && i < |answered|
    ensures Unaccounted(j, w0, answered, i) <==> !History.Wanted(j, w0, i) && !answered[i]
  {
    ExportedIfWanted(j, w0, i);
  }

  /** So the sender accepts exactly if every unwanted file with content gets its size
      looked up. */
  lemma SuccessReconcilesBefore(run: Run)
    requires RunSpec(run) && run.out.Success? && |run.job.files| < U32_LIMIT && History.Distinct(run.job)
    ensures var r := run.out.result;
      ResultMatches(r.bytes, r.files % U32_LIMIT, r.skippedBytes, |r.skipped| % U32_LIMIT,
                    TotalBytes(run.job, |run.job.files|), |run.job.files| % U32_LIMIT)
      <==>
      forall i :: 0 <= i < |run.job.files| && !History.Wanted(run.job, StartWorld(run), i) && !run.info.answered[i] ==>
        run.job.Content(i) == []
  {
    SuccessReconciles(run);
    forall i: nat | i < |run.job.files|
      ensures Unaccounted(run.job, StartWorld(run), run.info.answered, i) <==>
              !History.Wanted(run.job, StartWorld(run), i) && !run.info.answered[i]
    {
      UnaccountedBefore(run.job, StartWorld(run), run.info.answered, i);
    }
  }

  /** With every size lookup answered nothing is lost. */
  lemma AllAnswered(run: Run)
    requires RunSpec(run) && run.out.Success? && AllTrue(run.info.answered)
    ensures var r := run.out.result;
      && r.bytes + r.skippedBytes == TotalBytes(run.job, |run.job.files|)
      && r.files + |r.skipped| == |run.job.files|
  {
    Conservation(run.job, StartWorld(run), run.info.answered, |run.job.files|);
    NothingLost(run.job, StartWorld(run), run.info.answered, |run.job.files|);
  }

  /** The bytes of the wanted files among the first `n`. */
  function WantedBytes(j: Job, w0: World, n: nat): nat
    requires j.Valid() && n <= |j.files|
  {
    if n == 0 then 0 else WantedBytes(j, w0, n - 1) + if History.Wanted(j, w0, n - 1) then |j.Content(n - 1)| else 0
  }

  /** The names of the others, in collection order. */
  function UnwantedNames(j: Job, w0: World, n: nat): (names: seq<string>)
    requires n <= |j.files|
  {
    if n == 0 then []
    else if History.Wanted(j, w0, n - 1) then UnwantedNames(j, w0, n - 1)
    else UnwantedNames(j, w0, n - 1) + [j.files[n - 1].name]
  }

  lemma {:induction false} TotalsOf(j: Job, w0: World, answered: seq<bool>, n: nat)
    requires j.Valid() && History.Distinct(j) && n <= |j.files| && n <= |answered|
    ensures var r := ResultOf(j, w0, answered, n);
      && r.bytes == WantedBytes(j, w0, n)
      && r.skipped == UnwantedNames(j, w0, n)
      && r.files + |w0.log| == |Ideal(j, w0, n).log|
  {
    if n == 0 {
    } else {
      TotalsOf(j, w0, answered, n - 1);
      ExportedIfWanted(j, w0, n - 1);
    }
  }

  /** In a collection without repeated names, what is exported is what is wanted. */
  lemma ExportedIfWanted(j: Job, w0: World, i: nat)
    requires j.Valid() && History.Distinct(j) && i < |j.files|
    ensures Exports(j, Ideal(j, w0, i), i) <==> History.Wanted(j, w0, i)
  {
    History.IdealAt(j, w0, i, i);
  }

  lemma {:induction false} UnwantedMembers(j: Job, w0: World, n: nat, i: nat)
    requires j.Valid() && History.Distinct(j) && n <= |j.files| && i < |j.files|
    ensures j.files[i].name in UnwantedNames(j, w0, n) <==> i < n && !History.Wanted(j, w0, i)
  {
    if n == 0 {
    } else {
      UnwantedMembers(j, w0, n - 1, i);
    }
  }

  /** What a success reports: the bytes of the files that were wanted, the number of
      exports, and the names of the others, in collection order. */
  lemma SuccessTotals(run: Run, i: nat)
    requires RunSpec(run) && run.out.Success? && History.Distinct(run.job) && i < |run.job.files|
    ensures var r := run.out.result;
      && r.bytes == WantedBytes(run.job, StartWorld(run), |run.job.files|)
      && r.files == |run.log|
      && r.skipped == UnwantedNames(run.job, StartWorld(run), |run.job.files|)
      && (run.job.files[i].name in r.skipped <==> !History.Wanted(run.job, StartWorld(run), i))
  {
    TotalsOf(run.job, StartWorld(run), run.info.answered, |run.job.files|);
    UnwantedMembers(run.job, StartWorld(run), |run.job.files|, i);
  }

  // ----- a record that outlives its receive ------------------------------------------

  lemma {:induction false} NothingExported(j: Job, w0: World, n: nat)
    requires j.Valid() && History.Distinct(j) && n <= |j.files|
    requires forall i :: 0 <= i < n ==> !History.Wanted(j, w0, i)
    ensures Ideal(j, w0, n) == w0
  {
    if n == 0 {
    } else {
      NothingExported(j, w0, n - 1);
      assert !History.Wanted(j, w0, n - 1);
    }
  }

  lemma NothingWanted(j: Job, w0: World)
    requires j.Valid() && History.Distinct(j) && w0.log == []
    requires NoDup(w0.done) && forall x :: x in w0.done ==> x in History.AllNames(j)
    ensures Ideal(j, w0, |j.files|).log == [] <==> forall i :: 0 <= i < |j.files| ==> !History.Wanted(j, w0, i)
  {
    var n := |j.files|;
    if i: nat :| i < n && History.Wanted(j, w0, i) {
      History.IdealLog(j, w0, n);
      History.IdealAt(j, w0, n, i);
    } else {
      NothingExported(j, w0, n);
    }
  }

  /** A success whose record could not be removed leaves a stale record. The next
      receive that reads it exports nothing exactly if it does not replace files,
      or the first receive had recorded every name (it skipped none on disk). */
  lemma StaleRecord(run: Run, next: Run)
    requires RunSpec(run) && run.out.Success? && run.post.record.Some?
    requires RunSpec(next) && next.out.Success? && next.pre == run.post && next.kept
    requires next.job == run.job.(overwrite := next.job.overwrite)
    requires History.Distinct(run.job) && History.Sound(run.job, run.pre)
    ensures next.log == [] <==>
      !next.job.overwrite || forall i :: 0 <= i < |run.job.files| ==> run.job.files[i].name in run.done
  {
    var j, n := next.job, |run.job.files|;
    History.RunKeepsSound(run);
    History.SoundAnyPolicy(run.job, j, run.post);
    History.TrustworthyNames(j, next.pre.targets, StartList(next));
    NothingWanted(j, StartWorld(next));
    forall i: nat | i < n
      ensures History.Wanted(j, StartWorld(next), i) <==> j.overwrite && run.job.files[i].name !in run.done
    {
      History.SuccessDelivers(run, i);
      if History.Meant(j, StartWorld(next), i) {
        History.SuccessStays(next, i);
      }
      assert History.At(j, next.pre.targets, i) == History.At(run.job, run.post.targets, i);
    }
  }

  // ----- inputs that show the three failures ------------------------------------------

  /** A collection of one file with one byte, and a directory where something else
      stands at its target. */
  const ONE_FILE := Job("h", "d", [], [Entry("a", "b")], map["b" := [1]], false, false)
  const OCCUPIED: map<Path, Node> := map[["a"] := File([])]
  const RECORD := NewRecord("h", "d")

  lemma OneTarget(j: Job)
    requires j == ONE_FILE.(overwrite := j.overwrite)
    ensures j.TargetOf(0) == Some(["a"]) && j.Stays(0)
  {
    PlainTarget();
    assert j.files[0].name == "a" && j.root == [] && !j.windows;
  }

  lemma PlainTarget()
    ensures Target(false, [], "a") == Some(["a"])
  {
    assert PlainComponent("a") && Join(["a"], '/') == "a" && [] + ["a"] == ["a"];
    TargetRoundTrip(false, [], ["a"]);
  }

  lemma SkippedOne(w0: World, answered: bool)
    requires w0.targets == OCCUPIED && w0.done == []
    ensures Ideal(ONE_FILE, w0, 1) == w0
    ensures ResultOf(ONE_FILE, w0, [answered], 1) == TransferResult(0, 0, if answered then 1 else 0, ["a"])
  {
    OneTarget(ONE_FILE);
    assert Ideal(ONE_FILE, w0, 0) == w0 && !Exports(ONE_FILE, w0, 0);
    assert ResultOf(ONE_FILE, w0, [answered], 0) == TransferResult(0, 0, 0, []);
  }

  /** The receive that respects what stands there. */
  function Respecting(start: Option<TransferRecord>, answered: bool, left: Option<TransferRecord>): Run {
    Run(ONE_FILE, Disk(OCCUPIED, start), true, true, RunInfo(1, Clean, [answered]), [], [],
        Success(TransferResult(0, 0, if answered then 1 else 0, ["a"])), Disk(OCCUPIED, left))
  }

  lemma RespectingRun(start: Option<TransferRecord>, answered: bool, left: Option<TransferRecord>)
    requires start.Some? ==> start.value.exported == []
    requires left.Some? ==> left.value.exported == []
    ensures RunSpec(Respecting(start, answered, left))
  {
    OneTarget(ONE_FILE);
    SkippedOne(StartWorld(Respecting(start, answered, left)), answered);
  }

  /** A size lookup that fails for the skipped file makes a successful receive report
      totals that the sender refuses. */
  lemma LookupMismatch() returns (run: Run)
    ensures RunSpec(run) && run.out.Success? && run.pre == Disk(OCCUPIED, None)
    ensures var r := run.out.result;
      !ResultMatches(r.bytes, r.files, r.skippedBytes, |r.skipped|, TotalBytes(run.job, |run.job.files|), |run.job.files|)
  {
    run := Respecting(None, false, None);
    RespectingRun(None, false, None);
    assert TotalBytes(ONE_FILE, 0) == 0;
  }

  /** A receive skips the file and cannot remove its record; the next one reads that
      record, replaces files, and exports the file after all. */
  lemma StaleRecordExports() returns (run: Run, next: Run)
    ensures RunSpec(run) && run.out.Success? && run.post.record.Some?
    ensures RunSpec(next) && next.out.Success? && next.pre == run.post && next.kept
    ensures next.job == run.job.(overwrite := true) && History.Distinct(run.job) && History.Sound(run.job, run.pre)
    ensures next.log != []
  {
    var stale := Some(RECORD.(status := Status.Done));
    run := Respecting(None, true, stale);
    RespectingRun(None, true, stale);
    next := Run(ONE_FILE.(overwrite := true), Disk(OCCUPIED, stale), true, true, RunInfo(1, Clean, [true]), ["a"], ["a"],
                Success(TransferResult(1, 1, 0, [])), Disk(map[["a"] := File([1])], None));
    ReplacingRun(next);
  }

  lemma ReplacingRun(run: Run)
    requires run.job == ONE_FILE.(overwrite := true) && run.pre.targets == OCCUPIED && StartList(run) == []
    requires run.saved && run.info == RunInfo(1, Clean, [true]) && run.done == ["a"] == run.log
    requires run.out == Success(TransferResult(1, 1, 0, [])) && run.post == Disk(map[["a"] := File([1])], None)
    ensures RunSpec(run)
  {
    var j, w0 := run.job, StartWorld(run);
    OneTarget(j);
    assert Ideal(j, w0, 0) == w0 && Exports(j, w0, 0);
    assert OCCUPIED[["a"] := File([1])] == map[["a"] := File([1])];
    assert Ideal(j, w0, 1) == World(map[["a"] := File([1])], ["a"], ["a"]);
    assert ResultOf(j, w0, [true], 0) == TransferResult(0, 0, 0, []);
  }

  lemma TornRun(run: Run)
    requires run == Run(ONE_FILE, Disk(map[], None), true, true, RunInfo(0, Torn(Some(File([]))), []), [], [], Crash,
                        Disk(OCCUPIED, Some(RECORD)))
    ensures RunSpec(run)
  {
    OneTarget(ONE_FILE);
    assert map[][["a"] := File([])] == OCCUPIED;
  }

  /** If the library leaves half a copy at a target when the process dies, the next
      receive without `overwrite` respects it: a history that starts with an empty
      directory ends in success with a wrong file. */
  lemma TornCopySurvives() returns (steps: seq<History.Step>)
    ensures ONE_FILE.Valid() && History.Distinct(ONE_FILE)
    ensures History.History(ONE_FILE, Disk(map[], None), steps)
    ensures |steps| == 2 && steps[1].Receive? && steps[1].run.out.Success?
    ensures !History.Correct(ONE_FILE, History.Last(Disk(map[], None), steps).targets, 0)
  {
    var first := Run(ONE_FILE, Disk(map[], None), true, true, RunInfo(0, Torn(Some(File([]))), []), [], [], Crash,
                     Disk(OCCUPIED, Some(RECORD)));
    TornRun(first);
    RespectingRun(Some(RECORD), true, None);
    OneTarget(ONE_FILE);
    steps := TwoReceives(ONE_FILE, first, Respecting(Some(RECORD), true, None));
  }

  lemma TwoReceives(j: Job, first: Run, second: Run) returns (steps: seq<History.Step>)
    requires RunSpec(first) && RunSpec(second) && first.job == second.job == j && second.pre == first.post
    ensures History.History(j, first.pre, steps) && steps == [History.Receive(first), History.Receive(second)]
    ensures History.Last(first.pre, steps) == second.post
  {
    steps := [History.Receive(first), History.Receive(second)];
    assert steps[..1] == [History.Receive(first)];
    assert steps[..1][..0] == [];
  }

  // ----- progress -------------------------------------------------------------------------

  predicate NonDecreasing(items: seq<GetItem>) {
    forall i, k :: 0 <= i < k < |items| && items[i].Offset? && items[k].Offset? ==> items[i].offset <= items[k].offset
  }

  lemma {:induction false} ReceivedFrom(items: seq<GetItem>, local: nat, total: nat, v: nat)
    requires v in Received(items, local, total)
    ensures exists i :: 0 <= i < |items| && items[i].Offset? && v == Min(local + items[i].offset, total)
  {
    var init := items[..|items| - 1];
    if v in Received(init, local, total) {
      ReceivedFrom(init, local, total, v);
      var i :| 0 <= i < |init| && init[i].Offset? && v == Min(local + init[i].offset, total);
      assert items[i] == init[i];
    } else {
      assert items[|items| - 1].Offset?;
    }
  }

  /** The bytes shown for an offset are those that were local before and the offset, as
      far as the total. */
  lemma {:induction false} ShownExactly(items: seq<GetItem>, local: nat, total: nat)
    requires forall i :: 0 <= i < |items| ==> items[i].Offset?
    ensures |Received(items, local, total)| == |items|
    ensures forall i :: 0 <= i < |items| ==>
      Received(items, local, total)[i] == if local + items[i].offset <= total then local + items[i].offset else total
  {
    if items == [] {
    } else {
      ShownExactly(items[..|items| - 1], local, total);
    }
  }

  predicate NeverBack(shown: seq<nat>) {
    forall i, k :: 0 <= i < k < |shown| ==> shown[i] <= shown[k]
  }

  /** The bytes shown never exceed the total and, if the store's offsets do not go
      back, neither do they. */
  lemma {:induction false} ProgressMonotone(items: seq<GetItem>, local: nat, total: nat)
    ensures forall v :: v in Received(items, local, total) ==> v <= total
    ensures NonDecreasing(items) ==> NeverBack(Received(items, local, total))
  {
    if items == [] {
    } else {
      var init, last := items[..|items| - 1], items[|items| - 1];
      ProgressMonotone(init, local, total);
      if NonDecreasing(items) && last.Offset? {
        var shown := Received(init, local, total);
        forall i | 0 <= i < |shown| ensures shown[i] <= Min(local + last.offset, total) {
          ReceivedFrom(init, local, total, shown[i]);
          var k :| 0 <= k < |init| && init[k].Offset? && shown[i] == Min(local + init[k].offset, total);
          assert items[k] == init[k];
        }
        assert NonDecreasing(init);
      }
    }
  }
}
