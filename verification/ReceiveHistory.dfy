// Theorems about receives that are interrupted, resumed and repeated: what the
// record on disk can be trusted for, what a successful receive delivers, what is
// never touched, how much work is repeated, and how the totals add up.
module ReceiveHistory {
  import opened Basics
  import opened Names
  import opened Records
  import opened ReceiveSpec

  // ----- the record can be trusted ----------------------------------------------

  /** `name` has been exported completely: its target lies below the root and holds the
      blob of an entry of that name (the only one, when names are distinct). */
  predicate Delivered(j: Job, targets: map<Path, Node>, name: string)
    requires j.Valid()
  {
    exists i :: 0 <= i < |j.files| && DeliveredAt(j, targets, name, i)
  }

  predicate DeliveredAt(j: Job, targets: map<Path, Node>, name: string, i: nat)
    requires j.Valid() && i < |j.files|
  {
    && j.files[i].name == name
    && j.TargetOf(i).Some? && j.Stays(i)
    && j.TargetOf(i).value in targets
    && targets[j.TargetOf(i).value] == File(j.Content(i))
  }

  /** Every name in the list was exported, and none is listed twice. */
  predicate Trustworthy(j: Job, targets: map<Path, Node>, done: seq<string>)
    requires j.Valid()
  {
    NoDup(done) && forall name :: name in done ==> Delivered(j, targets, name)
  }

  /** Changing the target of a name that is not listed leaves the list trustworthy. */
  lemma OtherTarget(j: Job, targets: map<Path, Node>, after: map<Path, Node>, done: seq<string>, i: nat)
    requires j.Valid() && i < |j.files| && j.TargetOf(i).Some? && j.files[i].name !in done
    requires after - {j.TargetOf(i).value} == targets - {j.TargetOf(i).value}
    requires Trustworthy(j, targets, done)
    ensures Trustworthy(j, after, done)
  {
    forall name | name in done ensures Delivered(j, after, name) {
      var k :| 0 <= k < |j.files| && DeliveredAt(j, targets, name, k);
      if j.TargetOf(k) == j.TargetOf(i) {
        TargetInjective(j.windows, j.root, name, j.files[i].name);
      }
      var t := j.TargetOf(k).value;
      assert t in targets - {j.TargetOf(i).value};
      assert DeliveredAt(j, after, name, k);
    }
  }

  lemma {:induction false} IdealTrustworthy(j: Job, w0: World, n: nat)
    requires j.Valid() && n <= |j.files| && Trustworthy(j, w0.targets, w0.done)
    ensures Trustworthy(j, Ideal(j, w0, n).targets, Ideal(j, w0, n).done)
  {
    if n == 0 {
    } else {
      var i, w := n - 1, Ideal(j, w0, n - 1);
      IdealTrustworthy(j, w0, i);
      if Exports(j, w, i) {
        var after := Place(j, w, i);
        var t := j.TargetOf(i).value;
        assert after.targets - {t} == w.targets - {t};
        OtherTarget(j, w.targets, after.targets, w.done, i);
        assert DeliveredAt(j, after.targets, j.files[i].name, i);
      }
    }
  }

  /** Wherever a run is cut, and whatever it leaves of the file it was at, the
      names it has recorded are delivered. */
  lemma CutTrustworthy(j: Job, w0: World, info: RunInfo, post: World)
    requires j.Valid() && CutRun(j, w0, info, post) && Trustworthy(j, w0.targets, w0.done)
    ensures Trustworthy(j, post.targets, post.done)
  {
    IdealTrustworthy(j, w0, info.cut);
    if !info.residue.Clean? {
      var w, t := Ideal(j, w0, info.cut), j.TargetOf(info.cut).value;
      assert post.targets - {t} == w.targets - {t};
      OtherTarget(j, w.targets, post.targets, w.done, info.cut);
    }
  }

  function Recorded(d: Disk): seq<string> {
    if d.record.Some? then d.record.value.exported else []
  }

  predicate Sound(j: Job, d: Disk)
    requires j.Valid()
  {
    Trustworthy(j, d.targets, Recorded(d))
  }

  lemma RunKeepsSound(run: Run)
    requires RunSpec(run) && Sound(run.job, run.pre)
    ensures Sound(run.job, run.post)
    ensures run.saved ==> Trustworthy(run.job, run.post.targets, run.done)
  {
    if run.saved {
      CutTrustworthy(run.job, StartWorld(run), run.info, World(run.post.targets, run.done, run.log));
    }
  }

  // ----- histories ----------------------------------------------------------------

  /** What can happen to the disk: a receive, or the user refusing to resume, which
      drops the record if the removal succeeds. */
  datatype Step = Receive(run: Run) | Refuse(before: Disk, after: Disk)
  {
    function Pre(): Disk {
      match this
      case Receive(run) => run.pre
      case Refuse(before, _) => before
    }

    function Post(): Disk {
      match this
      case Receive(run) => run.post
      case Refuse(_, after) => after
    }

    /** A step of the transfer `j`; only the conflict policy may vary. */
    predicate Of(j: Job) {
      match this
      case Receive(run) => RunSpec(run) && run.job == j.(overwrite := run.job.overwrite)
      case Refuse(before, after) => RefuseSpec(before, after)
    }
  }

  function Last(start: Disk, steps: seq<Step>): Disk {
    if steps == [] then start else steps[|steps| - 1].Post()
  }

  /** Each step starts from the disk the one before it left. */
  predicate History(j: Job, start: Disk, steps: seq<Step>) {
    if steps == [] then true
    else
      var n := |steps| - 1;
      && History(j, start, steps[..n])
      && steps[n].Of(j)
      && steps[n].Pre() == Last(start, steps[..n])
  }

  /** Delivered does not depend on the conflict policy. */
  lemma SoundAnyPolicy(j: Job, k: Job, d: Disk)
    requires j.Valid() && k == j.(overwrite := k.overwrite)
    ensures k.Valid() && (Sound(j, d) <==> Sound(k, d))
  {
    forall name ensures Delivered(j, d.targets, name) <==> Delivered(k, d.targets, name) {
      forall i: nat | i < |j.files|
        ensures DeliveredAt(j, d.targets, name, i) <==> DeliveredAt(k, d.targets, name, i)
      {
        assert j.TargetOf(i) == k.TargetOf(i) && j.Content(i) == k.Content(i);
      }
    }
  }

  /** Through any sequence of crashed, failed, resumed, refused and repeated
      receives, every name in the record on disk has been exported completely. */
  lemma {:induction false} RecordAlwaysSound(j: Job, start: Disk, steps: seq<Step>)
    requires j.Valid() && Sound(j, start) && History(j, start, steps)
    ensures Sound(j, Last(start, steps))
  {
    if steps == [] {
    } else {
      var step := steps[|steps| - 1];
      RecordAlwaysSound(j, start, steps[..|steps| - 1]);
      if step.Receive? {
        SoundAnyPolicy(j, step.run.job, step.Pre());
        RunKeepsSound(step.run);
        SoundAnyPolicy(j, step.run.job, step.Post());
      }
    }
  }

  // ----- what a successful receive delivers ----------------------------------------

  /** The node under the target of entry `i`, if there is one. */
  function At(j: Job, targets: map<Path, Node>, i: nat): Option<Node>
    requires i < |j.files|
  {
    if j.TargetOf(i).Some? && j.TargetOf(i).value in targets
    then Some(targets[j.TargetOf(i).value])
    else None
  }

  predicate Distinct(j: Job) {
    forall i, k :: 0 <= i < k < |j.files| ==> j.files[i].name != j.files[k].name
  }

  /** File `i` is to be exported: the record does not list it and nothing the receive
      must respect is in its way. */
  predicate Meant(j: Job, w0: World, i: nat)
    requires i < |j.files|
  {
    j.files[i].name !in w0.done && j.TargetOf(i).Some? && (j.overwrite || At(j, w0.targets, i).None?)
  }

  /** It can be as well: its target lies below the root, and is no directory. */
  predicate Wanted(j: Job, w0: World, i: nat)
    requires i < |j.files|
  {
    Meant(j, w0, i) && j.Stays(i) && At(j, w0.targets, i) != Some(Directory)
  }

  lemma {:induction false} IdealAt(j: Job, w0: World, n: nat, i: nat)
    requires j.Valid() && Distinct(j) && n <= |j.files| && i < |j.files|
    ensures j.files[i].name in Ideal(j, w0, n).done <==> j.files[i].name in w0.done || (i < n && Wanted(j, w0, i))
    ensures At(j, Ideal(j, w0, n).targets, i) ==
            if i < n && Wanted(j, w0, i) then Some(File(j.Content(i))) else At(j, w0.targets, i)
  {
    if n == 0 {
    } else {
      var w, k := Ideal(j, w0, n - 1), n - 1;
      IdealAt(j, w0, k, i);
      IdealAt(j, w0, k, k);
      if Exports(j, w, k) && i != k && j.TargetOf(i) == j.TargetOf(k) {
        TargetInjective(j.windows, j.root, j.files[k].name, j.files[i].name);
      }
    }
  }

  /** The state after a successful receive, entry by entry, and nothing else. */
  lemma SuccessExactly(run: Run, i: nat)
    requires RunSpec(run) && run.out.Success? && Distinct(run.job) && i < |run.job.files|
    ensures At(run.job, run.post.targets, i) ==
            if Wanted(run.job, StartWorld(run), i) then Some(File(run.job.Content(i)))
            else At(run.job, run.pre.targets, i)
  {
    IdealAt(run.job, StartWorld(run), |run.job.files|, i);
  }

  predicate Correct(j: Job, targets: map<Path, Node>, i: nat)
    requires j.Valid() && i < |j.files|
  {
    At(j, targets, i) == Some(File(j.Content(i)))
  }

  lemma TrustworthyMeansCorrect(j: Job, targets: map<Path, Node>, done: seq<string>, i: nat)
    requires j.Valid() && Distinct(j) && i < |j.files|
    requires Trustworthy(j, targets, done) && j.files[i].name in done
    ensures Correct(j, targets, i)
  {
    var k :| 0 <= k < |j.files| && DeliveredAt(j, targets, j.files[i].name, k);
    assert k == i;
  }

  /** Success is impossible with a name that cannot be mapped below the root. */
  lemma SuccessNeedsValidNames(run: Run, i: nat)
    requires RunSpec(run) && run.out.Success? && Sound(run.job, run.pre) && i < |run.job.files|
    ensures run.job.TargetOf(i).Some?
  {
    RunKeepsSound(run);
    var name := run.job.files[i].name;
    if name in run.done {
      var k :| 0 <= k < |run.job.files| && DeliveredAt(run.job, run.post.targets, name, k);
      assert run.job.TargetOf(k) == run.job.TargetOf(i);
    }
  }

  /** Nor with a name that was to be exported and leaves the root, or a directory in the
      place of a file that was to be exported. */
  lemma SuccessStays(run: Run, i: nat)
    requires RunSpec(run) && run.out.Success? && Distinct(run.job) && i < |run.job.files|
    requires Meant(run.job, StartWorld(run), i)
    ensures run.job.Stays(i) && At(run.job, run.pre.targets, i) != Some(Directory)
  {
    IdealAt(run.job, StartWorld(run), i, i);
    assert !Blocked(run.job, Ideal(run.job, StartWorld(run), i), i);
  }

  /** Nothing that ends a receive was there when a receive succeeded. */
  lemma SuccessNeedsClear(run: Run)
    requires RunSpec(run) && run.out.Success? && Distinct(run.job) && Sound(run.job, run.pre)
    ensures Unobstructed(run.job, run.pre.targets, StartList(run))
  {
    forall i: nat | i < |run.job.files| ensures ClearAt(run.job, run.pre.targets, StartList(run), i) {
      SuccessNeedsValidNames(run, i);
      if Meant(run.job, StartWorld(run), i) {
        SuccessStays(run, i);
      }
    }
  }

  /** After success every entry has a target, and the target holds the blob exactly
      if the receive replaces files, or there was nothing to respect, or what was
      there is the blob already. */
  lemma SuccessDelivers(run: Run, i: nat)
    requires RunSpec(run) && run.out.Success? && Distinct(run.job) && i < |run.job.files|
    requires Sound(run.job, run.pre)
    ensures At(run.job, run.post.targets, i).Some?
    ensures Correct(run.job, run.post.targets, i) <==>
            (run.job.overwrite || At(run.job, run.pre.targets, i).None? || Correct(run.job, run.pre.targets, i))
  {
    SuccessExactly(run, i);
    SuccessNeedsValidNames(run, i);
    if Meant(run.job, StartWorld(run), i) {
      SuccessStays(run, i);
    }
    if run.job.files[i].name in StartList(run) {
      TrustworthyMeansCorrect(run.job, run.pre.targets, StartList(run), i);
    }
  }

  // ----- histories in which no copy is torn -------------------------------------------

  /** Whatever stands at a target of the collection is the blob meant for it. */
  predicate AllCorrect(j: Job, targets: map<Path, Node>)
    requires j.Valid()
  {
    forall i :: 0 <= i < |j.files| && At(j, targets, i).Some? ==> Correct(j, targets, i)
  }

  /** The run left no part of a copy behind; a copy that was complete when the run ended
      is none. */
  predicate Untorn(run: Run)
    requires RunSpec(run)
  {
    run.saved && run.info.residue.Torn? && run.info.residue.node.Some? ==>
      run.info.residue.node.value == File(run.job.Content(run.info.cut))
  }

  /** A torn copy is all that can go wrong: a run that starts with nothing but correct
      files leaves nothing but correct files if and only if it tears none. */
  lemma RunKeepsAllCorrect(run: Run)
    requires RunSpec(run) && Distinct(run.job) && AllCorrect(run.job, run.pre.targets)
    ensures AllCorrect(run.job, run.post.targets) <==> Untorn(run)
  {
    var j, w0, cut := run.job, StartWorld(run), run.info.cut;
    if run.saved {
      if Untorn(run) {
        forall i: nat | i < |j.files| && At(j, run.post.targets, i).Some? ensures Correct(j, run.post.targets, i) {
          IdealAt(j, w0, cut, i);
          if !run.info.residue.Clean? && j.Stays(cut) && j.TargetOf(i) == j.TargetOf(cut) {
            TargetInjective(j.windows, j.root, j.files[cut].name, j.files[i].name);
          }
        }
      } else {
        assert At(j, run.post.targets, cut) == run.info.residue.node;
      }
    }
  }

  /** If the targets began empty (or correct) and no copy was ever torn, all is
      correct throughout, whatever the conflict policy of each receive. */
  lemma {:induction false} UntornHistoryCorrect(j: Job, start: Disk, steps: seq<Step>)
    requires j.Valid() && Distinct(j) && History(j, start, steps) && AllCorrect(j, start.targets)
    requires forall step :: step in steps && step.Receive? ==> RunSpec(step.run) && Untorn(step.run)
    ensures AllCorrect(j, Last(start, steps).targets)
  {
    if steps == [] {
    } else {
      var n := |steps| - 1;
      UntornHistoryCorrect(j, start, steps[..n]);
      if steps[n].Receive? {
        var k := steps[n].run.job;
        assert forall i :: 0 <= i < |j.files| ==> At(j, steps[n].Pre().targets, i) == At(k, steps[n].Pre().targets, i);
        assert forall i :: 0 <= i < |j.files| ==> At(j, steps[n].Post().targets, i) == At(k, steps[n].Post().targets, i);
        RunKeepsAllCorrect(steps[n].run);
      }
    }
  }

  // ----- what is never touched ---------------------------------------------------------

  predicate IsTarget(j: Job, p: Path) {
    exists i :: 0 <= i < |j.files| && j.TargetOf(i) == Some(p)
  }

  /** `after` differs from `before` at targets of the collection only; without
      `overwrite` it only adds to `before`. */
  ghost predicate Respects(j: Job, overwrite: bool, before: map<Path, Node>, after: map<Path, Node>) {
    && (forall p :: !IsTarget(j, p) ==> (p in before <==> p in after) && (p in before ==> after[p] == before[p]))
    && (!overwrite ==> forall p :: p in before ==> p in after && after[p] == before[p])
  }

  lemma {:induction false} IdealRespects(j: Job, w0: World, n: nat)
    requires j.Valid() && n <= |j.files|
    ensures Respects(j, j.overwrite, w0.targets, Ideal(j, w0, n).targets)
  {
    if n == 0 {
    } else {
      IdealRespects(j, w0, n - 1);
      assert j.TargetOf(n - 1).Some? ==> IsTarget(j, j.TargetOf(n - 1).value);
    }
  }

  lemma RunRespects(run: Run)
    requires RunSpec(run)
    ensures Respects(run.job, run.job.overwrite, run.pre.targets, run.post.targets)
  {
    if run.saved {
      IdealRespects(run.job, StartWorld(run), run.info.cut);
      if !run.info.residue.Clean? {
        assert IsTarget(run.job, run.job.TargetOf(run.info.cut).value);
      }
    }
  }

  predicate NeverOverwrites(steps: seq<Step>) {
    forall step :: step in steps ==> step.Receive? ==> !step.run.job.overwrite
  }

  /** Whatever happens, files that are not in the collection keep their content;
      without `overwrite` every file that exists does, crashes included. */
  lemma {:induction false} HistoryRespects(j: Job, start: Disk, steps: seq<Step>)
    requires j.Valid() && History(j, start, steps)
    ensures Respects(j, !NeverOverwrites(steps), start.targets, Last(start, steps).targets)
  {
    if steps == [] {
    } else {
      var n := |steps| - 1;
      HistoryRespects(j, start, steps[..n]);
      assert NeverOverwrites(steps) ==> NeverOverwrites(steps[..n]);
      if steps[n].Receive? {
        var k := steps[n].run.job;
        RunRespects(steps[n].run);
        forall p ensures IsTarget(j, p) <==> IsTarget(k, p) {
          assert forall i :: 0 <= i < |j.files| ==> j.TargetOf(i) == k.TargetOf(i);
        }
        assert steps[n] in steps;
      }
    }
  }

  function Directories(targets: map<Path, Node>): set<Path> {
    set p | p in targets && targets[p].Directory?
  }

  lemma {:induction false} IdealDirectories(j: Job, w0: World, n: nat)
    requires j.Valid() && n <= |j.files|
    ensures Directories(Ideal(j, w0, n).targets) == Directories(w0.targets)
  {
    if n == 0 {
    } else {
      IdealDirectories(j, w0, n - 1);
    }
  }

  lemma RunDirectories(run: Run)
    requires RunSpec(run)
    ensures Directories(run.post.targets) == Directories(run.pre.targets)
  {
    if run.saved {
      IdealDirectories(run.job, StartWorld(run), run.info.cut);
    }
  }

  /** No receive, however it ends, removes or replaces a directory, nor makes one of a
      target, with or without `overwrite`. */
  lemma {:induction false} DirectoriesStay(j: Job, start: Disk, steps: seq<Step>)
    requires History(j, start, steps)
    ensures Directories(Last(start, steps).targets) == Directories(start.targets)
  {
    if steps == [] {
    } else {
      DirectoriesStay(j, start, steps[..|steps| - 1]);
      if steps[|steps| - 1].Receive? {
        RunDirectories(steps[|steps| - 1].run);
      }
    }
  }

  // ----- what lies outside the root --------------------------------------------------------

  /** No name of the collection that is accepted leaves the root. */
  predicate AllStay(j: Job) {
    forall i :: 0 <= i < |j.files| && j.TargetOf(i).Some? ==> j.Stays(i)
  }

  /** Outside the root nothing is new or changed. */
  ghost predicate OnlyLoses(j: Job, before: map<Path, Node>, after: map<Path, Node>) {
    forall p :: p in after && !Under(j.windows, j.root, p) ==> p in before && after[p] == before[p]
  }

  /** Nor is anything gone. */
  ghost predicate OutsideKept(j: Job, before: map<Path, Node>, after: map<Path, Node>) {
    OnlyLoses(j, before, after) && forall p :: p in before && !Under(j.windows, j.root, p) ==> p in after
  }

  lemma TargetBelow(j: Job, i: nat)
    requires j.Valid() && i < |j.files| && j.TargetOf(i).Some?
    ensures Under(j.windows, j.root, j.TargetOf(i).value) <==> j.Stays(i)
  {
    TargetBelowRoot(j.windows, j.root, j.files[i].name);
  }

  lemma {:induction false} IdealOutside(j: Job, w0: World, n: nat)
    requires j.Valid() && n <= |j.files|
    ensures OnlyLoses(j, w0.targets, Ideal(j, w0, n).targets)
  {
    if n == 0 {
    } else {
      IdealOutside(j, w0, n - 1);
      if Exports(j, Ideal(j, w0, n - 1), n - 1) {
        TargetBelow(j, n - 1);
      }
    }
  }

  lemma RunOutside(run: Run)
    requires RunSpec(run)
    ensures OnlyLoses(run.job, run.pre.targets, run.post.targets)
  {
    if run.saved {
      IdealOutside(run.job, StartWorld(run), run.info.cut);
      if !run.info.residue.Clean? {
        TargetBelow(run.job, run.info.cut);
      }
    }
  }

  lemma {:induction false} HistoryOutside(j: Job, start: Disk, steps: seq<Step>)
    requires j.Valid() && History(j, start, steps)
    ensures OnlyLoses(j, start.targets, Last(start, steps).targets)
  {
    if steps == [] {
    } else {
      var n := |steps| - 1;
      HistoryOutside(j, start, steps[..n]);
      if steps[n].Receive? {
        RunOutside(steps[n].run);
      }
    }
  }

  /** Whatever the collection is called, no receive ever adds or changes anything outside
      the root; and nothing there is removed either, if no accepted name leaves the
      root, or if no receive replaces files. */
  lemma OutsideUntouched(j: Job, start: Disk, steps: seq<Step>)
    requires j.Valid() && History(j, start, steps)
    ensures OnlyLoses(j, start.targets, Last(start, steps).targets)
    ensures AllStay(j) || NeverOverwrites(steps) ==> OutsideKept(j, start.targets, Last(start, steps).targets)
  {
    HistoryOutside(j, start, steps);
    HistoryRespects(j, start, steps);
    forall p | AllStay(j) && !Under(j.windows, j.root, p) ensures !IsTarget(j, p) {
      if i: nat :| i < |j.files| && j.TargetOf(i) == Some(p) {
        TargetBelow(j, i);
      }
    }
  }

  function NamesBefore(j: Job, n: nat): seq<string>
    requires n <= |j.files|
  {
    seq(n, i requires 0 <= i < n => j.files[i].name)
  }

  /** A run whose record lists all files before some file comes to that file at once. */
  lemma {:induction false} AllRecorded(j: Job, w0: World, n: nat)
    requires j.Valid() && n <= |j.files|
    requires forall m :: 0 <= m < n ==> j.files[m].name in w0.done
    ensures Ideal(j, w0, n) == w0 && Unblocked(j, w0, n)
  {
    if n == 0 {
    } else {
      AllRecorded(j, w0, n - 1);
    }
  }

  lemma {:induction false} FirstNamed(j: Job, i: nat) returns (first: nat)
    requires i < |j.files|
    ensures first <= i && j.files[first].name == j.files[i].name
    ensures forall m :: 0 <= m < first ==> j.files[m].name != j.files[i].name
  {
    if m: nat :| m < i && j.files[m].name == j.files[i].name {
      first := FirstNamed(j, m);
    } else {
      first := i;
    }
  }

  /** An accepted name that leaves the root: a receive that replaces files removes what
      stands at its target, outside the root, before the store refuses the export. */
  lemma DriveRemoves(j: Job, i: nat) returns (start: Disk, steps: seq<Step>)
    requires j.Valid() && i < |j.files| && j.TargetOf(i).Some? && !j.Stays(i)
    ensures History(j, start, steps) && !OutsideKept(j, start.targets, Last(start, steps).targets)
  {
    var k := j.(overwrite := true);
    var first := FirstNamed(j, i);
    var t := j.TargetOf(i).value;
    var rec := NewRecord(j.hash, j.targetDir).(exported := NamesBefore(j, first));
    start := Disk(map[t := File([])], Some(rec));
    var run := Run(k, start, true, true, RunInfo(first, Torn(None), []), rec.exported, [], Crash, Disk(map[], Some(rec)));
    RemovingRun(run, first, t);
    TargetBelow(j, i);
    steps := [Receive(run)];
    assert steps[..0] == [];
  }

  lemma RemovingRun(run: Run, i: nat, t: Path)
    requires run.job.Valid() && run.job.overwrite && i < |run.job.files| && run.job.TargetOf(i) == Some(t)
    requires run.pre.targets == map[t := File([])] && run.kept && run.saved && run.pre.record.Some?
    requires StartList(run) == NamesBefore(run.job, i) == run.done && run.job.files[i].name !in run.done
    requires run.info == RunInfo(i, Torn(None), []) && run.out.Crash? && run.log == []
    requires run.post == Disk(map[], run.pre.record)
    ensures RunSpec(run)
  {
    var j, w0 := run.job, StartWorld(run);
    forall m: nat | m < i ensures j.files[m].name in w0.done {
      assert w0.done[m] == j.files[m].name;
    }
    AllRecorded(j, w0, i);
    assert w0.targets - {t} == map[];
  }

  /** Nothing outside the root is touched in any history, if and only if no accepted name
      leaves the root. */
  lemma OutsideExactly(j: Job)
    requires j.Valid()
    ensures AllStay(j) <==>
            forall start, steps :: History(j, start, steps) ==> OutsideKept(j, start.targets, Last(start, steps).targets)
  {
    forall start, steps | AllStay(j) && History(j, start, steps)
      ensures OutsideKept(j, start.targets, Last(start, steps).targets)
    {
      OutsideUntouched(j, start, steps);
    }
    if i: nat :| i < |j.files| && j.TargetOf(i).Some? && !j.Stays(i) {
      var start, steps := DriveRemoves(j, i);
    }
  }

  // ----- how much work is repeated -------------------------------------------------------

  function AllNames(j: Job): set<string> {
    set i | 0 <= i < |j.files| :: j.files[i].name
  }

  /** Exports extend the record one by one, never twice for one name. */
  lemma {:induction false} IdealLog(j: Job, w0: World, n: nat)
    requires j.Valid() && n <= |j.files| && NoDup(w0.done) && w0.log == []
    requires forall x :: x in w0.done ==> x in AllNames(j)
    ensures var w := Ideal(j, w0, n);
      w.done == w0.done + w.log && NoDup(w.done) && forall x :: x in w.done ==> x in AllNames(j)
  {
    if n == 0 {
    } else {
      IdealLog(j, w0, n - 1);
    }
  }

  lemma TrustworthyNames(j: Job, targets: map<Path, Node>, done: seq<string>)
    requires j.Valid() && Trustworthy(j, targets, done)
    ensures NoDup(done) && forall x :: x in done ==> x in AllNames(j)
    ensures |done| <= |AllNames(j)|
  {
    forall x | x in done ensures x in AllNames(j) {
      var i :| 0 <= i < |j.files| && DeliveredAt(j, targets, x, i);
    }
    NoDupBound(done, AllNames(j));
  }

  /** One run exports what it adds to the record, and at most one file more if it
      is interrupted. */
  lemma RunWork(run: Run)
    requires RunSpec(run) && run.saved && Sound(run.job, run.pre)
    ensures |run.log| <= |run.done| - |StartList(run)| + if run.out.Success? then 0 else 1
    ensures |run.done| <= |AllNames(run.job)|
  {
    TrustworthyNames(run.job, run.pre.targets, StartList(run));
    IdealLog(run.job, StartWorld(run), run.info.cut);
    RunKeepsSound(run);
    TrustworthyNames(run.job, run.post.targets, run.done);
  }

  /** The exports a step completes, and whether it was interrupted. */
  function Exported(step: Step): nat {
    if step.Receive? then |step.run.log| else 0
  }

  function Broken(step: Step): nat {
    if step.Receive? && !step.run.out.Success? then 1 else 0
  }

  function Work(steps: seq<Step>): nat {
    if steps == [] then 0 else Work(steps[..|steps| - 1]) + Exported(steps[|steps| - 1])
  }

  function Interrupted(steps: seq<Step>): nat {
    if steps == [] then 0 else Interrupted(steps[..|steps| - 1]) + Broken(steps[|steps| - 1])
  }

  /** How often a step lost the record it found, or removed the one it had. */
  function Lost(step: Step): nat {
    match step
    case Receive(run) =>
      (if run.saved && !run.kept && run.pre.record.Some? then 1 else 0)
      + (if run.saved && run.post.record.None? then 1 else 0)
    case Refuse(before, after) => if before.record.Some? && after.record.None? then 1 else 0
  }

  function Losses(steps: seq<Step>): nat {
    if steps == [] then 0 else Losses(steps[..|steps| - 1]) + Lost(steps[|steps| - 1])
  }

  /** With n names, c interrupted runs and r lost or removed records, a history
      performs at most n * (r + 1) + c exports; while the record is kept, n + c. */
  lemma WorkBound(j: Job, start: Disk, steps: seq<Step>)
    requires j.Valid() && Sound(j, start) && History(j, start, steps)
    ensures Work(steps) <= |AllNames(j)| * (Losses(steps) + 1) + Interrupted(steps)
  {
    WorkRecorded(j, start, steps);
    RecordAlwaysSound(j, start, steps);
    TrustworthyNames(j, Last(start, steps).targets, Recorded(Last(start, steps)));
    Distribute(|AllNames(j)|, Losses(steps), 1);
  }

  /** Exports that were not needed to fill the record are paid for by losses of the
      record and by interrupted runs. */
  lemma {:induction false} WorkRecorded(j: Job, start: Disk, steps: seq<Step>)
    requires j.Valid() && Sound(j, start) && History(j, start, steps)
    ensures Work(steps) + |Recorded(start)|
            <= |AllNames(j)| * Losses(steps) + Interrupted(steps) + |Recorded(Last(start, steps))|
  {
    if steps == [] {
    } else {
      var n := |steps| - 1;
      WorkRecorded(j, start, steps[..n]);
      RecordAlwaysSound(j, start, steps[..n]);
      StepWork(j, steps[n]);
      Distribute(|AllNames(j)|, Losses(steps[..n]), Lost(steps[n]));
    }
  }

  lemma Distribute(m: nat, a: nat, b: nat)
    ensures m * (a + b) == m * a + m * b
  {
  }

  lemma StepWork(j: Job, step: Step)
    requires j.Valid() && step.Of(j) && Sound(j, step.Pre())
    ensures Exported(step) + |Recorded(step.Pre())|
            <= |AllNames(j)| * Lost(step) + Broken(step) + |Recorded(step.Post())|
  {
    TrustworthyNames(j, step.Pre().targets, Recorded(step.Pre()));
    match step
    case Receive(run) =>
      assert AllNames(run.job) == AllNames(j);
      SoundAnyPolicy(j, run.job, run.pre);
      RunStepWork(run);
    case Refuse(before, after) =>
      assert |AllNames(j)| * 1 == |AllNames(j)|;
  }

  lemma RunStepWork(run: Run)
    requires RunSpec(run) && Sound(run.job, run.pre) && |Recorded(run.pre)| <= |AllNames(run.job)|
    ensures |run.log| + |Recorded(run.pre)|
      <= |AllNames(run.job)| * Lost(Receive(run)) + (if run.out.Success? then 0 else 1) + |Recorded(run.post)|
  {
    var m := |AllNames(run.job)|;
    if run.saved {
      RunWork(run);
      var start: nat := if !run.kept && run.pre.record.Some? then 1 else 0;
      var end: nat := if run.post.record.None? then 1 else 0;
      assert |Recorded(run.pre)| <= |StartList(run)| + m * start;
      assert |run.done| <= |Recorded(run.post)| + m * end;
      Distribute(m, start, end);
    }
  }

  // ----- without overwrite, nothing is exported twice --------------------------------------

  /** The names whose target exists. */
  function Present(j: Job, targets: map<Path, Node>): set<string> {
    set i | 0 <= i < |j.files| && At(j, targets, i).Some? :: j.files[i].name
  }

  /** Each export so far was recorded, was of a name that was not present before, and has
      made it present. */
  predicate NewSoFar(j: Job, before: map<Path, Node>, w: World) {
    && NoDup(w.log)
    && (forall x :: x in w.log ==> x in w.done)
    && Elems(w.log) !! Present(j, before)
    && Elems(w.log) + Present(j, before) <= Present(j, w.targets)
  }

  lemma NewStep(j: Job, before: map<Path, Node>, w: World, i: nat)
    requires j.Valid() && !j.overwrite && i < |j.files| && Exports(j, w, i) && NewSoFar(j, before, w)
    ensures NewSoFar(j, before, Place(j, w, i))
  {
    ExportNew(j, w, i, j.files[i].name, w.targets[j.TargetOf(i).value := File(j.Content(i))]);
    assert Elems(w.log + [j.files[i].name]) == Elems(w.log) + {j.files[i].name};
  }

  lemma {:induction false} IdealNew(j: Job, w0: World, n: nat)
    requires j.Valid() && !j.overwrite && n <= |j.files| && w0.log == []
    ensures NewSoFar(j, w0.targets, Ideal(j, w0, n))
  {
    if n == 0 {
    } else {
      IdealNew(j, w0, n - 1);
      if Exports(j, Ideal(j, w0, n - 1), n - 1) {
        NewStep(j, w0.targets, Ideal(j, w0, n - 1), n - 1);
      }
    }
  }

  /** An export into a free target adds its name to those present. */
  lemma ExportNew(j: Job, w: World, i: nat, name: string, after: map<Path, Node>)
    requires j.Valid() && !j.overwrite && i < |j.files| && Exports(j, w, i) && name == j.files[i].name
    requires after == w.targets[j.TargetOf(i).value := File(j.Content(i))]
    ensures name !in Present(j, w.targets) && {name} + Present(j, w.targets) <= Present(j, after)
  {
    assert At(j, after, i).Some?;
    forall k: nat | k < |j.files| && At(j, w.targets, k).Some? ensures At(j, after, k).Some? && j.files[k].name != name {
    }
  }

  /** What an interrupted run leaves of a file adds to the names present, too. */
  lemma ResidueNew(j: Job, w: World, info: RunInfo, targets: map<Path, Node>)
    requires j.Valid() && !j.overwrite && info.cut < |j.files| && !info.residue.Clean?
    requires ResidueAt(j, w, info.cut, info.residue, targets)
    ensures Present(j, w.targets) <= Present(j, targets)
    ensures info.residue.Unrecorded? ==> var name := j.files[info.cut].name;
      name !in Present(j, w.targets) && name in Present(j, targets)
  {
    if info.residue.Unrecorded? {
      ExportNew(j, w, info.cut, j.files[info.cut].name, targets);
    } else {
      forall k: nat | k < |j.files| && At(j, w.targets, k).Some? ensures At(j, targets, k).Some? {
      }
    }
  }

  lemma RunNew(run: Run)
    requires RunSpec(run) && !run.job.overwrite
    ensures |run.log| + |Present(run.job, run.pre.targets)| <= |Present(run.job, run.post.targets)|
  {
    var j := run.job;
    if run.saved {
      var w := Ideal(j, StartWorld(run), run.info.cut);
      IdealNew(j, StartWorld(run), run.info.cut);
      if !run.info.residue.Clean? {
        ResidueNew(j, w, run.info, run.post.targets);
      }
      NewNames(w.log, run.log, Present(j, run.pre.targets), Present(j, w.targets), Present(j, run.post.targets));
    }
  }

  /** The counting behind `RunNew`, on names alone. */
  lemma NewNames(log: seq<string>, all: seq<string>, pre: set<string>, mid: set<string>, post: set<string>)
    requires NoDup(log) && Elems(log) !! pre && Elems(log) + pre <= mid <= post
    requires all == log || (|all| > 0 && all[..|all| - 1] == log && all[|all| - 1] in post - mid)
    ensures |all| + |pre| <= |post|
  {
    NoDupCardinality(log);
    SubsetCardinality(Elems(log) + pre, mid);
    if all == log {
      SubsetCardinality(mid, post);
    } else {
      SubsetCardinality(mid + {all[|all| - 1]}, post);
    }
  }

  lemma PresentAnyPolicy(j: Job, k: Job, targets: map<Path, Node>)
    requires k == j.(overwrite := k.overwrite)
    ensures Present(j, targets) == Present(k, targets)
  {
    assert forall i :: 0 <= i < |j.files| ==> At(j, targets, i) == At(k, targets, i);
  }

  /** Without `overwrite` a history of any length, with any number of crashes and
      lost records, completes at most one export per name. */
  lemma {:induction false} WorkWithoutOverwrite(j: Job, start: Disk, steps: seq<Step>)
    requires j.Valid() && History(j, start, steps) && NeverOverwrites(steps)
    ensures Work(steps) + |Present(j, start.targets)| <= |Present(j, Last(start, steps).targets)|
    ensures Work(steps) <= |AllNames(j)|
  {
    SubsetCardinality(Present(j, Last(start, steps).targets), AllNames(j));
    if steps == [] {
    } else {
      var n := |steps| - 1;
      assert steps[n] in steps;
      WorkWithoutOverwrite(j, start, steps[..n]);
      if steps[n].Receive? {
        RunNew(steps[n].run);
        PresentAnyPolicy(j, steps[n].run.job, steps[n].Pre().targets);
        PresentAnyPolicy(j, steps[n].run.job, steps[n].Post().targets);
      }
    }
  }
}
