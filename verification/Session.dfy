// The session phase machine (crates/core/src/session/state.rs) and the session
// handle that owns it together with a cancellation flag (crates/core/src/session.rs).
module Sessions {
  import opened Basics

  datatype Phase = Created | PendingPair | Paired | Transferring | Done | Cancelled | Failed {
    predicate Terminal() {
      this in {Done, Cancelled, Phase.Failed}
    }
  }

  datatype Event = StartPairing | PairConfirmed | TransferStarted | Completed | Cancel | Fail

  /** The next phase, or `None` for an illegal transition. */
  function Next(phase: Phase, event: Event): Option<Phase> {
    match (phase, event)
    case (Created, StartPairing) => Some(PendingPair)
    case (PendingPair, PairConfirmed) => Some(Paired)
    case (Paired, TransferStarted) => Some(Transferring)
    case (Transferring, Completed) => Some(Done)
    case (_, Cancel) => if phase.Terminal() then None else Some(Cancelled)
    case (_, Fail) => if phase.Terminal() then None else Some(Phase.Failed)
    case _ => None
  }

  /** A run of the machine: it begins in `Created` and every step is legal. */
  predicate Legal(history: seq<Phase>) {
    if history == [] then false
    else if |history| == 1 then history == [Created]
    else
      var n := |history| - 1;
      Legal(history[..n]) && Leads(history[n - 1], history[n])
  }

  predicate Leads(from: Phase, to: Phase) {
    exists event :: Next(from, event) == Some(to)
  }

  const ROAD := [Created, PendingPair, Paired, Transferring, Done]

  /** There is one road: a run is a stretch of it from the start, or such a stretch
      short of `Done` that ends in `Cancelled` or `Failed`. So a session completes
      only after pairing was confirmed and the transfer had started, it ends at most
      once, and nothing follows the end. */
  lemma {:induction false} OneRoad(history: seq<Phase>)
    requires Legal(history)
    ensures |history| <= 5
    ensures history == ROAD[..|history|] ||
      (history[..|history| - 1] == ROAD[..|history| - 1] && history[|history| - 1] in {Cancelled, Phase.Failed})
  {
    if |history| == 1 {
      assert ROAD[..1] == [Created];
    } else {
      var n := |history| - 1;
      OneRoad(history[..n]);
      var event :| Next(history[n - 1], event) == Some(history[n]);
      assert history == history[..n] + [history[n]];
      assert history[..n] == history[..n][..n - 1] + [history[n - 1]];
      if history[..n] == ROAD[..n] {
        assert history[n - 1] == ROAD[n - 1];
        if history[n] == ROAD[n] {
          assert ROAD[..n + 1] == ROAD[..n] + [ROAD[n]];
        }
      }
    }
  }

  /** And every such stretch is a run. */
  lemma {:induction false} RoadIsLegal(n: nat)
    requires 1 <= n <= 5
    ensures Legal(ROAD[..n])
    ensures n < 5 ==> Legal(ROAD[..n] + [Cancelled]) && Legal(ROAD[..n] + [Phase.Failed])
  {
    if n == 1 {
      assert ROAD[..1] == [Created];
    } else {
      RoadIsLegal(n - 1);
      assert ROAD[..n][..n - 1] == ROAD[..n - 1];
      assert Next(ROAD[n - 2], [StartPairing, PairConfirmed, TransferStarted, Completed][n - 2]) == Some(ROAD[n - 1]);
    }
    if n < 5 {
      Stops(ROAD[..n], Cancel, Cancelled);
      Stops(ROAD[..n], Fail, Phase.Failed);
    }
  }

  lemma Stops(history: seq<Phase>, event: Event, end: Phase)
    requires Legal(history) && Next(history[|history| - 1], event) == Some(end)
    ensures Legal(history + [end])
  {
    assert (history + [end])[..|history|] == history;
  }

  /** Each step of the road is taken by its own event, and only from the phase before;
      `Cancel` and `Fail` end the session from any phase that is not final. */
  lemma OwnEvent(from: Phase, event: Event, to: Phase)
    ensures Next(from, event) == Some(to) <==>
      || (from == Created && event == StartPairing && to == PendingPair)
      || (from == PendingPair && event == PairConfirmed && to == Paired)
      || (from == Paired && event == TransferStarted && to == Transferring)
      || (from == Transferring && event == Completed && to == Done)
      || (from in ROAD[..4] && event == Cancel && to == Cancelled)
      || (from in ROAD[..4] && event == Fail && to == Phase.Failed)
  {
    assert ROAD[..4] == [Created, PendingPair, Paired, Transferring];
  }

  class Session {
    var phase: Phase
    var cancelled: bool                // the watch channel
    ghost var history: seq<Phase>

    ghost predicate Valid()
      reads this
    {
      && Legal(history)
      && history[|history| - 1] == phase
      && (cancelled ==> phase == Cancelled)
    }

    constructor ()
      ensures Valid() && phase == Created && !cancelled && history == [Created]
    {
      phase := Created;
      cancelled := false;
      history := [Created];
    }

    method Transition(event: Event) returns (next: Option<Phase>)
      requires Valid()
      modifies this`phase, this`history
      ensures Valid()
      ensures next == Next(old(phase), event)
      ensures phase == if next.Some? then next.value else old(phase)
      ensures history == if next.Some? then old(history) + [next.value] else old(history)
    {
      next := Next(phase, event);
      if next.Some? {
        assert (history + [next.value])[..|history|] == history;
        history := history + [next.value];
        phase := next.value;
      }
    }

    method Cancel() returns (next: Option<Phase>)
      requires Valid()
      modifies this
      ensures Valid()
      ensures next == if old(phase).Terminal() then None else Some(Cancelled)
      ensures phase == if next.Some? then Cancelled else old(phase)
      ensures cancelled == (next.Some? || old(cancelled))
      ensures history == if next.Some? then old(history) + [Cancelled] else old(history)
    {
      next := Transition(Event.Cancel);
      if next.Some? {
        cancelled := true;
      }
    }
  }
}
