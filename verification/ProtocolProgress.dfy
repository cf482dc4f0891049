// The two programs never wait for each other for ever, every run is short, and a
// run in which nothing goes wrong ends with both sides agreeing on how.
module ProtocolProgress {
  import opened Basics
  import opened Control
  import opened Protocol
  import opened ProtocolSafety
  import Causes = ProtocolCauses

  // ----- no deadlock ---------------------------------------------------------------

  predicate Live(st: State) {
    !st.s.pc.Ended? || !st.r.pc.REnded?
  }

  /** The receiver gave up before it connected: only the pairing timeout or an
      interrupt ends the sender's wait. */
  predicate Unmet(st: State) {
    st.s.pc.AwaitConn? && !st.dialed && st.r.pc.REnded?
  }

  /** In every state that faults and interrupts can lead to, a side that is still
      running can go on without another fault: some program can step, the frame it
      awaits is queued, or the stream it reads has ended. */
  lemma NoDeadlock(c: Setup, acts: seq<Act>) returns (a: Act)
    requires Run(c, Init(), acts) && Live(After(c, Init(), acts)) && !Unmet(After(c, Init(), acts))
    ensures a.Ordinary() && Enabled(After(c, Init(), acts), a)
  {
    RunKeepsInv(c, Init(), acts);
    a := SomeStep(c, After(c, Init(), acts));
  }

  lemma SomeStep(c: Setup, st: State) returns (a: Act)
    requires Inv(c, st) && Live(st) && !Unmet(st)
    ensures a.Ordinary() && Enabled(st, a)
  {
    if st.s.Writing() {
      a := SWrite;
    } else if st.r.Writing() {
      a := RWrite;
    } else if st.r.pc.Dial? {
      a := RDial;
    } else if st.r.pc.Prompt? {
      a := RDecide(true);
    } else if st.r.pc.Receiving? {
      a := RReceived(Totals(0, 0, 0, 0));
    } else if st.s.pc.AwaitConn? {
      a := SConnect;
    } else if st.s.Reading() && !st.toS.Empty() {
      a := SRead;
    } else if st.r.Reading() && !st.toR.Empty() {
      a := RRead;
    } else if st.r.Draining() && !st.toR.Empty() {
      a := RDrain;
    } else if st.s.pc.AwaitStream? && st.toS.log != [] {
      a := SStream;
    } else if st.r.pc.REnded? {
      a := SClosed;
    } else {
      a := RClosed;
    }
  }

  // ----- every run is short --------------------------------------------------------------

  function SenderRank(pc: SendPc): nat {
    match pc
    case AwaitConn => 11
    case AwaitStream => 10
    case AwaitHello => 9
    case SendHello => 8
    case AwaitPake => 7
    case SendPake(_) => 6
    case AwaitConfirm(_) => 5
    case SendConfirm(_, _) => 4
    case SendOffer => 3
    case AwaitResponse => 2
    case Transfer => 1
    case Ended(_) => 0
  }

  function ReceiverRank(pc: RecvPc): nat {
    match pc
    case Dial => 13
    case RSendHello => 12
    case RAwaitHello => 11
    case RSendPake => 10
    case RAwaitPake => 9
    case RSendConfirm(_) => 8
    case RAwaitConfirm(_) => 7
    case RAwaitOffer => 6
    case Prompt => 5
    case RSendDecline => 4
    case AwaitCloseDecline => 1
    case RSendAccept => 4
    case Receiving => 3
    case SendResult(_) => 2
    case AwaitCloseResult(_) => 1
    case REnded(_) => 0
  }

  /** Program points still ahead, weighted above the frames that are queued. */
  function Measure(st: State): int {
    2 * (SenderRank(st.s.pc) + ReceiverRank(st.r.pc)) + |st.toR.log| - st.toR.read + |st.toS.log| - st.toS.read
  }

  predicate Queued(st: State) {
    st.toR.read <= |st.toR.log| && st.toS.read <= |st.toS.log|
  }

  lemma SenderDecreases(c: Setup, st: State, a: Act)
    requires Queued(st) && Enabled(st, a) && a.Senders()
    ensures 0 <= Measure(Apply(c, st, a)) < Measure(st)
  {
    var after := Apply(c, st, a);
    assert SenderRank(after.s.pc) < SenderRank(st.s.pc);
  }

  lemma ReceiverDecreases(c: Setup, st: State, a: Act)
    requires Queued(st) && Enabled(st, a) && !a.Senders()
    ensures 0 <= Measure(Apply(c, st, a)) < Measure(st)
  {
    var after := Apply(c, st, a);
    assert a.RDrain? || ReceiverRank(after.r.pc) < ReceiverRank(st.r.pc);
  }

  lemma {:induction false} RunBounded(c: Setup, st: State, acts: seq<Act>)
    requires Inv(c, st) && Run(c, st, acts)
    ensures |acts| + Measure(After(c, st, acts)) <= Measure(st)
    ensures 0 <= Measure(After(c, st, acts))
    decreases acts
  {
    if acts == [] {
    } else {
      if acts[0].Senders() {
        SenderDecreases(c, st, acts[0]);
      } else {
        ReceiverDecreases(c, st, acts[0]);
      }
      StepKeepsInv(c, st, acts[0]);
      RunBounded(c, Apply(c, st, acts[0]), acts[1..]);
    }
  }

  /** From dialing to the end, no exchange takes more than 48 steps. */
  lemma ExchangeTerminates(c: Setup, acts: seq<Act>)
    requires Run(c, Init(), acts)
    ensures |acts| <= 48
  {
    RunBounded(c, Init(), acts);
  }

  // ----- when nothing goes wrong -----------------------------------------------------------

  predicate AllOrdinary(acts: seq<Act>) {
    forall a :: a in acts ==> a.Ordinary()
  }

  /** Nothing but a fault or an interrupt can happen any more. */
  ghost predicate Quiet(st: State) {
    forall a: Act :: a.Ordinary() ==> !Enabled(st, a)
  }

  /** How the ends of the two sides go together. */
  predicate Agreement(c: Setup, s: SendEnd, r: RecvEnd) {
    if !Agreed(c) then s == SendEnd.Failed(ConfirmationMismatch) && r == RFailed(ConfirmationMismatch)
    else
      match r
      case RCompleted(t) =>
        s == if c.Accepts(t) then SendEnd.Completed(t) else SendEnd.Failed(TotalsMismatch)
      case RDeclined => s == Declined("user declined")
      case _ => false
  }

  /** The sender's end and all that the receiver has written by then. */
  predicate CleanEnd(c: Setup, end: SendEnd, log: seq<Frame>, inbound: seq<Frame>, received: Option<Totals>) {
    var s := ReceiverScript(c);
    if !Agreed(c) then end == SendEnd.Failed(ConfirmationMismatch) && log == SenderScript(c)[..3] && inbound == s
    else
      && log == SenderScript(c)
      && match end
         case Completed(t) => received == Some(t) && c.Accepts(t) && inbound == s + [Accept, Result(t)]
         case Failed(why) =>
           why == TotalsMismatch && received.Some? && !c.Accepts(received.value)
           && inbound == s + [Accept, Result(received.value)]
         case Declined(reason) => reason == "user declined" && inbound == s + [Decline(reason)]
         case Cancelled => false
  }

  predicate Clean(c: Setup, st: State) {
    && Inv(c, st)
    && (st.s.pc.Ended? ==> CleanEnd(c, st.s.pc.end, st.toR.log, st.toS.log, st.r.received))
    && (st.r.pc.REnded? ==> st.s.pc.Ended? && Agreement(c, st.s.pc.end, st.r.pc.end))
  }

  lemma CleanSenderStep(c: Setup, st: State, a: Act)
    requires Clean(c, st) && Enabled(st, a) && a.Ordinary() && a.Senders()
    ensures Clean(c, Apply(c, st, a))
  {
    StepKeepsInv(c, st, a);
    Shapes(c, st);
  }

  lemma CleanReceiverStep(c: Setup, st: State, a: Act)
    requires Clean(c, st) && Enabled(st, a) && a.Ordinary() && !a.Senders()
    ensures Clean(c, Apply(c, st, a))
  {
    StepKeepsInv(c, st, a);
    Shapes(c, st);
  }

  lemma {:induction false} CleanRun(c: Setup, st: State, acts: seq<Act>)
    requires Clean(c, st) && Run(c, st, acts) && AllOrdinary(acts)
    ensures Clean(c, After(c, st, acts))
    decreases acts
  {
    if acts == [] {
    } else {
      assert acts[0] in acts;
      if acts[0].Senders() {
        CleanSenderStep(c, st, acts[0]);
      } else {
        CleanReceiverStep(c, st, acts[0]);
      }
      CleanRun(c, Apply(c, st, acts[0]), acts[1..]);
    }
  }

  /** A run without faults and interrupts that cannot go on has ended on both sides.
      With the same words both were paired, and either both completed with the same
      totals, or both know of the refusal, or the sender alone found the totals
      wrong; and the receiver completed if the user said yes, and declined if the user
      said no. With different words both failed to confirm. */
  lemma CleanRunAgrees(c: Setup, acts: seq<Act>)
    requires Run(c, Init(), acts) && AllOrdinary(acts) && Quiet(After(c, Init(), acts))
    ensures var st := After(c, Init(), acts);
      && st.s.pc.Ended? && st.r.pc.REnded?
      && Agreement(c, st.s.pc.end, st.r.pc.end)
      && (Agreed(c) ==> Offer(c.files, c.total) in st.toR.log)
      && (Agreed(c) ==> (st.r.pc.end.RCompleted? <==> RDecide(true) in acts))
      && (Agreed(c) ==> (st.r.pc.end.RDeclined? <==> RDecide(false) in acts))
      && (forall t :: st.r.pc.end == RCompleted(t) ==> RReceived(t) in acts)
  {
    var st := After(c, Init(), acts);
    CleanRun(c, Init(), acts);
    if Live(st) {
      var a := SomeStep(c, st);
      assert false;
    }
    Causes.FromInit(c, acts);
    assert Agreed(c) ==> st.toR.log[3] == Offer(c.files, c.total);
  }
}
