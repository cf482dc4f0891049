// What the steps of a run have to do with the state it leads to: which decision of the
// user, which fault and which interrupt each outcome goes back to.
module ProtocolCauses {
  import opened Basics
  import opened Sessions
  import opened Control
  import opened Protocol
  import opened ProtocolSafety

  predicate Decided(past: seq<Act>) {
    RDecide(true) in past || RDecide(false) in past
  }

  predicate Interrupted(past: seq<Act>) {
    RInterrupt(true) in past || RInterrupt(false) in past
  }

  predicate Failing(past: seq<Act>) {
    RReceiveFailed(true) in past || RReceiveFailed(false) in past
  }

  /** The receiver is where the steps so far have led it. */
  ghost predicate ReceiverCaused(past: seq<Act>, r: Receiver, dialed: bool) {
    && (dialed <==> RDial in past)
    && (r.pc.Dial? ==> !dialed)
    && !(RDecide(true) in past && RDecide(false) in past)
    && (forall t :: RReceived(t) in past <==> r.received == Some(t))
    && (r.received.Some? ==> RDecide(true) in past)
    && (if r.pc.REnded? then EndCaused(past, r.pc.end, dialed) else OnCourse(past, r.pc))
  }

  /** Nothing has gone wrong yet, and the user's decision is being followed. */
  predicate OnCourse(past: seq<Act>, pc: RecvPc) {
    && !Interrupted(past) && !Failing(past) && RFault !in past && RLost !in past && RClosed !in past
    && (RDecide(true) in past <==> pc.RSendAccept? || pc.Receiving? || pc.SendResult? || pc.AwaitCloseResult?)
    && (RDecide(false) in past <==> pc.RSendDecline? || pc.AwaitCloseDecline?)
    && (pc.SendResult? ==> RReceived(pc.totals) in past)
    && (pc.AwaitCloseResult? ==> RReceived(pc.totals) in past)
  }

  /** Why the receiver ended as it did. */
  predicate EndCaused(past: seq<Act>, end: RecvEnd, dialed: bool) {
    && (end == RFailed(Fault) <==> RFault in past)
    && (end == RFailed(ReceiveError) <==> Failing(past))
    && (end == RCancelled <==> Interrupted(past))
    && (RLost in past ==> end.RCompleted? || end.RDeclined?)
    && (RClosed in past ==> end.RCompleted? || end.RDeclined? || end == RFailed(Closed))
    && match end
       case RCompleted(t) => RDecide(true) in past && RReceived(t) in past
       case RDeclined => RDecide(false) in past
       case RCancelled => !Decided(past)
       case RFailed(why) => (why == ReceiveError ==> RDecide(true) in past) && (why == Closed ==> RClosed in past)
  }

  /** Each frame that depends on a decision or on something going wrong is there for
      that reason. */
  ghost predicate Told(past: seq<Act>, st: State) {
    && (Accept in st.toS.log ==> RDecide(true) in past)
    && (forall reason :: Decline(reason) in st.toS.log ==> RDecide(false) in past)
    && (forall t :: Result(t) in st.toS.log ==> RReceived(t) in past)
    && (Frame.Cancel in st.toS.log <==> RReceiveFailed(true) in past || (RInterrupt(true) in past && st.dialed))
    && (Frame.Cancel in st.toR.log <==> SInterrupt(true) in past && st.s.phase == Phase.Cancelled)
  }

  /** Why the sender ended as it did. */
  predicate SenderCaused(c: Setup, past: seq<Act>, st: State) {
    var ended := st.s.pc.Ended?;
    && (ended && st.s.pc.end == SendEnd.Failed(Fault) <==> SFault in past)
    && (ended && st.s.pc.end == SendEnd.Failed(Closed) <==> SClosed in past)
    && (SInterrupt(true) in past || SInterrupt(false) in past ==> ended && st.s.pc.end.Cancelled?)
    && (ended ==>
          match st.s.pc.end
          case Completed(_) => true
          case Declined(_) => true
          case Cancelled => SInterrupt(true) in past || SInterrupt(false) in past || Frame.Cancel in st.toS.log
          case Failed(why) =>
            && (why == ConfirmationMismatch ==> !Agreed(c))
            && (why == TotalsMismatch ==> |st.toS.log| > 4 && st.toS.log[4].Result? && !c.Accepts(st.toS.log[4].totals))
            && (why in {Malformed, WrongKind} ==> Frame.Cancel in st.toS.log)
            && why in {Fault, Closed, ConfirmationMismatch, TotalsMismatch, Malformed, WrongKind})
  }

  /** A receiver that was interrupted has cancelled its session if it had one, which is
      from the confirmation on; one that failed to receive has. */
  predicate SessionCancelled(r: Receiver, read: nat) {
    && (r.pc == REnded(RCancelled) ==> r.phase == if read >= 3 then Phase.Cancelled else Created)
    && (r.pc == REnded(RFailed(ReceiveError)) ==> r.phase == Phase.Cancelled)
  }

  /** A sender with a connection was dialed, and one with a stream was written to. */
  predicate Met(st: State) {
    st.s.pc.AwaitConn? || st.s.pc.Ended? || (st.dialed && (st.s.pc.AwaitStream? || st.toS.log != []))
  }

  ghost predicate Caused(c: Setup, past: seq<Act>, st: State) {
    Inv(c, st) && ReceiverCaused(past, st.r, st.dialed) && Told(past, st) && SenderCaused(c, past, st)
  }

  // ----- one step ------------------------------------------------------------------------

  lemma ReceiverReadsOn(c: Setup, past: seq<Act>, st: State, a: Act)
    requires Inv(c, st) && ReceiverCaused(past, st.r, st.dialed) && Enabled(st, a)
    requires a.RRead?
    ensures ReceiverCaused(past + [a], Apply(c, st, a).r, Apply(c, st, a).dialed)
  {
  }

  lemma ReceiverWritesOn(c: Setup, past: seq<Act>, st: State, a: Act)
    requires Inv(c, st) && ReceiverCaused(past, st.r, st.dialed) && Enabled(st, a)
    requires a.RWrite?
    ensures ReceiverCaused(past + [a], Apply(c, st, a).r, Apply(c, st, a).dialed)
  {
  }

  lemma ReceiverDecides(c: Setup, past: seq<Act>, st: State, a: Act)
    requires Inv(c, st) && ReceiverCaused(past, st.r, st.dialed) && Enabled(st, a)
    requires a.RDial? || a.RDrain? || a.RDecide? || a.RReceived?
    ensures ReceiverCaused(past + [a], Apply(c, st, a).r, Apply(c, st, a).dialed)
  {
  }

  /** What the sender does makes no difference to the receiver. */
  lemma ReceiverUnmoved(c: Setup, past: seq<Act>, st: State, a: Act)
    requires ReceiverCaused(past, st.r, st.dialed) && Enabled(st, a) && a.Senders()
    ensures ReceiverCaused(past + [a], Apply(c, st, a).r, Apply(c, st, a).dialed)
  {
    OtherSide(c, st, a);
  }

  lemma ReceiverEnds(c: Setup, past: seq<Act>, st: State, a: Act)
    requires Inv(c, st) && ReceiverCaused(past, st.r, st.dialed) && Enabled(st, a)
    requires a.RClosed? || a.RLost?
    ensures ReceiverCaused(past + [a], Apply(c, st, a).r, Apply(c, st, a).dialed)
  {
  }

  lemma ReceiverFails(c: Setup, past: seq<Act>, st: State, a: Act)
    requires Inv(c, st) && ReceiverCaused(past, st.r, st.dialed) && Enabled(st, a)
    requires a.RReceiveFailed? || a.RFault?
    ensures ReceiverCaused(past + [a], Apply(c, st, a).r, Apply(c, st, a).dialed)
  {
  }

  lemma ReceiverStops(c: Setup, past: seq<Act>, st: State, a: Act)
    requires Inv(c, st) && ReceiverCaused(past, st.r, st.dialed) && Enabled(st, a)
    requires a.RInterrupt?
    ensures ReceiverCaused(past + [a], Apply(c, st, a).r, Apply(c, st, a).dialed)
  {
  }

  lemma ReceiverCausedStep(c: Setup, past: seq<Act>, st: State, a: Act)
    requires Inv(c, st) && ReceiverCaused(past, st.r, st.dialed) && Enabled(st, a)
    ensures ReceiverCaused(past + [a], Apply(c, st, a).r, Apply(c, st, a).dialed)
  {
    if a.Senders() {
      ReceiverUnmoved(c, past, st, a);
    } else if a.RRead? {
      ReceiverReadsOn(c, past, st, a);
    } else if a.RWrite? {
      ReceiverWritesOn(c, past, st, a);
    } else if a.RInterrupt? {
      ReceiverStops(c, past, st, a);
    } else if a.RClosed? || a.RLost? {
      ReceiverEnds(c, past, st, a);
    } else if a.RReceiveFailed? || a.RFault? {
      ReceiverFails(c, past, st, a);
    } else {
      ReceiverDecides(c, past, st, a);
    }
  }

  /** A frame that one side has written. */
  lemma WrittenFrame(c: Setup, past: seq<Act>, st: State, a: Act)
    requires Inv(c, st) && ReceiverCaused(past, st.r, st.dialed) && Told(past, st) && SenderCaused(c, past, st)
    requires Enabled(st, a) && (a.SWrite? || a.RWrite?)
    ensures Told(past + [a], Apply(c, st, a))
  {
  }

  lemma SenderCancels(c: Setup, past: seq<Act>, st: State, a: Act)
    requires Inv(c, st) && Told(past, st) && SenderCaused(c, past, st) && Enabled(st, a) && a.SInterrupt?
    ensures Told(past + [a], Apply(c, st, a))
  {
  }

  lemma ReceiverCancels(c: Setup, past: seq<Act>, st: State, a: Act)
    requires Inv(c, st) && ReceiverCaused(past, st.r, st.dialed) && Told(past, st)
    requires Enabled(st, a) && (a.RInterrupt? || a.RReceiveFailed?)
    ensures Told(past + [a], Apply(c, st, a))
  {
  }

  lemma NoFrame(c: Setup, past: seq<Act>, st: State, a: Act)
    requires Inv(c, st) && ReceiverCaused(past, st.r, st.dialed) && Told(past, st) && SenderCaused(c, past, st)
    requires Enabled(st, a) && !(a.SWrite? || a.RWrite? || a.SInterrupt? || a.RInterrupt? || a.RReceiveFailed?)
    ensures Told(past + [a], Apply(c, st, a))
  {
  }

  lemma ToldStep(c: Setup, past: seq<Act>, st: State, a: Act)
    requires Inv(c, st) && ReceiverCaused(past, st.r, st.dialed) && Told(past, st) && SenderCaused(c, past, st)
    requires Enabled(st, a)
    ensures Told(past + [a], Apply(c, st, a))
  {
    if a.SWrite? || a.RWrite? {
      WrittenFrame(c, past, st, a);
    } else if a.SInterrupt? {
      SenderCancels(c, past, st, a);
    } else if a.RInterrupt? || a.RReceiveFailed? {
      ReceiverCancels(c, past, st, a);
    } else {
      NoFrame(c, past, st, a);
    }
  }

  lemma SenderReadsOn(c: Setup, past: seq<Act>, st: State, a: Act)
    requires Inv(c, st) && SenderCaused(c, past, st) && Enabled(st, a) && a.SRead?
    requires st.s.pc.AwaitHello? || st.s.pc.AwaitPake? || st.s.pc.AwaitConfirm?
    ensures SenderCaused(c, past + [a], Apply(c, st, a))
  {
    Shapes(c, st);
  }

  lemma SenderHearsOn(c: Setup, past: seq<Act>, st: State, a: Act)
    requires Inv(c, st) && SenderCaused(c, past, st) && Enabled(st, a) && a.SRead? && st.s.pc.AwaitResponse?
    ensures SenderCaused(c, past + [a], Apply(c, st, a))
  {
    Shapes(c, st);
  }

  lemma SenderJudgesOn(c: Setup, past: seq<Act>, st: State, a: Act)
    requires Inv(c, st) && SenderCaused(c, past, st) && Enabled(st, a) && a.SRead? && st.s.pc.Transfer?
    ensures SenderCaused(c, past + [a], Apply(c, st, a))
  {
    Shapes(c, st);
  }

  lemma SenderGoesOn(c: Setup, past: seq<Act>, st: State, a: Act)
    requires Inv(c, st) && SenderCaused(c, past, st) && Enabled(st, a) && a.Senders() && !a.SRead?
    ensures SenderCaused(c, past + [a], Apply(c, st, a))
  {
  }

  /** What the receiver does leaves the sender as it is; what it has said stays said. */
  lemma SenderUnmoved(c: Setup, past: seq<Act>, st: State, a: Act)
    requires Inv(c, st) && SenderCaused(c, past, st) && Enabled(st, a) && !a.Senders()
    ensures SenderCaused(c, past + [a], Apply(c, st, a))
  {
    OtherSide(c, st, a);
  }

  lemma SenderCausedStep(c: Setup, past: seq<Act>, st: State, a: Act)
    requires Inv(c, st) && SenderCaused(c, past, st) && Enabled(st, a)
    ensures SenderCaused(c, past + [a], Apply(c, st, a))
  {
    if !a.Senders() {
      SenderUnmoved(c, past, st, a);
    } else if !a.SRead? {
      SenderGoesOn(c, past, st, a);
    } else if st.s.pc.AwaitResponse? {
      SenderHearsOn(c, past, st, a);
    } else if st.s.pc.Transfer? {
      SenderJudgesOn(c, past, st, a);
    } else {
      SenderReadsOn(c, past, st, a);
    }
  }

  // ----- whole runs ------------------------------------------------------------------------

  lemma SessionCancelledStep(c: Setup, st: State, a: Act)
    requires Inv(c, st) && SessionCancelled(st.r, st.toR.read) && Enabled(st, a)
    ensures SessionCancelled(Apply(c, st, a).r, Apply(c, st, a).toR.read)
  {
    if a.Senders() {
      OtherSide(c, st, a);
    }
  }

  lemma MetStep(c: Setup, st: State, a: Act)
    requires Met(st) && Enabled(st, a)
    ensures Met(Apply(c, st, a))
  {
    OtherSide(c, st, a);
  }

  lemma CausedStep(c: Setup, past: seq<Act>, st: State, a: Act)
    requires Caused(c, past, st) && Enabled(st, a)
    ensures Caused(c, past + [a], Apply(c, st, a))
  {
    StepKeepsInv(c, st, a);
    ReceiverCausedStep(c, past, st, a);
    ToldStep(c, past, st, a);
    SenderCausedStep(c, past, st, a);
  }

  lemma {:induction false} RunCaused(c: Setup, past: seq<Act>, st: State, acts: seq<Act>)
    requires Caused(c, past, st) && Run(c, st, acts)
    ensures Caused(c, past + acts, After(c, st, acts))
    decreases acts
  {
    if acts == [] {
      assert past + acts == past;
    } else {
      var a, rest := acts[0], acts[1..];
      assert past + [a] + rest == past + acts;
      CausedStep(c, past, st, a);
      RunCaused(c, past + [a], Apply(c, st, a), rest);
    }
  }

  lemma {:induction false} RunMet(c: Setup, st: State, acts: seq<Act>)
    requires Inv(c, st) && SessionCancelled(st.r, st.toR.read) && Met(st) && Run(c, st, acts)
    ensures var after := After(c, st, acts); SessionCancelled(after.r, after.toR.read) && Met(after)
    decreases acts
  {
    if acts == [] {
    } else {
      StepKeepsInv(c, st, acts[0]);
      SessionCancelledStep(c, st, acts[0]);
      MetStep(c, st, acts[0]);
      RunMet(c, Apply(c, st, acts[0]), acts[1..]);
    }
  }

  lemma FromInit(c: Setup, acts: seq<Act>)
    requires Run(c, Init(), acts)
    ensures var st := After(c, Init(), acts);
      Caused(c, acts, st) && SessionCancelled(st.r, st.toR.read) && Met(st)
  {
    RunCaused(c, [], Init(), acts);
    RunMet(c, Init(), acts);
    assert [] + acts == acts;
  }

  /** The receiver accepts, downloads and reports only if the user said yes, and declines
      only if the user said no; the user is asked once, and what was received is what
      the receive returned. */
  lemma DecisionDecides(c: Setup, acts: seq<Act>)
    requires Run(c, Init(), acts)
    ensures var st := After(c, Init(), acts);
      && !(RDecide(true) in acts && RDecide(false) in acts)
      && (Accept in st.toS.log || st.r.received.Some? ==> RDecide(true) in acts)
      && (st.r.pc == REnded(RDeclined) ==> RDecide(false) in acts)
      && (forall reason :: Decline(reason) in st.toS.log ==> RDecide(false) in acts)
      && (forall t :: Result(t) in st.toS.log ==> RReceived(t) in acts)
      && (st.r.received.Some? ==> RReceived(st.r.received.value) in acts)
  {
    FromInit(c, acts);
  }

  /** So the sender completes only if the user said yes and the receive returned the
      very totals, and reports a refusal only if the user said no. */
  lemma SenderHeardDecision(c: Setup, acts: seq<Act>)
    requires Run(c, Init(), acts)
    ensures var st := After(c, Init(), acts);
      st.s.pc.Ended? ==>
        && (st.s.pc.end.Completed? ==> RDecide(true) in acts && RReceived(st.s.pc.end.totals) in acts)
        && (st.s.pc.end.Declined? ==> RDecide(false) in acts)
  {
    FromInit(c, acts);
    SenderCompletedIsBacked(c, acts);
    SenderDeclinedIsBacked(c, acts);
  }

  /** A receiver that has ended and neither completed nor declined was interrupted, met a
      fault, failed to receive, found the stream closed, or could not make sense of a
      frame; and each of the first four ends it in its own way. Where it cancels and has a
      session, it cancels that. */
  lemma ReceiverEndsForCause(c: Setup, acts: seq<Act>)
    requires Run(c, Init(), acts)
    ensures var st := After(c, Init(), acts);
      && (st.r.pc == REnded(RFailed(Fault)) <==> RFault in acts)
      && (st.r.pc == REnded(RCancelled) <==> RInterrupt(true) in acts || RInterrupt(false) in acts)
      && (st.r.pc == REnded(RFailed(ReceiveError)) <==> RReceiveFailed(true) in acts || RReceiveFailed(false) in acts)
      && (st.r.pc == REnded(RFailed(Closed)) ==> RClosed in acts)
      && (RLost in acts ==> st.r.pc.REnded? && (st.r.pc.end.RCompleted? || st.r.pc.end.RDeclined?))
      && (st.r.pc == REnded(RFailed(ReceiveError)) ==> st.r.phase == Phase.Cancelled)
      && (st.r.pc == REnded(RCancelled) ==> st.r.phase == if st.toR.read >= 3 then Phase.Cancelled else Created)
  {
    FromInit(c, acts);
  }

  /** The same for the sender, which fails in no other way; a frame it cannot use is there
      only if the receiver has cancelled. */
  lemma SenderEndsForCause(c: Setup, acts: seq<Act>)
    requires Run(c, Init(), acts)
    ensures var st := After(c, Init(), acts);
      && (st.s.pc == Ended(SendEnd.Failed(Fault)) <==> SFault in acts)
      && (st.s.pc == Ended(SendEnd.Failed(Closed)) <==> SClosed in acts)
      && (st.s.pc == Ended(SendEnd.Failed(ConfirmationMismatch)) ==> !Agreed(c))
      && (st.s.pc == Ended(SendEnd.Cancelled) ==>
            SInterrupt(true) in acts || SInterrupt(false) in acts || Frame.Cancel in st.toS.log)
      && (st.s.pc.Ended? && st.s.pc.end.Failed? ==>
            st.s.pc.end.why in {Fault, Closed, ConfirmationMismatch, TotalsMismatch} || Frame.Cancel in st.toS.log)
  {
    FromInit(c, acts);
  }

  /** The sender gets past its first wait only if the receiver has dialed, and past the
      second only if the receiver has written. */
  lemma SenderMeets(c: Setup, acts: seq<Act>)
    requires Run(c, Init(), acts)
    ensures var st := After(c, Init(), acts);
      && (st.s.pc.AwaitConn? || st.s.pc.Ended? || RDial in acts)
      && (st.s.pc.AwaitConn? || st.s.pc.AwaitStream? || st.s.pc.Ended? || Hello(1) in st.toS.log)
  {
    FromInit(c, acts);
    var st := After(c, Init(), acts);
    Shapes(c, st);
    assert st.toS.log != [] ==> st.toS.log[0] == ReceiverScript(c)[0] == Hello(1);
  }

  /** Each side finds a cancel in its stream exactly if the other was interrupted, or
      failed to receive, once it could write one, and the cancel got through. */
  lemma CancelTold(c: Setup, acts: seq<Act>)
    requires Run(c, Init(), acts)
    ensures var st := After(c, Init(), acts);
      && (Frame.Cancel in st.toS.log <==> RReceiveFailed(true) in acts || (RInterrupt(true) in acts && RDial in acts))
      && (Frame.Cancel in st.toR.log <==> SInterrupt(true) in acts && st.s.phase == Phase.Cancelled)
  {
    FromInit(c, acts);
  }

  /** A receiver that has not ended hears an interrupt exactly before it connects, and from
      the sender's hello until the user has decided. */
  lemma ReceiverHears(c: Setup, acts: seq<Act>, delivered: bool)
    requires Run(c, Init(), acts) && !After(c, Init(), acts).r.pc.REnded?
    ensures var st := After(c, Init(), acts);
      Enabled(st, RInterrupt(delivered)) <==> RDial !in acts || (st.toR.read >= 1 && !Decided(acts))
  {
    FromInit(c, acts);
  }
}
