// What holds in every reachable state of the two programs and their streams,
// whatever the faults and interrupts.
module ProtocolSafety {
  import opened Basics
  import opened Sessions
  import opened Control
  import opened Protocol

  // ----- what each side has written, from its program point alone ---------------------

  function SenderScript(c: Setup): seq<Frame> {
    [Hello(VERSION), Spake(c.senderWords), Confirm(Derive(c.senderWords, c.receiverWords)), Offer(c.files, c.total)]
  }

  function ReceiverScript(c: Setup): seq<Frame> {
    [Hello(VERSION), Spake(c.receiverWords), Confirm(Derive(c.receiverWords, c.senderWords))]
  }

  /** A sender writes its script in order; a Cancel can only follow the whole of it. */
  predicate SenderLog(c: Setup, log: seq<Frame>) {
    log <= SenderScript(c) || log == SenderScript(c) + [Frame.Cancel]
  }

  /** With different words the offer is never written. */
  predicate SenderSaid(c: Setup, log: seq<Frame>) {
    SenderLog(c, log) && (|log| > 3 ==> Agreed(c))
  }

  /** The receiver's script, or a part of it, and perhaps a Cancel. */
  predicate CutShort(c: Setup, log: seq<Frame>) {
    var s := ReceiverScript(c);
    log <= s || log == s[..1] + [Frame.Cancel] || log == s[..2] + [Frame.Cancel] || log == s + [Frame.Cancel]
  }

  /** What the receiver can have written at any time. */
  predicate ReceiverLog(c: Setup, log: seq<Frame>, received: Option<Totals>) {
    var s := ReceiverScript(c);
    || CutShort(c, log)
    || log == s + [Decline("user declined")]
    || log == s + [Accept]
    || log == s + [Accept, Frame.Cancel]
    || (received.Some? && log == s + [Accept, Result(received.value)])
  }

  predicate Agreed(c: Setup) {
    c.senderWords == c.receiverWords
  }

  /** The sender at each program point: what it has written and read, and its phase. */
  predicate SenderOk(c: Setup, s: Sender, log: seq<Frame>, read: nat, inbound: seq<Frame>) {
    var script := SenderScript(c);
    match s.pc
    case AwaitConn => log == [] && read == 0 && s.phase == PendingPair
    case AwaitStream => log == [] && read == 0 && s.phase == PendingPair
    case AwaitHello => log == [] && read == 0 && s.phase == PendingPair
    case SendHello => log == [] && read == 1 && s.phase == PendingPair
    case AwaitPake => log == script[..1] && read == 1 && s.phase == PendingPair
    case SendPake(peer) => log == script[..1] && read == 2 && s.phase == PendingPair && peer == c.receiverWords
    case AwaitConfirm(peer) => log == script[..2] && read == 2 && s.phase == PendingPair && peer == c.receiverWords
    case SendConfirm(peer, token) =>
      log == script[..2] && read == 3 && s.phase == PendingPair && peer == c.receiverWords
      && token == Derive(c.receiverWords, c.senderWords)
    case SendOffer => log == script[..3] && read == 3 && s.phase == Paired && Agreed(c)
    case AwaitResponse => log == script && read == 3 && s.phase == Paired && Agreed(c)
    case Transfer => log == script && read == 4 && s.phase == Transferring && Agreed(c) && |inbound| > 3 && inbound[3] == Accept
    case Ended(end) => SenderEnd(c, end, s.phase, log, read, inbound)
  }

  /** Once the fifth frame is taken, matching totals in it have completed the sender. */
  predicate JudgedLast(c: Setup, end: SendEnd, inbound: seq<Frame>) {
    |inbound| > 4 && (inbound[4].Result? && c.Accepts(inbound[4].totals) ==> end == SendEnd.Completed(inbound[4].totals))
  }

  predicate SenderEnd(c: Setup, end: SendEnd, phase: Phase, log: seq<Frame>, read: nat, inbound: seq<Frame>) {
    && SenderLog(c, log)
    && (phase != PendingPair ==> Agreed(c))
    && (|log| > 3 ==> Agreed(c))
    && (phase == Done <==> end.Completed?)
    && (read > 4 ==> JudgedLast(c, end, inbound))
    && match end
       case Completed(t) => read == 5 && |inbound| > 4 && inbound[4] == Result(t) && c.Accepts(t)
       case Declined(reason) => phase == Paired && |inbound| > 3 && inbound[3] == Decline(reason)
       case Cancelled => phase == Phase.Cancelled || (phase == PendingPair && log == [])
       case Failed(why) => phase in {PendingPair, Paired, Transferring} && why != BadTransition
  }

  predicate ReceiverOk(c: Setup, r: Receiver, log: seq<Frame>, read: nat) {
    var s := ReceiverScript(c);
    match r.pc
    case Dial => log == [] && read == 0 && r.phase == Created && r.received.None?
    case RSendHello => log == [] && read == 0 && r.phase == Created && r.received.None?
    case RAwaitHello => log == s[..1] && read == 0 && r.phase == Created && r.received.None?
    case RSendPake => log == s[..1] && read == 1 && r.phase == Created && r.received.None?
    case RAwaitPake => log == s[..2] && read == 1 && r.phase == Created && r.received.None?
    case RSendConfirm(peer) => log == s[..2] && read == 2 && r.phase == Created && r.received.None? && peer == c.senderWords
    case RAwaitConfirm(peer) => log == s && read == 2 && r.phase == Created && r.received.None? && peer == c.senderWords
    case RAwaitOffer => log == s && read == 3 && r.phase == Paired && r.received.None? && Agreed(c)
    case Prompt => log == s && read == 4 && r.phase == Paired && r.received.None? && Agreed(c)
    case RSendDecline => log == s && read == 4 && r.phase == Paired && r.received.None? && Agreed(c)
    case AwaitCloseDecline =>
      log == s + [Decline("user declined")] && read >= 4 && r.phase == Paired && r.received.None? && Agreed(c)
    case RSendAccept => log == s && read == 4 && r.phase == Paired && r.received.None? && Agreed(c)
    case Receiving => log == s + [Accept] && read == 4 && r.phase == Transferring && r.received.None? && Agreed(c)
    case SendResult(t) =>
      log == s + [Accept] && read == 4 && r.phase == Transferring && r.received == Some(t) && Agreed(c)
    case AwaitCloseResult(t) =>
      log == s + [Accept, Result(t)] && read >= 4 && r.phase == Transferring && r.received == Some(t) && Agreed(c)
    case REnded(end) => ReceiverEnd(c, end, r, log)
  }

  predicate ReceiverEnd(c: Setup, end: RecvEnd, r: Receiver, log: seq<Frame>) {
    var s := ReceiverScript(c);
    && ReceiverLog(c, log, r.received)
    && (r.phase != Created ==> Agreed(c))
    && (r.phase == Created ==> CutShort(c, log) && r.received.None?)
    && (r.received.Some? ==> s + [Accept] <= log)
    && (r.phase == Done <==> end.RCompleted?)
    && match end
       case RCompleted(t) => r.received == Some(t) && log == s + [Accept, Result(t)]
       case RDeclined => r.phase == Paired && r.received.None? && log == s + [Decline("user declined")]
       case RCancelled =>
         && (r.phase == Created || r.phase == Phase.Cancelled) && r.received.None?
         && CutShort(c, log)
       case RFailed(why) => r.phase in {Created, Paired, Transferring, Phase.Cancelled} && why != BadTransition
  }

  predicate SenderFine(c: Setup, st: State) {
    SenderOk(c, st.s, st.toR.log, st.toS.read, st.toS.log)
  }

  predicate ReceiverFine(c: Setup, st: State) {
    ReceiverOk(c, st.r, st.toS.log, st.toR.read)
  }

  predicate SenderEnded(c: Setup, st: State) {
    st.s.pc.Ended? && SenderEnd(c, st.s.pc.end, st.s.phase, st.toR.log, st.toS.read, st.toS.log)
  }

  predicate ReceiverEnded(c: Setup, st: State) {
    st.r.pc.REnded? && ReceiverEnd(c, st.r.pc.end, st.r, st.toS.log)
  }

  lemma EndedIsFine(c: Setup, st: State)
    ensures SenderEnded(c, st) ==> SenderFine(c, st)
    ensures ReceiverEnded(c, st) ==> ReceiverFine(c, st)
  {
  }

  predicate Inv(c: Setup, st: State) {
    && SenderFine(c, st)
    && ReceiverFine(c, st)
    && st.toR.read <= |st.toR.log|
    && st.toS.read <= |st.toS.log|
    && (!st.dialed ==> st.toS.log == [] && (st.r.pc.Dial? || st.r.pc.REnded?))
  }

  // ----- the invariant is inductive ------------------------------------------------------

  /** Whatever the program point, the log has its shape. */
  lemma Shapes(c: Setup, st: State)
    requires Inv(c, st)
    ensures SenderSaid(c, st.toR.log) && ReceiverLog(c, st.toS.log, st.r.received)
  {
  }

  lemma SenderPairsStep(c: Setup, st: State, a: Act)
    requires SenderFine(c, st) && ReceiverLog(c, st.toS.log, st.r.received) && Enabled(st, a)
    requires a.SRead? && (st.s.pc.AwaitHello? || st.s.pc.AwaitPake? || st.s.pc.AwaitConfirm?)
    ensures SenderFine(c, Apply(c, st, a))
  {
  }

  lemma SenderHearsStep(c: Setup, st: State, a: Act)
    requires SenderFine(c, st) && ReceiverLog(c, st.toS.log, st.r.received) && Enabled(st, a)
    requires a.SRead? && st.s.pc.AwaitResponse?
    ensures SenderFine(c, Apply(c, st, a))
  {
  }

  lemma SenderJudgesStep(c: Setup, st: State, a: Act)
    requires SenderFine(c, st) && ReceiverLog(c, st.toS.log, st.r.received) && Enabled(st, a)
    requires a.SRead? && st.s.pc.Transfer?
    ensures SenderFine(c, Apply(c, st, a))
  {
  }

  lemma SenderOpensStep(c: Setup, st: State, a: Act)
    requires SenderFine(c, st) && ReceiverLog(c, st.toS.log, st.r.received) && Enabled(st, a)
    requires a.SConnect? || a.SStream? || a.SWrite?
    ensures SenderFine(c, Apply(c, st, a))
  {
  }

  lemma SenderStopsStep(c: Setup, st: State, a: Act)
    requires SenderFine(c, st) && ReceiverLog(c, st.toS.log, st.r.received) && Enabled(st, a)
    requires a.SInterrupt? || a.SFault? || a.SClosed?
    ensures SenderEnded(c, Apply(c, st, a))
  {
  }

  lemma ReceiverPairsStep(c: Setup, st: State, a: Act)
    requires ReceiverFine(c, st) && SenderSaid(c, st.toR.log) && Enabled(st, a)
    requires a.RRead? && (st.r.pc.RAwaitHello? || st.r.pc.RAwaitPake?)
    ensures ReceiverFine(c, Apply(c, st, a))
  {
  }

  lemma ReceiverConfirmsStep(c: Setup, st: State, a: Act)
    requires ReceiverFine(c, st) && SenderSaid(c, st.toR.log) && Enabled(st, a)
    requires a.RRead? && (st.r.pc.RAwaitConfirm? || st.r.pc.RAwaitOffer?)
    ensures ReceiverFine(c, Apply(c, st, a))
  {
  }

  lemma ReceiverWritesStep(c: Setup, st: State, a: Act)
    requires ReceiverFine(c, st) && SenderSaid(c, st.toR.log) && Enabled(st, a)
    requires a.RWrite?
    ensures ReceiverFine(c, Apply(c, st, a))
  {
  }

  lemma ReceiverLeavesStep(c: Setup, st: State, a: Act)
    requires ReceiverFine(c, st) && SenderSaid(c, st.toR.log) && Enabled(st, a)
    requires a.RInterrupt? && !st.r.pc.RAwaitOffer? && !st.r.pc.Prompt?
    ensures ReceiverEnded(c, Apply(c, st, a))
  {
  }

  lemma ReceiverCancelsStep(c: Setup, st: State, a: Act)
    requires ReceiverFine(c, st) && SenderSaid(c, st.toR.log) && Enabled(st, a)
    requires a.RInterrupt? && (st.r.pc.RAwaitOffer? || st.r.pc.Prompt?)
    ensures ReceiverEnded(c, Apply(c, st, a))
  {
  }

  lemma ReceiverBreaksStep(c: Setup, st: State, a: Act)
    requires ReceiverFine(c, st) && SenderSaid(c, st.toR.log) && Enabled(st, a)
    requires a.RReceiveFailed? || a.RFault?
    ensures ReceiverEnded(c, Apply(c, st, a))
  {
  }

  lemma ReceiverGoesOnStep(c: Setup, st: State, a: Act)
    requires ReceiverFine(c, st) && SenderSaid(c, st.toR.log) && Enabled(st, a)
    requires a.RDial? || a.RDrain? || a.RDecide? || a.RReceived?
    ensures ReceiverFine(c, Apply(c, st, a))
  {
  }

  lemma ReceiverClosesStep(c: Setup, st: State, a: Act)
    requires ReceiverFine(c, st) && SenderSaid(c, st.toR.log) && Enabled(st, a)
    requires a.RClosed? || a.RLost?
    ensures ReceiverEnded(c, Apply(c, st, a))
  {
  }

  /** What one side does leaves the other side's program, and what that has written and
      read, alone. */
  lemma OtherSide(c: Setup, st: State, a: Act)
    requires Enabled(st, a)
    ensures var after := Apply(c, st, a);
      if a.Senders() then
        after.r == st.r && after.toS.log == st.toS.log && after.toR.read == st.toR.read && after.dialed == st.dialed
        && st.toR.log <= after.toR.log && after.toS.read <= st.toS.read + (if st.toS.Empty() then 0 else 1)
      else
        after.s == st.s && after.toR.log == st.toR.log && after.toS.read == st.toS.read && st.toS.log <= after.toS.log
  {
  }

  /** Nor does it matter to the sender what else the receiver writes. */
  lemma SenderStays(c: Setup, st: State, after: State)
    requires SenderFine(c, st)
    requires after.s == st.s && after.toR.log == st.toR.log && after.toS.read == st.toS.read && st.toS.log <= after.toS.log
    ensures SenderFine(c, after)
  {
  }

  lemma SenderKeepsInv(c: Setup, st: State, a: Act)
    requires Inv(c, st) && Enabled(st, a) && a.Senders()
    ensures Inv(c, Apply(c, st, a))
  {
    OtherSide(c, st, a);
    Shapes(c, st);
    EndedIsFine(c, Apply(c, st, a));
    if a.SRead? && st.s.pc.AwaitResponse? {
      SenderHearsStep(c, st, a);
    } else if a.SRead? && st.s.pc.Transfer? {
      SenderJudgesStep(c, st, a);
    } else if a.SRead? {
      SenderPairsStep(c, st, a);
    } else if a.SConnect? || a.SStream? || a.SWrite? {
      SenderOpensStep(c, st, a);
    } else {
      SenderStopsStep(c, st, a);
    }
  }

  lemma ReceiverKeeps(c: Setup, st: State, a: Act)
    requires Inv(c, st) && Enabled(st, a) && !a.Senders()
    ensures ReceiverFine(c, Apply(c, st, a))
  {
    Shapes(c, st);
    EndedIsFine(c, Apply(c, st, a));
    match a
    case RRead =>
      if st.r.pc.RAwaitHello? || st.r.pc.RAwaitPake? {
        ReceiverPairsStep(c, st, a);
      } else {
        ReceiverConfirmsStep(c, st, a);
      }
    case RWrite => ReceiverWritesStep(c, st, a);
    case RInterrupt(_) =>
      if st.r.pc.RAwaitOffer? || st.r.pc.Prompt? {
        ReceiverCancelsStep(c, st, a);
      } else {
        ReceiverLeavesStep(c, st, a);
      }
    case RReceiveFailed(_) => ReceiverBreaksStep(c, st, a);
    case RFault => ReceiverBreaksStep(c, st, a);
    case RClosed => ReceiverClosesStep(c, st, a);
    case RLost => ReceiverClosesStep(c, st, a);
    case _ => ReceiverGoesOnStep(c, st, a);
  }

  lemma ReceiverKeepsInv(c: Setup, st: State, a: Act)
    requires Inv(c, st) && Enabled(st, a) && !a.Senders()
    ensures Inv(c, Apply(c, st, a))
  {
    OtherSide(c, st, a);
    ReceiverKeeps(c, st, a);
    SenderStays(c, st, Apply(c, st, a));
    Reached(c, st, a);
  }

  /** Nothing is written before the connection stands, and no more is read than was
      written. */
  lemma Reached(c: Setup, st: State, a: Act)
    requires Enabled(st, a) && !a.Senders()
    requires st.toR.read <= |st.toR.log| && (!st.dialed ==> st.toS.log == [] && (st.r.pc.Dial? || st.r.pc.REnded?))
    ensures var after := Apply(c, st, a);
      && after.toR.read <= |after.toR.log|
      && (!after.dialed ==> after.toS.log == [] && (after.r.pc.Dial? || after.r.pc.REnded?))
  {
  }

  lemma StepKeepsInv(c: Setup, st: State, a: Act)
    requires Inv(c, st) && Enabled(st, a)
    ensures Inv(c, Apply(c, st, a))
  {
    if a.Senders() {
      SenderKeepsInv(c, st, a);
    } else {
      ReceiverKeepsInv(c, st, a);
    }
  }

  lemma {:induction false} RunKeepsInv(c: Setup, st: State, acts: seq<Act>)
    requires Inv(c, st) && Run(c, st, acts)
    ensures Inv(c, After(c, st, acts))
    decreases acts
  {
    if acts == [] {
    } else {
      StepKeepsInv(c, st, acts[0]);
      RunKeepsInv(c, Apply(c, st, acts[0]), acts[1..]);
    }
  }

  // ----- theorems over every run ----------------------------------------------------------

  /** The sender completes only with totals that its files add up to, that the
      receiver's receive has returned, and that the receiver has written. */
  lemma SenderCompletedIsBacked(c: Setup, acts: seq<Act>)
    requires Run(c, Init(), acts)
    ensures var st := After(c, Init(), acts);
      st.s.pc.Ended? && st.s.pc.end.Completed? ==>
        var t := st.s.pc.end.totals;
        c.Accepts(t) && st.r.received == Some(t) && Result(t) in st.toS.log
        && !(st.r.pc.REnded? && (st.r.pc.end.RDeclined? || st.r.pc.end.RCancelled?))
  {
    RunKeepsInv(c, Init(), acts);
  }

  /** The receiver takes any end of the stream for the acknowledgement. Once it has
      completed and the sender has ended, the sender has completed as well if and only
      if it took the totals off the stream and they match. */
  lemma CompletionAcknowledged(c: Setup, acts: seq<Act>, t: Totals)
    requires Run(c, Init(), acts)
    requires var st := After(c, Init(), acts); st.r.pc == REnded(RCompleted(t)) && st.s.pc.Ended?
    ensures var st := After(c, Init(), acts);
      st.s.pc.end == SendEnd.Completed(t) <==> st.toS.Empty() && c.Accepts(t)
  {
    RunKeepsInv(c, Init(), acts);
    var st := After(c, Init(), acts);
    assert st.toS.log == ReceiverScript(c) + [Accept, Result(t)] && st.toS.log[4] == Result(t);
  }

  /** The sender reports a refusal only if the receiver has written one, and then no
      side has completed. */
  lemma SenderDeclinedIsBacked(c: Setup, acts: seq<Act>)
    requires Run(c, Init(), acts)
    ensures var st := After(c, Init(), acts);
      st.s.pc.Ended? && st.s.pc.end.Declined? ==>
        Decline(st.s.pc.end.reason) in st.toS.log
        && st.r.received.None?
        && (st.r.pc.REnded? ==> st.r.pc.end.RDeclined? || st.r.pc.end.RFailed?)
  {
    RunKeepsInv(c, Init(), acts);
  }

  /** On either side, completed and phase `Done` are the same thing, and no step
      asks the phase machine for a transition it refuses. */
  lemma CompletedIffDone(c: Setup, acts: seq<Act>)
    requires Run(c, Init(), acts)
    ensures var st := After(c, Init(), acts);
      && (st.s.phase == Done <==> st.s.pc.Ended? && st.s.pc.end.Completed?)
      && (st.r.phase == Done <==> st.r.pc.REnded? && st.r.pc.end.RCompleted?)
      && st.s.pc != Ended(SendEnd.Failed(BadTransition))
      && st.r.pc != REnded(RFailed(BadTransition))
  {
    RunKeepsInv(c, Init(), acts);
  }

  /** With different words neither side is ever paired, no offer is written, and the
      receive is never started, whatever faults and interrupts there are. */
  lemma DifferentWordsNeverPair(c: Setup, acts: seq<Act>)
    requires Run(c, Init(), acts) && c.senderWords != c.receiverWords
    ensures var st := After(c, Init(), acts);
      && st.s.phase == PendingPair
      && st.r.phase == Created
      && (forall f :: f in st.toR.log ==> !f.Offer?)
      && (forall f :: f in st.toS.log ==> !f.Accept? && !f.Result? && !f.Decline?)
      && st.r.received.None?
  {
    RunKeepsInv(c, Init(), acts);
  }
}
