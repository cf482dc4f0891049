// The control protocol between one sender (crates/cli/src/send/mod.rs and
// send/transfer.rs) and one receiver (crates/cli/src/receive.rs), with the pairing
// exchange of crates/cli/src/wire.rs: two sequential programs over two streams.
module Protocol {
  import opened Basics
  import opened Sessions
  import opened Control

  datatype Setup = Setup(senderWords: string, receiverWords: string, files: seq<FileMeta>, total: nat)
  {
    predicate Accepts(t: Totals) {
      ResultMatches(t.bytes, t.files, t.skippedBytes, t.skippedFiles, total, |files|)
    }
  }

  // ----- the two programs ---------------------------------------------------------

  datatype Problem =
    | Fault              // timeout, I/O error, acceptor gone
    | Closed             // the stream ended where a frame was due
    | Malformed          // a frame of the other format
    | VersionMismatch
    | WrongKind          // a frame the program point does not expect
    | ConfirmationMismatch
    | TotalsMismatch
    | ReceiveError
    | BadTransition

  datatype SendEnd = Completed(totals: Totals) | Declined(reason: string) | Cancelled | Failed(why: Problem)

  datatype SendPc =
    | AwaitConn
    | AwaitStream
    | AwaitHello
    | SendHello
    | AwaitPake
    | SendPake(peer: string)
    | AwaitConfirm(peer: string)
    | SendConfirm(peer: string, token: Key)
    | SendOffer
    | AwaitResponse
    | Transfer
    | Ended(end: SendEnd)

  datatype Sender = Sender(pc: SendPc, phase: Phase)
  {
    /** `session.transition(event)?` and on to `next`. */
    function Move(event: Event, next: SendPc): Sender {
      match Sessions.Next(phase, event)
      case Some(p) => Sender(next, p)
      case None => Fail(BadTransition)
    }

    function Fail(why: Problem): Sender {
      this.(pc := Ended(SendEnd.Failed(why)))
    }

    predicate Reading() {
      pc.AwaitHello? || pc.AwaitPake? || pc.AwaitConfirm? || pc.AwaitResponse? || pc.Transfer?
    }

    predicate Writing() {
      pc.SendHello? || pc.SendPake? || pc.SendConfirm? || pc.SendOffer?
    }
  }

  function SenderReads(c: Setup, s: Sender, f: Frame): Sender
    requires s.Reading()
  {
    match s.pc
    case AwaitPake =>
      (match f
       case Spake(words) => s.(pc := SendPake(words))
       case Confirm(_) => s.Fail(WrongKind)
       case _ => s.Fail(Malformed))
    case AwaitConfirm(peer) =>
      (match f
       case Confirm(key) => s.(pc := SendConfirm(peer, key))
       case Spake(_) => s.Fail(WrongKind)
       case _ => s.Fail(Malformed))
    case _ =>
      if f.Handshake() then s.Fail(Malformed)
      else if !f.Current() then s.Fail(VersionMismatch)
      else if s.pc.AwaitHello? then
        if f.Hello? then s.(pc := SendHello) else s.Fail(WrongKind)
      else
        match f
        case Cancel => s.Move(Event.Cancel, Ended(SendEnd.Cancelled))
        case Accept => if s.pc.AwaitResponse? then s.Move(TransferStarted, Transfer) else s.Fail(WrongKind)
        case Decline(reason) => if s.pc.AwaitResponse? then s.(pc := Ended(Declined(reason))) else s.Fail(WrongKind)
        case Result(totals) =>
          if s.pc.AwaitResponse? then s.Fail(WrongKind)
          else if !c.Accepts(totals) then s.Fail(TotalsMismatch)
          else s.Move(Event.Completed, Ended(SendEnd.Completed(totals)))
        case _ => s.Fail(WrongKind)
  }

  function SenderFrame(c: Setup, s: Sender): Frame
    requires s.Writing()
  {
    match s.pc
    case SendHello => Hello(VERSION)
    case SendPake(_) => Spake(c.senderWords)
    case SendConfirm(peer, _) => Confirm(Derive(c.senderWords, peer))
    case SendOffer => Offer(c.files, c.total)
  }

  function SenderWrote(c: Setup, s: Sender): Sender
    requires s.Writing()
  {
    match s.pc
    case SendHello => s.(pc := AwaitPake)
    case SendPake(peer) => s.(pc := AwaitConfirm(peer))
    case SendConfirm(peer, token) =>
      if token == Derive(c.senderWords, peer) then s.Move(PairConfirmed, SendOffer)
      else s.Fail(ConfirmationMismatch)
    case SendOffer => s.(pc := AwaitResponse)
  }

  datatype RecvEnd = RCompleted(totals: Totals) | RDeclined | RCancelled | RFailed(why: Problem)

  datatype RecvPc =
    | Dial
    | RSendHello
    | RAwaitHello
    | RSendPake
    | RAwaitPake
    | RSendConfirm(peer: string)
    | RAwaitConfirm(peer: string)
    | RAwaitOffer
    | Prompt
    | RSendDecline
    | AwaitCloseDecline
    | RSendAccept
    | Receiving
    | SendResult(totals: Totals)
    | AwaitCloseResult(totals: Totals)
    | REnded(end: RecvEnd)

  /** The session is created once the words are confirmed; until then the phase is
      `Created`. `received` is what the engine's receive has returned. */
  datatype Receiver = Receiver(pc: RecvPc, phase: Phase, received: Option<Totals>)
  {
    function Move(event: Event, next: RecvPc): Receiver {
      match Sessions.Next(phase, event)
      case Some(p) => this.(pc := next, phase := p)
      case None => Fail(BadTransition)
    }

    function Fail(why: Problem): Receiver {
      this.(pc := REnded(RFailed(why)))
    }

    predicate Reading() {
      pc.RAwaitHello? || pc.RAwaitPake? || pc.RAwaitConfirm? || pc.RAwaitOffer?
    }

    predicate Draining() {
      pc.AwaitCloseDecline? || pc.AwaitCloseResult?
    }

    predicate Writing() {
      pc.RSendHello? || pc.RSendPake? || pc.RSendConfirm? || pc.RSendDecline? || pc.RSendAccept? || pc.SendResult?
    }

    /** Where an interrupt is listened for; before the session exists it only ends
        the program. */
    predicate Interruptible() {
      || pc.Dial? || pc.RSendPake? || pc.RAwaitPake? || pc.RSendConfirm? || pc.RAwaitConfirm?
      || pc.RAwaitOffer? || pc.Prompt?
    }
  }

  function ReceiverReads(c: Setup, r: Receiver, f: Frame): Receiver
    requires r.Reading()
  {
    match r.pc
    case RAwaitPake =>
      (match f
       case Spake(words) => r.(pc := RSendConfirm(words))
       case Confirm(_) => r.Fail(WrongKind)
       case _ => r.Fail(Malformed))
    case RAwaitConfirm(peer) =>
      (match f
       case Confirm(key) =>
         if key == Derive(c.receiverWords, peer)
         then r.(phase := Created).Move(StartPairing, RAwaitOffer).Move(PairConfirmed, RAwaitOffer)
         else r.Fail(ConfirmationMismatch)
       case Spake(_) => r.Fail(WrongKind)
       case _ => r.Fail(Malformed))
    case _ =>
      if f.Handshake() then r.Fail(Malformed)
      else if !f.Current() then r.Fail(VersionMismatch)
      else if r.pc.RAwaitHello? then r.(pc := RSendPake)     // any control message will do
      else if f.Offer? then r.(pc := Prompt)
      else r.Fail(WrongKind)
  }

  function ReceiverFrame(c: Setup, r: Receiver): Frame
    requires r.Writing()
  {
    match r.pc
    case RSendHello => Hello(VERSION)
    case RSendPake => Spake(c.receiverWords)
    case RSendConfirm(peer) => Confirm(Derive(c.receiverWords, peer))
    case RSendDecline => Decline("user declined")
    case RSendAccept => Accept
    case SendResult(totals) => Result(totals)
  }

  function ReceiverWrote(r: Receiver): Receiver
    requires r.Writing()
  {
    match r.pc
    case RSendHello => r.(pc := RAwaitHello)
    case RSendPake => r.(pc := RAwaitPake)
    case RSendConfirm(peer) => r.(pc := RAwaitConfirm(peer))
    case RSendDecline => r.(pc := AwaitCloseDecline)
    case RSendAccept => r.Move(TransferStarted, Receiving)
    case SendResult(totals) => r.(pc := AwaitCloseResult(totals))
  }

  /** `await_peer_close` returned `Ok`. */
  function PeerClosed(r: Receiver): Receiver
    requires r.Draining()
  {
    match r.pc
    case AwaitCloseDecline => r.(pc := REnded(RDeclined))
    case AwaitCloseResult(totals) => r.Move(Event.Completed, REnded(RCompleted(totals)))
  }

  // ----- the product ----------------------------------------------------------------

  /** One direction of the stream: every frame written so far, and how many of them
      the other side has taken. */
  datatype Chan = Chan(log: seq<Frame>, read: nat)
  {
    predicate Empty() {
      read >= |log|
    }

    function Put(f: Frame): Chan {
      this.(log := log + [f])
    }

    function PutIf(delivered: bool, f: Frame): Chan {
      if delivered then Put(f) else this
    }
  }

  datatype State = State(s: Sender, r: Receiver, toR: Chan, toS: Chan, dialed: bool)

  function Init(): State {
    State(Sender(AwaitConn, PendingPair), Receiver(Dial, Created, None), Chan([], 0), Chan([], 0), false)
  }

  /** `delivered` says whether the best-effort Cancel made it into the stream. */
  datatype Act =
    | SConnect | SStream | SRead | SClosed | SWrite | SInterrupt(delivered: bool) | SFault
    | RDial | RRead | RDrain | RClosed | RWrite | RDecide(accept: bool)
    | RReceived(totals: Totals) | RReceiveFailed(delivered: bool)
    | RInterrupt(delivered: bool) | RLost | RFault
  {
    /** Steps that happen without anything going wrong and nobody interrupting. */
    predicate Ordinary() {
      !(SInterrupt? || SFault? || RInterrupt? || RLost? || RFault? || RReceiveFailed?)
    }

    predicate Senders() {
      SConnect? || SStream? || SRead? || SClosed? || SWrite? || SInterrupt? || SFault?
    }
  }

  predicate Enabled(st: State, a: Act) {
    match a
    case SConnect => st.s.pc.AwaitConn? && st.dialed
    case SStream => st.s.pc.AwaitStream? && st.toS.log != []
    case SRead => st.s.Reading() && !st.toS.Empty()
    case SClosed => (st.s.Reading() || st.s.pc.AwaitStream?) && st.toS.Empty() && st.r.pc.REnded?
    case SWrite => st.s.Writing()
    case SInterrupt(_) => st.s.pc.AwaitConn? || st.s.pc.AwaitResponse? || st.s.pc.Transfer?
    case SFault => !st.s.pc.Ended?
    case RDial => st.r.pc.Dial?
    case RRead => st.r.Reading() && !st.toR.Empty()
    case RDrain => st.r.Draining() && !st.toR.Empty()
    case RClosed => (st.r.Reading() || st.r.Draining()) && st.toR.Empty() && st.s.pc.Ended?
    case RWrite => st.r.Writing()
    case RDecide(_) => st.r.pc.Prompt?
    case RReceived(_) => st.r.pc.Receiving?
    case RReceiveFailed(_) => st.r.pc.Receiving?
    case RInterrupt(_) => st.r.Interruptible()
    case RLost => st.r.Draining()
    case RFault => !st.r.pc.REnded?
  }

  function Apply(c: Setup, st: State, a: Act): State
    requires Enabled(st, a)
  {
    match a
    case SConnect => st.(s := st.s.(pc := AwaitStream))
    case SStream => st.(s := st.s.(pc := AwaitHello))
    case SRead => st.(s := SenderReads(c, st.s, st.toS.log[st.toS.read]), toS := st.toS.(read := st.toS.read + 1))
    case SClosed => st.(s := st.s.Fail(Closed))
    case SWrite => st.(s := SenderWrote(c, st.s), toR := st.toR.Put(SenderFrame(c, st.s)))
    case SInterrupt(delivered) =>
      if st.s.pc.AwaitConn? then st.(s := st.s.(pc := Ended(SendEnd.Cancelled)))
      else st.(s := st.s.Move(Event.Cancel, Ended(SendEnd.Cancelled)), toR := st.toR.PutIf(delivered, Frame.Cancel))
    case SFault => st.(s := st.s.Fail(Fault))
    case RDial => st.(r := st.r.(pc := RSendHello), dialed := true)
    case RRead => st.(r := ReceiverReads(c, st.r, st.toR.log[st.toR.read]), toR := st.toR.(read := st.toR.read + 1))
    case RDrain => st.(toR := st.toR.(read := st.toR.read + 1))
    case RClosed => if st.r.Draining() then st.(r := PeerClosed(st.r)) else st.(r := st.r.Fail(Closed))
    case RWrite => st.(r := ReceiverWrote(st.r), toS := st.toS.Put(ReceiverFrame(c, st.r)))
    case RDecide(accept) => st.(r := st.r.(pc := if accept then RSendAccept else RSendDecline))
    case RReceived(totals) => st.(r := st.r.(pc := SendResult(totals), received := Some(totals)))
    case RReceiveFailed(delivered) =>
      st.(r := st.r.Move(Event.Cancel, REnded(RFailed(ReceiveError))), toS := st.toS.PutIf(delivered, Frame.Cancel))
    case RInterrupt(delivered) =>
      if st.r.pc.Dial? then st.(r := st.r.(pc := REnded(RCancelled)))
      else st.(r := if st.r.pc.RAwaitOffer? || st.r.pc.Prompt? then st.r.Move(Event.Cancel, REnded(RCancelled))
                    else st.r.(pc := REnded(RCancelled)),
               toS := st.toS.PutIf(delivered, Frame.Cancel))
    case RLost => st.(r := PeerClosed(st.r))
    case RFault => st.(r := st.r.Fail(Fault))
  }

  /** A run: each step is enabled where it is taken. */
  predicate Run(c: Setup, st: State, acts: seq<Act>)
    decreases acts
  {
    acts == [] || (Enabled(st, acts[0]) && Run(c, Apply(c, st, acts[0]), acts[1..]))
  }

  function After(c: Setup, st: State, acts: seq<Act>): State
    requires Run(c, st, acts)
    decreases acts
  {
    if acts == [] then st else After(c, Apply(c, st, acts[0]), acts[1..])
  }
}
