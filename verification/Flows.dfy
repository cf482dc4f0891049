// The event-driven session flows behind the graphical client: one task per session
// takes commands off a channel, drives the session, and tells the watchers
// (flutter/rust/src/api/flows.rs, flutter/rust/src/api/session.rs).
module Flows {
  import opened Basics
  import opened Sessions
  import P = Control

  datatype Stage = Idle | AwaitingPeer | OfferPending | Moving | Over

  datatype Command = Prepare | Claim | Accept | Decline(reason: string) | Cancel

  /** A reply, and the command it goes to, by the order in which they were taken. */
  datatype Answer = Answer(to: nat, ok: bool)

  datatype BridgeEvent =
    | PhaseEvent(phase: Phase)
    | ErrorEvent
    | InfoEvent
    | ProgressEvent
    | ServedEvent(served: nat, total: nat)
    | SkippedEvent(files: nat, bytes: nat)
    | DoneEvent(bytes: nat, files: nat)
    | CancelledEvent

  /** What was told to the peer, and in which phase. */
  datatype Sent = Sent(frame: P.Frame, phase: Phase)

  /** What the flow owes the outside when it ends. */
  datatype Duty = Cleanup | Shutdown

  datatype Ending = Completed | Cancelled | Failed | Declined | Disposed | Unprepared | Refused

  datatype Role = Sender | Receiver

  /** The commands that the calls of the interface let through: a sender's are
      preparations and cancels, and a receiver that begins with a claim never claims
      again. */
  predicate Ordered(role: Role, cmds: seq<Command>) {
    if role == Sender then
      forall i :: 0 <= i < |cmds| ==> (cmds[i] == Prepare || cmds[i] == Command.Cancel)
    else
      cmds != [] ==>
        && (cmds[0] == Claim || cmds[0] == Command.Cancel)
        && (cmds[0] == Claim ==> forall i :: 1 <= i < |cmds| ==> cmds[i].Accept? || cmds[i].Decline? || cmds[i].Cancel?)
  }

  /** What came of taking a command. */
  datatype Heard = Closed | CancelHeard | Rejected

  // ----- what the watchers see ----------------------------------------------------------

  /** The phases that the events tell of; a session starts in `Created` unannounced. */
  function Phases(events: seq<BridgeEvent>): seq<Phase> {
    if events == [] then [Created]
    else
      var last := events[|events| - 1];
      var earlier := Phases(events[..|events| - 1]);
      if last.PhaseEvent? then earlier + [last.phase] else earlier
  }

  function ServedCounts(events: seq<BridgeEvent>): seq<nat> {
    if events == [] then []
    else
      var last := events[|events| - 1];
      var earlier := ServedCounts(events[..|events| - 1]);
      if last.ServedEvent? then earlier + [last.served] else earlier
  }

  predicate Increasing(s: seq<nat>) {
    forall i, j :: 0 <= i < j < |s| ==> s[i] < s[j]
  }

  predicate Nondecreasing(s: seq<nat>) {
    forall i, j :: 0 <= i < j < |s| ==> s[i] <= s[j]
  }

  predicate LastShown(events: seq<BridgeEvent>, last: BridgeEvent) {
    |events| >= 1 && events[|events| - 1] == last
  }

  /** The last two events, one after the other. */
  predicate Closing(events: seq<BridgeEvent>, first: BridgeEvent, last: BridgeEvent) {
    |events| >= 2 && events[|events| - 2] == first && events[|events| - 1] == last
  }

  /** In which phase and stage each way of ending leaves the session, and what the
      watchers see last. A declined, disposed, unprepared or refused session is left
      short of a final phase; one whose preparation failed even looks idle again. */
  predicate Leaves(ending: Ending, phase: Phase, stage: Stage, before: Stage, events: seq<BridgeEvent>) {
    match ending
    case Completed =>
      && phase == Phase.Done && stage == Over
      && |events| >= 2 && events[|events| - 2] == PhaseEvent(Phase.Done) && events[|events| - 1].DoneEvent?
    case Cancelled =>
      && phase == Phase.Cancelled && stage == Over
      && (Closing(events, PhaseEvent(Phase.Cancelled), CancelledEvent) || Closing(events, PhaseEvent(Phase.Cancelled), ErrorEvent))
    case Failed => phase == Phase.Failed && stage == Over && Closing(events, ErrorEvent, PhaseEvent(Phase.Failed))
    case Declined => phase == Paired && stage == Over && (LastShown(events, InfoEvent) || LastShown(events, ErrorEvent))
    case Unprepared => phase == PendingPair && stage == Idle && LastShown(events, ErrorEvent)
    case Disposed => (phase == Created || phase == PendingPair || phase == Paired) && stage in {before, AwaitingPeer}
    case Refused => (phase == Created || phase == Paired) && stage in {before, OfferPending}
  }

  /** How the first commands of a session were answered: those of `plan` came first
      and were granted; of the others exactly a cancel was granted, and a cancel was
      the last command taken and ended the flow. */
  predicate Handled(cmds: seq<Command>, answers: seq<Answer>, plan: seq<Command>, cancelled: bool) {
    && |plan| <= |answers| <= |cmds|
    && (forall i :: 0 <= i < |plan| ==> cmds[i] == plan[i] && answers[i].ok)
    && forall i :: |plan| <= i < |answers| ==>
         && (answers[i].ok <==> cmds[i] == Command.Cancel)
         && (cmds[i] == Command.Cancel ==> i == |answers| - 1 && cancelled)
  }

  predicate CancelGranted(cmds: seq<Command>, answers: seq<Answer>) {
    exists i :: 0 <= i < |answers| && i < |cmds| && cmds[i] == Command.Cancel && answers[i].ok
  }

  /** A cancel is granted exactly if it is the last command that was taken. */
  lemma GrantedCancel(cmds: seq<Command>, answers: seq<Answer>, plan: seq<Command>, cancelled: bool)
    requires Handled(cmds, answers, plan, cancelled) && Command.Cancel !in plan
    ensures CancelGranted(cmds, answers) <==> answers != [] && cmds[|answers| - 1] == Command.Cancel
  {
    assert forall k :: 0 <= k < |plan| ==> cmds[k] == plan[k] && plan[k] in plan;
  }

  predicate Matches(message: Option<P.Frame>, total: nat, fileCount: nat) {
    && message.Some? && message.value.Result?
    && var t := message.value.totals;
       P.ResultMatches(t.bytes, t.files, t.skippedBytes, t.skippedFiles, total, fileCount)
  }

  class Flow {
    const session: Session
    var stage: Stage
    /** The commands that arrive before the session is disposed of, and how many of
        them were taken off the channel. */
    const cmds: seq<Command>
    var taken: nat
    /** What the control stream delivers, frames or failed reads, and how many reads
        there were. */
    const incoming: seq<Option<P.Frame>>
    var read: nat
    var answers: seq<Answer>
    var events: seq<BridgeEvent>
    var duties: seq<Duty>
    /** What the flow tried to tell its peer. */
    var outbox: seq<Sent>

    ghost predicate Fresh()
      reads this, session
    {
      && session.Valid() && session.phase == Created && session.history == [Created]
      && answers == [] && events == [] && duties == [] && outbox == [] && taken == 0 && read == 0
    }

    /** The phases shown to the watchers are those the session went through. */
    ghost predicate Tracks()
      reads this`events, session
    {
      session.Valid() && Phases(events) == session.history
    }

    /** Every command taken, but for the last `open`, has one reply, and no other
        reply was given. */
    ghost predicate Answered(open: nat)
      reads this`answers, this`taken
    {
      && |answers| + open == taken <= |cmds|
      && forall i :: 0 <= i < |answers| ==> answers[i].to == i
    }

    /** What holds at the end of a sender's flow that published its pairing: every
        command has its reply, the watchers saw every phase, and the messages of the
        receiver were heeded. */
    ghost predicate Concluded(ended: Ending, total: nat, fileCount: nat, baseline: nat, readings: seq<nat>, plan: seq<Command>)
      reads this`answers, this`taken, this`events, this`stage, session
    {
      && Tracks() && Answered(0)
      && Handled(cmds, answers, plan, ended == Ending.Cancelled)
      && Leaves(ended, session.phase, stage, AwaitingPeer, events) && (ended != Unprepared && ended != Refused)
      && ServedWell(ServedCounts(events), readings, baseline, total)
    }

    constructor (cmds: seq<Command>, incoming: seq<Option<P.Frame>>, stage: Stage)
      ensures Fresh() && fresh(session)
      ensures this.cmds == cmds && this.incoming == incoming && this.stage == stage
    {
      session := new Session();
      this.stage, this.cmds, this.incoming := stage, cmds, incoming;
      answers, events, duties, outbox, taken, read := [], [], [], [], 0, 0;
    }

    // ----- single effects -------------------------------------------------------------

    /** The next command, or `None` once the session was disposed of. */
    method Take() returns (cmd: Option<Command>)
      requires Answered(0)
      modifies this`taken
      ensures cmd.None? ==> old(taken) == |cmds| && taken == old(taken) && Answered(0)
      ensures cmd.Some? ==> old(taken) < |cmds| && cmd.value == cmds[old(taken)] && taken == old(taken) + 1 && Answered(1)
    {
      if taken == |cmds| {
        return None;
      }
      cmd := Some(cmds[taken]);
      taken := taken + 1;
    }

    method Reply(ok: bool)
      requires Answered(1)
      modifies this`answers
      ensures Answered(0)
      ensures answers == old(answers) + [Answer(|old(answers)|, ok)]
    {
      answers := answers + [Answer(|answers|, ok)];
    }

    method Emit(event: BridgeEvent)
      modifies this`events
      ensures events == old(events) + [event]
      ensures if event.PhaseEvent? then Phases(events) == Phases(old(events)) + [event.phase]
              else Phases(events) == Phases(old(events))
      ensures if event.ServedEvent? then ServedCounts(events) == ServedCounts(old(events)) + [event.served]
              else ServedCounts(events) == ServedCounts(old(events))
    {
      assert (events + [event])[..|events|] == events;
      events := events + [event];
    }

    method Send(frame: P.Frame) returns (ok: bool)
      modifies this`outbox
      ensures outbox == old(outbox) + [Sent(frame, session.phase)]
    {
      outbox := outbox + [Sent(frame, session.phase)];
      ok := *;
    }

    /** The next control message, or `None` for a failed read. */
    method Read() returns (message: Option<P.Frame>)
      modifies this`read
      ensures read == old(read) + 1 && message == MessageAt(incoming, old(read))
    {
      message := if read < |incoming| then incoming[read] else None;
      read := read + 1;
      if message.Some? && message.value.Handshake() {
        message := None;
      }
    }

    /** A step of the session with the event that announces it. */
    method Enter(event: Event, phase: Phase)
      requires Tracks() && Next(session.phase, event) == Some(phase)
      modifies this`events, session
      ensures Tracks() && session.phase == phase && session.history == old(session.history) + [phase]
      ensures session.cancelled == old(session.cancelled)
      ensures LastShown(events, PhaseEvent(phase)) && ServedCounts(events) == ServedCounts(old(events))
    {
      var next := session.Transition(event);
      assert next.Some?;  // so the error branch after it is never taken
      Emit(PhaseEvent(phase));
    }

    /** End in `Failed`. */
    method FinishFailed()
      requires session.Valid()
      modifies this`events, this`stage, session
      ensures session.Valid() && stage == Over
      ensures session.phase == if old(session.phase).Terminal() then old(session.phase) else Phase.Failed
      ensures old(Tracks()) && !old(session.phase).Terminal() ==> Tracks()
      ensures ServedCounts(events) == ServedCounts(old(events))
      ensures |events| == |old(events)| + 1 && LastShown(events, PhaseEvent(Phase.Failed)) && old(events) <= events
    {
      var _ := session.Transition(Event.Fail);
      Emit(PhaseEvent(Phase.Failed));
      stage := Over;
    }

    /** Report an error and end in `Failed`. */
    method Abort()
      requires Tracks() && !session.phase.Terminal()
      modifies this`events, this`stage, session
      ensures Tracks() && session.phase == Phase.Failed && stage == Over
      ensures Closing(events, ErrorEvent, PhaseEvent(Phase.Failed)) && ServedCounts(events) == ServedCounts(old(events))
    {
      Emit(ErrorEvent);
      FinishFailed();
    }

    /** End in `Cancelled`, and confirm it to the command that asked for it, if it
        was a command. A session that is over already stays as it is. */
    method CancelFlow(asked: bool)
      requires session.Valid() && Answered(if asked then 1 else 0)
      modifies this`events, this`stage, this`answers, session
      ensures session.Valid() && stage == Over && Answered(0)
      ensures session.phase == if old(session.phase).Terminal() then old(session.phase) else Phase.Cancelled
      ensures old(Tracks()) && !old(session.phase).Terminal() ==> Tracks()
      ensures Closing(events, PhaseEvent(Phase.Cancelled), CancelledEvent)
      ensures ServedCounts(events) == ServedCounts(old(events))
      ensures answers == if asked then old(answers) + [Answer(|old(answers)|, true)] else old(answers)
    {
      var _ := session.Cancel();
      Emit(PhaseEvent(Phase.Cancelled));
      Emit(CancelledEvent);
      stage := Over;
      if asked {
        Reply(true);
      }
    }

    /** Take a command while something else is waited for. A cancel ends the flow,
        and with `tell` the peer hears of it first; any other command is rejected. */
    method OnCommand(tell: bool, ghost plan: seq<Command>) returns (heard: Heard)
      requires Tracks() && !session.phase.Terminal() && Answered(0) && Handled(cmds, answers, plan, false)
      modifies this`taken, this`answers, this`events, this`stage, this`outbox, session
      ensures Tracks() && Answered(0) && Handled(cmds, answers, plan, heard == CancelHeard)
      ensures taken == old(taken) + (if old(taken) < |cmds| then 1 else 0) && (heard == Rejected ==> old(taken) < taken)
      ensures heard == Closed ==> taken == |cmds|
      ensures heard == CancelHeard ==> session.phase == Phase.Cancelled && stage == Over
      ensures heard != CancelHeard ==> session.phase == old(session.phase) && stage == old(stage)
      ensures heard == CancelHeard ==> Closing(events, PhaseEvent(Phase.Cancelled), CancelledEvent)
      ensures outbox == if heard == CancelHeard && tell then old(outbox) + [Sent(P.Frame.Cancel, old(session.phase))] else old(outbox)
      ensures ServedCounts(events) == ServedCounts(old(events))
    {
      var cmd := Take();
      if cmd.None? {
        return Closed;
      } else if cmd.value != Command.Cancel {
        Reply(false);
        return Rejected;
      }
      if tell {
        var _ := Send(P.Frame.Cancel);
      }
      CancelFlow(true);
      heard := CancelHeard;
    }

    /** Take the command that has to be the first. A cancel may come in its place; any
        other command is rejected and ends the flow. */
    method FirstCommand(wanted: Command) returns (ended: Option<Ending>)
      requires Fresh() && wanted != Command.Cancel
      modifies this`taken, this`answers, this`events, this`stage, session
      ensures Tracks() && ServedCounts(events) == []
      ensures ended.None? <==> cmds != [] && cmds[0] == wanted
      ensures ended.None? ==> session.phase == Created && taken == 1 && answers == [] && Answered(1)
      ensures ended.Some? ==> Answered(0) && Handled(cmds, answers, [], ended.value == Ending.Cancelled) && taken <= 1
      ensures ended == Some(Ending.Cancelled) ==> cmds != [] && cmds[0] == Command.Cancel
      ensures ended.Some? ==> Leaves(ended.value, session.phase, stage, old(stage), events)
      ensures ended.Some? ==> (ended.value == Disposed || ended.value == Ending.Cancelled || ended.value == Refused)
      ensures ended == Some(Disposed) ==> cmds == []
      ensures ended == Some(Refused) ==> cmds != [] && cmds[0] !in {wanted, Command.Cancel}
    {
      var first := Take();
      if first.None? {
        return Some(Disposed);
      }
      if first.value == Command.Cancel {
        CancelFlow(true);
        return Some(Ending.Cancelled);
      }
      if first.value != wanted {
        Reply(false);
        return Some(Refused);
      }
      ended := None;
    }

    /** Take a command during the transfer, where disposal cancels as well. */
    method OnTransferCommand(ghost plan: seq<Command>) returns (over: bool)
      requires Tracks() && session.phase == Transferring
      requires Answered(0) && Handled(cmds, answers, plan, false)
      modifies this`taken, this`answers, this`events, this`stage, this`outbox, session
      ensures Tracks() && Answered(0) && Handled(cmds, answers, plan, over)
      ensures taken == old(taken) + if old(taken) < |cmds| then 1 else 0
      ensures over ==> session.phase == Phase.Cancelled && stage == Over
      ensures !over ==> session.phase == Transferring && stage == old(stage) && old(taken) < taken
      ensures over ==> Closing(events, PhaseEvent(Phase.Cancelled), CancelledEvent)
      ensures outbox == if over then old(outbox) + [Sent(P.Frame.Cancel, Transferring)] else old(outbox)
      ensures ServedCounts(events) == ServedCounts(old(events))
    {
      var heard := OnCommand(true, plan);
      if heard == Closed {
        var _ := Send(P.Frame.Cancel);
        CancelFlow(false);
      }
      over := heard != Rejected;
    }

    /** The last thing a sender's flow does: release a published pairing, and shut
        the engine down. */
    method FinishSenderFlow(code: bool)
      modifies this`duties
      ensures duties == old(duties) + (if code then [Cleanup] else []) + [Shutdown]
    {
      if code {
        duties := duties + [Cleanup];
      }
      duties := duties + [Shutdown];
    }

    /** The same once the flow is through with a published pairing. */
    method Conclude(ghost ended: Ending, ghost total: nat, ghost fileCount: nat, ghost baseline: nat,
                    ghost readings: seq<nat>, ghost plan: seq<Command>)
      requires Concluded(ended, total, fileCount, baseline, readings, plan)
      modifies this`duties
      ensures Concluded(ended, total, fileCount, baseline, readings, plan)
      ensures duties == old(duties) + [Cleanup, Shutdown]
    {
      FinishSenderFlow(true);
    }

    /** End in `Done`. */
    method Succeed(t: P.Totals)
      requires Tracks() && session.phase == Transferring
      modifies this`events, this`stage, session
      ensures Tracks() && session.phase == Phase.Done && stage == Over
      ensures Closing(events, PhaseEvent(Phase.Done), DoneEvent(t.bytes, t.files))
      ensures t.skippedFiles > 0 ==> |events| >= 3 && events[|events| - 3] == SkippedEvent(t.skippedFiles, t.skippedBytes)
      ensures ServedCounts(events) == ServedCounts(old(events))
    {
      var next := session.Transition(Event.Completed);
      assert next.Some?;
      if t.skippedFiles > 0 {
        Emit(SkippedEvent(t.skippedFiles, t.skippedBytes));
      }
      Emit(PhaseEvent(Phase.Done));
      Emit(DoneEvent(t.bytes, t.files));
      stage := Over;
    }

    // ----- the sender -----------------------------------------------------------------

    /** Wait for the receiver's connection, or for a cancel. */
    method WaitForReceiver(ghost plan: seq<Command>) returns (ended: Option<Ending>)
      requires Tracks() && session.phase == PendingPair
      requires Answered(0) && Handled(cmds, answers, plan, false)
      modifies this`taken, this`answers, this`events, this`stage, this`outbox, session
      ensures Tracks() && Answered(0)
      ensures Handled(cmds, answers, plan, ended == Some(Ending.Cancelled))
      ensures ended.None? ==> session.phase == PendingPair && stage == old(stage)
      ensures ended.Some? ==> Leaves(ended.value, session.phase, stage, old(stage), events)
      ensures ended.Some? ==> (ended.value == Disposed || ended.value == Ending.Cancelled || ended.value == Ending.Failed)
      ensures ServedCounts(events) == ServedCounts(old(events)) && outbox == old(outbox)
    {
      while true
        invariant Tracks() && Answered(0) && session.phase == PendingPair && stage == old(stage)
        invariant Handled(cmds, answers, plan, false) && outbox == old(outbox)
        invariant ServedCounts(events) == ServedCounts(old(events))
        decreases |cmds| - taken
      {
        if
        case true =>
          var heard := OnCommand(false, plan);
          match heard {
            case Closed => return Some(Disposed);
            case CancelHeard => return Some(Ending.Cancelled);
            case Rejected =>
          }
        case true =>
          var connected := *;
          if !connected {
            Abort();
            return Some(Ending.Failed);
          }
          return None;
      }
    }

    /** Wait for the receiver's answer to the offer, or for a cancel. */
    method WaitResponse(ghost plan: seq<Command>) returns (response: Option<P.Frame>, ended: Ending)
      requires Tracks() && session.phase == Paired
      requires Answered(0) && Handled(cmds, answers, plan, false)
      modifies this`taken, this`answers, this`events, this`stage, this`read, this`outbox, session
      ensures Tracks() && Answered(0)
      ensures Handled(cmds, answers, plan, response.None? && ended == Ending.Cancelled)
      ensures response.Some? ==> session.phase == Paired && stage == old(stage)
      ensures response.None? ==> Leaves(ended, session.phase, stage, old(stage), events)
      ensures response.None? ==> (ended == Disposed || ended == Ending.Cancelled || ended == Ending.Failed)
      ensures read == old(read) + if response.Some? || ended == Ending.Failed then 1 else 0
      ensures response.Some? || ended == Ending.Failed ==> response == MessageAt(incoming, old(read))
      ensures outbox == if response.None? && ended == Ending.Cancelled then old(outbox) + [Sent(P.Frame.Cancel, Paired)] else old(outbox)
      ensures ServedCounts(events) == ServedCounts(old(events))
    {
      response := None;
      while true
        invariant Tracks() && Answered(0) && session.phase == Paired && stage == old(stage) && response.None?
        invariant read == old(read)
        invariant Handled(cmds, answers, plan, false) && outbox == old(outbox)
        invariant ServedCounts(events) == ServedCounts(old(events))
        decreases |cmds| - taken
      {
        if
        case true =>
          var heard := OnCommand(true, plan);
          match heard {
            case Closed => return None, Disposed;
            case CancelHeard => return None, Ending.Cancelled;
            case Rejected =>
          }
        case true =>
          response := Read();
          if response.None? {
            Abort();
          }
          return response, Ending.Failed;
      }
    }

    /** A message during the transfer: the receiver's totals are judged, its cancel
        ends the flow, and anything else is only reported. */
    method OnMessage(total: nat, fileCount: nat) returns (ended: Option<Ending>)
      requires Tracks() && Answered(0) && session.phase == Transferring
      modifies this`answers, this`events, this`stage, this`read, session
      ensures Tracks() && Answered(0) && answers == old(answers)
      ensures read == old(read) + 1 && ended == Verdict(MessageAt(incoming, old(read)), total, fileCount)
      ensures ended.None? ==> session.phase == Transferring && stage == old(stage) && old(read) < |incoming|
      ensures ended.None? ==> LastShown(events, ErrorEvent)
      ensures ended.Some? ==> Leaves(ended.value, session.phase, stage, old(stage), events)
      ensures ended == Some(Ending.Completed) ==> DoneShown(events, MessageAt(incoming, old(read)))
      ensures ServedCounts(events) == ServedCounts(old(events))
    {
      var seen := Read();
      if seen.None? {
        Abort();
        return Some(Ending.Failed);
      }
      var message := seen.value;
      if message.Result? {
        if !Matches(seen, total, fileCount) {
          Abort();
          return Some(Ending.Failed);
        }
        Succeed(message.totals);
        ended := Some(Ending.Completed);
      } else if message == P.Frame.Cancel {
        CancelFlow(false);
        ended := Some(Ending.Cancelled);
      } else {
        Emit(ErrorEvent);
        ended := None;
      }
    }

    /** Show the count of served bytes if it has changed. */
    method OnTick(readings: seq<nat>, tick: nat, lastServed: nat, baseline: nat, total: nat) returns (served: nat)
      requires Tracks() && tick < |readings|
      requires ServedSoFar(ServedCounts(events), readings, tick, lastServed, baseline, total)
      modifies this`events
      ensures Tracks()
      ensures ServedSoFar(ServedCounts(events), readings, tick + 1, served, baseline, total)
    {
      served := Reading(readings[tick], baseline, total);
      ServedStep(ServedCounts(events), readings, tick, lastServed, baseline, total);
      if served != lastServed {
        Emit(ServedEvent(served, total));
      }
    }

    /** One turn of serving the receiver: a command, a message, or a tick of the clock. */
    method TransferTurn(baseline: nat, total: nat, fileCount: nat, readings: seq<nat>, lastServed: nat, tick: nat, ghost plan: seq<Command>)
      returns (ended: Option<Ending>, last: nat, next: nat)
      requires Tracks() && session.phase == Transferring && Answered(0) && Handled(cmds, answers, plan, false)
      requires ServedSoFar(ServedCounts(events), readings, tick, lastServed, baseline, total)
      modifies this`taken, this`answers, this`events, this`stage, this`read, this`outbox, session
      ensures Tracks() && Answered(0) && Handled(cmds, answers, plan, ended == Some(Ending.Cancelled))
      ensures ServedSoFar(ServedCounts(events), readings, next, last, baseline, total) && tick <= next
      ensures ended.None? ==> session.phase == Transferring && outbox == old(outbox)
      ensures ended.None? ==> old(taken) < taken || (old(read) < read && old(read) < |incoming|) || tick < next
      ensures ended.Some? ==> Leaves(ended.value, session.phase, stage, AwaitingPeer, events)
      ensures read == old(read) || (read == old(read) + 1 && outbox == old(outbox) &&
                                    ended == Verdict(MessageAt(incoming, old(read)), total, fileCount))
      ensures ended.Some? && read == old(read) ==>
                ended.value == Ending.Cancelled && outbox == old(outbox) + [Sent(P.Frame.Cancel, Transferring)]
      ensures ended == Some(Ending.Completed) ==> DoneShown(events, MessageAt(incoming, old(read)))
      ensures old(taken) <= taken
    {
      ended, last, next := None, lastServed, tick;
      if
      case true =>
        var over := OnTransferCommand(plan);
        if over {
          ended := Some(Ending.Cancelled);
        }
      case true =>
        ended := OnMessage(total, fileCount);
      case tick < |readings| =>
        last := OnTick(readings, tick, lastServed, baseline, total);
        next := tick + 1;
    }

    /** Serve the receiver. `readings` are the engine's counts of served bytes, one
        per tick of the clock. */
    method TransferPhase(baseline: nat, total: nat, fileCount: nat, readings: seq<nat>, ghost plan: seq<Command>)
      returns (ended: Ending)
      requires Tracks() && session.phase == Transferring && stage == Moving && ServedCounts(events) == []
      requires Answered(0) && Handled(cmds, answers, plan, false)
      modifies this`taken, this`answers, this`events, this`stage, this`read, this`outbox, session
      ensures Tracks() && Answered(0)
      ensures Handled(cmds, answers, plan, ended == Ending.Cancelled)
      ensures Leaves(ended, session.phase, stage, AwaitingPeer, events)
      ensures outbox == old(outbox) || (ended == Ending.Cancelled && outbox == old(outbox) + [Sent(P.Frame.Cancel, Transferring)])
      ensures Judged(incoming, old(read), read, ended, |outbox| > |old(outbox)|, total, fileCount)
      ensures ended == Ending.Completed ==> read > 0 && DoneShown(events, MessageAt(incoming, read - 1))
      ensures ServedWell(ServedCounts(events), readings, baseline, total)
    {
      var lastServed: nat, tick: nat, over := 0, 0, None;
      while true
        invariant Tracks() && Answered(0) && session.phase == Transferring
        invariant Handled(cmds, answers, plan, false) && outbox == old(outbox)
        invariant old(read) <= read && Undecided(incoming, old(read), read, total, fileCount)
        invariant ServedSoFar(ServedCounts(events), readings, tick, lastServed, baseline, total)
        decreases |cmds| - taken + (if read < |incoming| then |incoming| - read else 0) + |readings| - tick
      {
        ghost var before := read;
        over, lastServed, tick := TransferTurn(baseline, total, fileCount, readings, lastServed, tick, plan);
        NextMessage(incoming, old(read), before, read, over, total, fileCount);
        if over.Some? {
          ServedNow(ServedCounts(events), readings, tick, lastServed, baseline, total);
          return over.value;
        }
      }
    }

    /** Open the control stream, exchange hellos and confirm the key. */
    method PairWithReceiver() returns (ok: bool)
      requires Tracks() && session.phase == PendingPair && outbox == []
      modifies this`events, this`stage, this`outbox, session
      ensures Tracks()
      ensures ok ==> session.phase == Paired && stage == old(stage)
      ensures !ok ==> Leaves(Ending.Failed, session.phase, stage, stage, events)
      ensures outbox == [Sent(P.Hello(P.VERSION), PendingPair)] || (!ok && outbox == [])
      ensures ServedCounts(events) == ServedCounts(old(events))
    {
      var greeted := *;
      if !greeted {
        Abort();
        return false;
      }
      var sent := Send(P.Hello(P.VERSION));
      var confirmed := *;
      if !sent || !confirmed {
        Abort();
        return false;
      }
      Enter(PairConfirmed, Paired);
      Emit(InfoEvent);
      ok := true;
    }

    /** The receiver accepted. */
    method StartTransfer(total: nat, fileCount: nat, baseline: nat, readings: seq<nat>, ghost plan: seq<Command>)
      returns (ended: Ending)
      requires Tracks() && session.phase == Paired && ServedCounts(events) == []
      requires Answered(0) && Handled(cmds, answers, plan, false)
      modifies this`taken, this`answers, this`events, this`stage, this`read, this`outbox, session
      ensures Concluded(ended, total, fileCount, baseline, readings, plan)
      ensures outbox == old(outbox) || (ended == Ending.Cancelled && outbox == old(outbox) + [Sent(P.Frame.Cancel, Transferring)])
      ensures Judged(incoming, old(read), read, ended, |outbox| > |old(outbox)|, total, fileCount)
      ensures ended == Ending.Completed ==> read > 0 && DoneShown(events, MessageAt(incoming, read - 1))
    {
      Enter(TransferStarted, Transferring);
      stage := Moving;
      ended := TransferPhase(baseline, total, fileCount, readings, plan);
    }

    /** The receiver did anything but accept. */
    method EndAtResponse(response: P.Frame, ghost plan: seq<Command>) returns (ended: Ending)
      requires Tracks() && session.phase == Paired
      requires Answered(0) && Handled(cmds, answers, plan, false)
      modifies this`answers, this`events, this`stage, session
      ensures Tracks() && Answered(0) && Handled(cmds, answers, plan, ended == Ending.Cancelled)
      ensures Leaves(ended, session.phase, stage, AwaitingPeer, events)
      ensures ended == if response.Decline? then Declined
                       else if response == P.Frame.Cancel then Ending.Cancelled else Ending.Failed
      ensures ServedCounts(events) == ServedCounts(old(events))
    {
      if response.Decline? {
        Emit(InfoEvent);
        stage := Over;
        ended := Declined;
      } else if response == P.Frame.Cancel {
        CancelFlow(false);
        ended := Ending.Cancelled;
      } else {
        Abort();
        ended := Ending.Failed;
      }
    }

    /** What the receiver's answer to the offer leads to. */
    method FollowResponse(response: P.Frame, total: nat, fileCount: nat, baseline: nat, readings: seq<nat>, ghost plan: seq<Command>)
      returns (ended: Ending)
      requires Tracks() && session.phase == Paired && stage == AwaitingPeer && ServedCounts(events) == []
      requires Answered(0) && Handled(cmds, answers, plan, false)
      modifies this`taken, this`answers, this`events, this`stage, this`read, this`outbox, this`duties, session
      ensures Concluded(ended, total, fileCount, baseline, readings, plan)
      ensures duties == old(duties) + [Cleanup, Shutdown]
      ensures outbox == old(outbox) || (ended == Ending.Cancelled && outbox == old(outbox) + [Sent(P.Frame.Cancel, Transferring)])
      ensures Followed(incoming, Some(response), old(read), read, ended, |outbox| > |old(outbox)|, total, fileCount)
      ensures ended == Ending.Completed ==> read > 0 && DoneShown(events, MessageAt(incoming, read - 1))
    {
      if response.Accept? {
        ended := StartTransfer(total, fileCount, baseline, readings, plan);
        Conclude(ended, total, fileCount, baseline, readings, plan);
      } else {
        ended := EndAtResponse(response, plan);
        NothingServed(readings, baseline, total);
        Conclude(ended, total, fileCount, baseline, readings, plan);
      }
    }

    /** Send the offer and wait for the answer. */
    method MakeOffer(files: seq<P.FileMeta>, total: nat, ghost plan: seq<Command>) returns (response: Option<P.Frame>, ended: Ending)
      requires Tracks() && session.phase == Paired && stage == AwaitingPeer
      requires Answered(0) && Handled(cmds, answers, plan, false)
      modifies this`taken, this`answers, this`events, this`stage, this`read, this`outbox, session
      ensures Tracks() && Answered(0)
      ensures Handled(cmds, answers, plan, response.None? && ended == Ending.Cancelled)
      ensures response.Some? ==> session.phase == Paired && stage == AwaitingPeer
      ensures response.None? ==> Leaves(ended, session.phase, stage, AwaitingPeer, events)
      ensures response.None? ==> (ended == Disposed || ended == Ending.Cancelled || ended == Ending.Failed)
      ensures response.Some? ==> read == old(read) + 1 && response == MessageAt(incoming, old(read))
      ensures response.None? ==>
                read == old(read) || (read == old(read) + 1 && ended == Ending.Failed && MessageAt(incoming, old(read)).None?)
      ensures var offered := old(outbox) + [Sent(P.Offer(files, total), Paired)];
        outbox == if response.None? && ended == Ending.Cancelled then offered + [Sent(P.Frame.Cancel, Paired)] else offered
      ensures ServedCounts(events) == ServedCounts(old(events))
    {
      var sent := Send(P.Offer(files, total));
      if sent {
        response, ended := WaitResponse(plan);
      } else {
        Abort();
        response, ended := None, Ending.Failed;
      }
    }

    /** From the confirmed pairing to the end: offer, wait for the answer, serve. */
    method OfferFiles(files: seq<P.FileMeta>, total: nat, baseline: nat, readings: seq<nat>, ghost plan: seq<Command>)
      returns (ended: Ending)
      requires Tracks() && session.phase == Paired && stage == AwaitingPeer && ServedCounts(events) == []
      requires Answered(0) && Handled(cmds, answers, plan, false)
      requires read == 0 && outbox == [Sent(P.Hello(P.VERSION), PendingPair)]
      modifies this`taken, this`answers, this`events, this`stage, this`read, this`outbox, this`duties, session
      ensures Concluded(ended, total, |files|, baseline, readings, plan)
      ensures duties == old(duties) + [Cleanup, Shutdown]
      ensures SenderSays(incoming, read, ended, outbox, files, total)
      ensures ended == Ending.Completed ==> read > 0 && DoneShown(events, MessageAt(incoming, read - 1))
    {
      var response;
      response, ended := MakeOffer(files, total, plan);
      ghost var said := [Sent(P.Hello(P.VERSION), PendingPair), Sent(P.Offer(files, total), Paired)];
      assert [Sent(P.Hello(P.VERSION), PendingPair)] + [Sent(P.Offer(files, total), Paired)] == said;
      if response.None? {
        NothingServed(readings, baseline, total);
        Conclude(ended, total, |files|, baseline, readings, plan);
      } else {
        ended := FollowResponse(response.value, total, |files|, baseline, readings, plan);
      }
      AfterOffer(said, outbox, if |outbox| > 2 then [outbox[2]] else []);
    }

    /** Wait for the receiver and pair with it. */
    method MeetReceiver(ghost plan: seq<Command>) returns (ended: Option<Ending>)
      requires Tracks() && session.phase == PendingPair && stage == AwaitingPeer
      requires Answered(0) && Handled(cmds, answers, plan, false) && outbox == []
      modifies this`taken, this`answers, this`events, this`stage, this`outbox, session
      ensures Tracks() && Answered(0) && Handled(cmds, answers, plan, ended == Some(Ending.Cancelled))
      ensures ended.None? ==> session.phase == Paired && stage == AwaitingPeer
      ensures ended.None? ==> outbox == [Sent(P.Hello(P.VERSION), PendingPair)]
      ensures ended.Some? ==> Leaves(ended.value, session.phase, stage, AwaitingPeer, events)
      ensures ended.Some? ==> (ended.value == Disposed || ended.value == Ending.Cancelled || ended.value == Ending.Failed)
      ensures ended.Some? ==> outbox <= [Sent(P.Hello(P.VERSION), PendingPair)]
      ensures ServedCounts(events) == ServedCounts(old(events))
    {
      ended := WaitForReceiver(plan);
      if ended.None? {
        var ok := PairWithReceiver();
        if !ok {
          ended := Some(Ending.Failed);
        }
      }
    }

    /** What the sender's flow does with a published pairing. */
    method ServeReceiver(files: seq<P.FileMeta>, total: nat, baseline: nat, readings: seq<nat>, ghost plan: seq<Command>)
      returns (ended: Ending)
      requires Tracks() && session.phase == PendingPair && stage == AwaitingPeer && ServedCounts(events) == []
      requires Answered(0) && Handled(cmds, answers, plan, false) && outbox == [] && read == 0
      modifies this`taken, this`answers, this`events, this`stage, this`read, this`outbox, this`duties, session
      ensures Concluded(ended, total, |files|, baseline, readings, plan)
      ensures duties == old(duties) + [Cleanup, Shutdown]
      ensures SenderSays(incoming, read, ended, outbox, files, total)
      ensures ended == Ending.Completed ==> read > 0 && DoneShown(events, MessageAt(incoming, read - 1))
    {
      var over := MeetReceiver(plan);
      if over.Some? {
        NothingServed(readings, baseline, total);
        ended := over.value;
        Conclude(ended, total, |files|, baseline, readings, plan);
        return;
      }
      ended := OfferFiles(files, total, baseline, readings, plan);
    }

    /** The session looks idle again, although its flow ends here. */
    method PrepareFailed()
      requires Tracks() && Answered(1)
      modifies this`answers, this`events, this`stage
      ensures Tracks() && Answered(0) && stage == Idle && LastShown(events, ErrorEvent)
      ensures answers == old(answers) + [Answer(|old(answers)|, false)]
    {
      stage := Idle;
      Emit(ErrorEvent);
      Reply(false);
    }

    method PrepareSucceeded()
      requires Tracks() && Answered(1) && answers == [] && cmds[0] == Prepare
      modifies this`answers, this`events, this`stage
      ensures Tracks() && Answered(0) && stage == AwaitingPeer
      ensures Handled(cmds, answers, [Prepare], false) && LastShown(events, ProgressEvent)
      ensures ServedCounts(events) == ServedCounts(old(events))
    {
      Emit(ProgressEvent);
      Reply(true);
      stage := AwaitingPeer;
    }

    /** Prepare and publish the files, and serve them. `prepared` is what the walk, the
        import, the allocation and the publication come to. */
    method PrepareAndServe(prepared: Option<(seq<P.FileMeta>, nat)>, baseline: nat, readings: seq<nat>)
      returns (ended: Ending)
      requires Tracks() && session.phase == Created && ServedCounts(events) == [] && read == 0
      requires cmds != [] && cmds[0] == Prepare && taken == 1 && answers == [] && duties == [] && outbox == []
      modifies this`taken, this`answers, this`events, this`stage, this`read, this`outbox, this`duties, session
      ensures Tracks() && Answered(0)
      ensures prepared.None? ==> ended == Unprepared && Leaves(ended, session.phase, stage, stage, events)
      ensures prepared.None? ==> answers == [Answer(0, false)] && outbox == [] && duties == [Shutdown]
      ensures prepared.Some? ==>
                && Concluded(ended, prepared.value.1, |prepared.value.0|, baseline, readings, [Prepare])
                && SenderSays(incoming, read, ended, outbox, prepared.value.0, prepared.value.1)
                && duties == [Cleanup, Shutdown]
      ensures ended == Ending.Completed ==> read > 0 && DoneShown(events, MessageAt(incoming, read - 1))
    {
      Enter(StartPairing, PendingPair);
      if prepared.None? {
        PrepareFailed();
        FinishSenderFlow(false);
        return Unprepared;
      }
      PrepareSucceeded();
      ended := ServeReceiver(prepared.value.0, prepared.value.1, baseline, readings, [Prepare]);
    }

    /** The sender's flow, from its first command to its end. Whatever happens, every
        command taken gets one reply, the engine is shut down once, at the very end, and
        the pairing is released before that exactly if it was published. */
    method RunSenderFlow(prepared: Option<(seq<P.FileMeta>, nat)>, baseline: nat, readings: seq<nat>)
      returns (ended: Ending, published: bool)
      requires Fresh()
      modifies this, session
      ensures Tracks() && Answered(0)
      ensures published <==> cmds != [] && cmds[0] == Prepare && prepared.Some?
      ensures duties == if published then [Cleanup, Shutdown] else [Shutdown]
      ensures Ordered(Sender, cmds) ==> ended != Refused
      ensures published ==>
                && Concluded(ended, prepared.value.1, |prepared.value.0|, baseline, readings, [Prepare])
                && SenderSays(incoming, read, ended, outbox, prepared.value.0, prepared.value.1)
      ensures ended == Ending.Completed ==> published && read > 0 && DoneShown(events, MessageAt(incoming, read - 1))
      ensures !published ==> outbox == [] && taken <= 1 && Leaves(ended, session.phase, stage, old(stage), events)
      ensures !published ==> (ended == Ending.Cancelled <==> cmds != [] && cmds[0] == Command.Cancel)
      ensures !published ==> (ended == Disposed <==> cmds == []) && (ended == Unprepared <==> cmds != [] && cmds[0] == Prepare)
      ensures !published && taken == 1 ==> (answers[0].ok <==> cmds[0] == Command.Cancel)
    {
      var refused := FirstCommand(Prepare);
      published := refused.None? && prepared.Some?;
      if refused.Some? {
        FinishSenderFlow(false);
        return refused.value, published;
      }
      ended := PrepareAndServe(prepared, baseline, readings);
    }

    // ----- the receiver ---------------------------------------------------------------

    /** What holds whenever a receiver's flow ends. */
    ghost predicate Settled(ended: Ending, before: Stage, result: Option<P.Totals>, plan: seq<Command>)
      reads this`answers, this`taken, this`events, this`stage, session
    {
      && Tracks() && Answered(0)
      && Handled(cmds, answers, plan, ended == Ending.Cancelled)
      && Leaves(ended, session.phase, stage, before, events)
      && ShownDone(ended, events, result)
    }

    /** The last thing a receiver's flow does. */
    method ShutDown(ghost ended: Ending, ghost before: Stage, ghost result: Option<P.Totals>, ghost plan: seq<Command>)
      requires Settled(ended, before, result, plan)
      modifies this`duties
      ensures Settled(ended, before, result, plan)
      ensures duties == old(duties) + [Shutdown]
    {
      duties := duties + [Shutdown];
    }

    /** Claim the pairing, dial, exchange hellos and confirm the key. Without `claimed` any
        of that may fail, or what follows. */
    method PairWithSender(claimed: bool)
      requires Tracks() && session.phase == Created && outbox == []
      modifies this`events, this`outbox, session
      ensures Tracks() && (session.phase == PendingPair || session.phase == Paired) && (claimed ==> session.phase == Paired)
      ensures outbox == [Sent(P.Hello(P.VERSION), PendingPair)] || (!claimed && outbox == [])
    {
      Enter(StartPairing, PendingPair);
      var dialed, paired := *, *;
      if !claimed && !dialed {
        return;
      }
      var _ := Send(P.Hello(P.VERSION));
      if claimed || paired {
        Enter(PairConfirmed, Paired);
        Emit(InfoEvent);
      }
    }

    /** Pair and read the offer; `claimed` tells whether all of that works out. */
    method DriveClaim(claimed: bool, ghost result: Option<P.Totals>)
      requires Tracks() && session.phase == Created && Answered(1) && answers == [] && taken == 1 && cmds[0] == Claim && outbox == []
      modifies this`answers, this`events, this`stage, this`outbox, session
      ensures Tracks() && Answered(0) && answers == [Answer(0, claimed)]
      ensures if claimed then session.phase == Paired && stage == OfferPending && Handled(cmds, answers, [Claim], false)
              else Settled(Ending.Failed, OfferPending, result, [])
      ensures outbox == [Sent(P.Hello(P.VERSION), PendingPair)] || (!claimed && outbox == [])
    {
      PairWithSender(claimed);
      if !claimed {
        Abort();
        Reply(false);
        return;
      }
      Reply(true);
      stage := OfferPending;
    }

    /** Tell the sender how the transfer ended, and wait for it to hang up. */
    method ReportOutcome(result: Option<P.Totals>) returns (ended: Ending)
      requires Tracks() && session.phase == Transferring && Answered(0)
      modifies this`answers, this`events, this`stage, this`outbox, session
      ensures Tracks() && answers == old(answers) && Leaves(ended, session.phase, stage, OfferPending, events)
      ensures if result.Some? then (ended == Ending.Completed || ended == Ending.Failed) else ended == Ending.Cancelled
      ensures outbox == old(outbox) +
              [Sent(if result.Some? then P.Frame.Result(result.value) else P.Frame.Cancel, Transferring)]
      ensures ended == Ending.Completed ==>
                events != [] && events[|events| - 1] == DoneEvent(result.value.bytes, result.value.files)
      ensures ended == Ending.Cancelled ==> Closing(events, PhaseEvent(Phase.Cancelled), ErrorEvent)
    {
      if result.None? {
        var _ := Send(P.Frame.Cancel);
        var next := session.Cancel();
        assert next.Some?;
        Emit(PhaseEvent(Phase.Cancelled));
        Emit(ErrorEvent);
        stage := Over;
        return Ending.Cancelled;
      }
      var sent := Send(P.Frame.Result(result.value));
      var acknowledged := *;
      if !sent || !acknowledged {
        Abort();
        return Ending.Failed;
      }
      Succeed(result.value);
      ended := Ending.Completed;
    }

    /** Download until the end, or until a cancel. One command is looked at, if it comes
        before the download is through; `looked` tells whether one did. So a cancel is
        granted exactly if it is the third command of the session and comes in time. */
    method Download(result: Option<P.Totals>) returns (ended: Ending, looked: bool)
      requires Tracks() && session.phase == Transferring && stage == Moving && Answered(0) && taken == 2
      requires Handled(cmds, answers, [Claim, Accept], false)
      modifies this`taken, this`answers, this`events, this`stage, this`outbox, session
      ensures TransferEnd(ended, old(outbox), outbox, result)
      ensures Tracks() && Answered(0) && Handled(cmds, answers, [Claim, Accept], ended == Ending.Cancelled)
      ensures taken == if looked && |cmds| > 2 then 3 else 2
      ensures CancelGranted(cmds, answers) <==> looked && |cmds| > 2 && cmds[2] == Command.Cancel
      ensures Leaves(ended, session.phase, stage, OfferPending, events)
      ensures (ended == Ending.Completed || ended == Ending.Cancelled || ended == Ending.Failed)
      ensures ShownDone(ended, events, result)
    {
      looked := *;
      if looked {
        var over := OnTransferCommand([Claim, Accept]);
        if over {
          GrantedCancel(cmds, answers, [Claim, Accept], true);
          return Ending.Cancelled, looked;
        }
      }
      GrantedCancel(cmds, answers, [Claim, Accept], false);
      ended := ReportOutcome(result);
    }

    method AcceptTransfer(result: Option<P.Totals>) returns (ended: Ending)
      requires Tracks() && session.phase == Paired && Answered(0) && taken == 2
      requires Handled(cmds, answers, [Claim, Accept], false)
      modifies this`taken, this`answers, this`events, this`stage, this`outbox, this`duties, session
      ensures Settled(ended, OfferPending, result, [Claim, Accept])
      ensures taken <= 3 && duties == old(duties) + [Shutdown]
      ensures ended == Ending.Completed || ended == Ending.Cancelled || ended == Ending.Failed
      ensures TransferSays(ended, old(outbox), outbox, result)
    {
      var sent := Send(P.Frame.Accept);
      if !sent {
        Abort();
        ShutDown(Ending.Failed, OfferPending, result, [Claim, Accept]);
        return Ending.Failed;
      }
      Enter(TransferStarted, Transferring);
      stage := Moving;
      var looked;
      ended, looked := Download(result);
      ShutDown(ended, OfferPending, result, [Claim, Accept]);
    }

    /** Cancel the offer, and tell the sender. */
    method Withdraw(asked: bool, ghost result: Option<P.Totals>)
      requires Tracks() && session.phase == Paired && Answered(if asked then 1 else 0)
      requires Handled(cmds, answers, [Claim], false) && (asked ==> cmds[taken - 1] == Command.Cancel)
      modifies this`answers, this`events, this`stage, this`outbox, this`duties, session
      ensures Settled(Ending.Cancelled, OfferPending, result, [Claim])
      ensures outbox == old(outbox) + [Sent(P.Frame.Cancel, Paired)]
      ensures duties == old(duties) + [Shutdown]
    {
      var _ := Send(P.Frame.Cancel);
      CancelFlow(asked);
      ShutDown(Ending.Cancelled, OfferPending, result, [Claim]);
    }

    /** `delivered`: the refusal was written and the sender has hung up. */
    method DeclineOffer(reason: string, delivered: bool)
      requires Tracks() && Answered(1)
      modifies this`answers, this`events, this`stage, this`outbox
      ensures Tracks() && Answered(0) && stage == Over
      ensures outbox == old(outbox) + [Sent(P.Frame.Decline(reason), session.phase)]
      ensures LastShown(events, if delivered then InfoEvent else ErrorEvent)
      ensures answers == old(answers) + [Answer(|old(answers)|, delivered)]
    {
      var _ := Send(P.Frame.Decline(reason));
      Emit(if delivered then InfoEvent else ErrorEvent);
      Reply(delivered);
      stage := Over;
    }

    /** The user accepted, and is told so before the transfer. */
    method TakeUp(result: Option<P.Totals>) returns (ended: Ending)
      requires Tracks() && session.phase == Paired && Answered(1) && taken == 2 && cmds[1] == Accept
      requires Handled(cmds, answers, [Claim], false)
      modifies this`taken, this`answers, this`events, this`stage, this`outbox, this`duties, session
      ensures Settled(ended, OfferPending, result, [Claim, Accept])
      ensures taken <= 3 && duties == old(duties) + [Shutdown]
      ensures ended == Ending.Completed || ended == Ending.Cancelled || ended == Ending.Failed
      ensures TransferSays(ended, old(outbox), outbox, result)
    {
      Reply(true);
      ended := AcceptTransfer(result);
    }

    /** The user did anything but accept. */
    method TurnDown(decision: Command, delivered: bool, ghost result: Option<P.Totals>) returns (ended: Ending)
      requires Tracks() && session.phase == Paired && stage == OfferPending && Answered(1)
      requires taken == 2 && cmds[1] == decision != Accept && Handled(cmds, answers, [Claim], false)
      modifies this`answers, this`events, this`stage, this`outbox, this`duties, session
      ensures Settled(ended, OfferPending, result, if decision.Decline? && delivered then [Claim, decision] else [Claim])
      ensures duties == old(duties) + [Shutdown]
      ensures ended == if decision.Decline? then Declined
                       else if decision == Command.Cancel then Ending.Cancelled else Refused
      ensures outbox == if decision.Decline? then old(outbox) + [Sent(P.Frame.Decline(decision.reason), Paired)]
                        else if decision == Command.Cancel then old(outbox) + [Sent(P.Frame.Cancel, Paired)] else old(outbox)
    {
      if decision.Decline? {
        DeclineOffer(decision.reason, delivered);
        ended := Declined;
        ShutDown(ended, OfferPending, result, if delivered then [Claim, decision] else [Claim]);
      } else if decision == Command.Cancel {
        Withdraw(true, result);
        ended := Ending.Cancelled;
      } else {
        Reply(false);
        ShutDown(Refused, OfferPending, result, [Claim]);
        ended := Refused;
      }
    }

    /** Take and carry out the user's decision on the offer. */
    method Decide(delivered: bool, result: Option<P.Totals>) returns (ended: Ending)
      requires Tracks() && session.phase == Paired && stage == OfferPending && Answered(0) && taken == 1
      requires Handled(cmds, answers, [Claim], false)
      modifies this`taken, this`answers, this`events, this`stage, this`outbox, this`duties, session
      ensures Settled(ended, OfferPending, result, Granted(cmds, true, delivered))
      ensures taken <= 3 && duties == old(duties) + [Shutdown] && ended != Unprepared && ended != Disposed
      ensures ended == Declined <==> |cmds| > 1 && cmds[1].Decline?
      ensures DecisionSays(if |cmds| > 1 then Some(cmds[1]) else None, ended, old(outbox), outbox, result)
      ensures ended == Refused <==> |cmds| > 1 && (cmds[1] == Claim || cmds[1] == Prepare)
      ensures ended == Ending.Completed ==> |cmds| > 1 && cmds[1] == Accept
    {
      var decision := Take();
      if decision.None? {
        Withdraw(false, result);
        return Ending.Cancelled;
      }
      if decision.value == Accept {
        ended := TakeUp(result);
      } else {
        ended := TurnDown(decision.value, delivered, result);
      }
    }

    /** What the flow does with a claim. */
    method ClaimAndDecide(claimed: bool, delivered: bool, result: Option<P.Totals>) returns (ended: Ending)
      requires Tracks() && session.phase == Created && Answered(1) && answers == [] && duties == [] && outbox == []
      requires taken == 1 && cmds != [] && cmds[0] == Claim
      modifies this`taken, this`answers, this`events, this`stage, this`outbox, this`duties, session
      ensures Settled(ended, OfferPending, result, Granted(cmds, claimed, delivered))
      ensures duties == [Shutdown] && taken <= (if claimed then 3 else 1) && ended != Unprepared && ended != Disposed
      ensures ended == Declined <==> |cmds| > 1 && claimed && cmds[1].Decline?
      ensures ended == Refused <==> OutOfPlace(cmds, claimed)
      ensures ended == Ending.Completed ==> Granted(cmds, claimed, delivered) == [Claim, Accept]
      ensures ReceiverSays(cmds, claimed, ended, outbox, result)
    {
      DriveClaim(claimed, result);
      if !claimed {
        ShutDown(Ending.Failed, OfferPending, result, []);
        return Ending.Failed;
      }
      ended := Decide(delivered, result);
    }

    /** The receiver's flow, from its first command to its end. Every command taken
        gets one reply, and the engine is shut down once. */
    method RunReceiverFlow(claimed: bool, delivered: bool, result: Option<P.Totals>) returns (ended: Ending)
      requires Fresh()
      modifies this, session
      ensures Settled(ended, old(stage), result, Granted(cmds, claimed, delivered))
      ensures duties == [Shutdown] && taken <= (if claimed then 3 else 1) && ended != Unprepared
      ensures ended == Refused <==> OutOfPlace(cmds, claimed)
      ensures ended == Disposed <==> cmds == []
      ensures ended == Declined <==> |cmds| > 1 && cmds[0] == Claim && claimed && cmds[1].Decline?
      ensures ended == Ending.Completed ==> Granted(cmds, claimed, delivered) == [Claim, Accept]
      ensures ReceiverSays(cmds, claimed, ended, outbox, result)
    {
      var refused := FirstCommand(Claim);
      if refused.Some? {
        ended := refused.value;
        ShutDown(ended, old(stage), result, []);
        return;
      }
      ended := ClaimAndDecide(claimed, delivered, result);
    }
  }

  /** A user who accepts twice by mistake cannot cancel the download any more: the
      cancel behind the second accept is never taken, however long the download is. */
  method DoubleAccept(f: Flow, delivered: bool, result: Option<P.Totals>) returns (ended: Ending)
    requires f.Fresh() && f.cmds == [Claim, Accept, Accept, Command.Cancel]
    modifies f, f.session
    ensures f.taken <= 3 && !CancelGranted(f.cmds, f.answers)
  {
    ended := f.RunReceiverFlow(true, delivered, result);
    GrantedCancel(f.cmds, f.answers, Granted(f.cmds, true, delivered), ended == Ending.Cancelled);
  }

  /** The command that a receiver waits for is none of those that can come there. */
  predicate OutOfPlace(cmds: seq<Command>, claimed: bool) {
    cmds != [] &&
    if cmds[0] == Claim then claimed && |cmds| > 1 && (cmds[1] == Claim || cmds[1] == Prepare) else cmds[0] != Command.Cancel
  }

  /** The interface lets no such command through. */
  lemma OrderedInPlace(cmds: seq<Command>, claimed: bool)
    requires Ordered(Receiver, cmds)
    ensures !OutOfPlace(cmds, claimed)
  {
  }

  /** The commands that a receiver's flow grants, cancels apart. */
  function Granted(cmds: seq<Command>, claimed: bool, delivered: bool): seq<Command> {
    if cmds == [] || cmds[0] != Claim || !claimed then []
    else if |cmds| > 1 && (cmds[1] == Accept || (cmds[1].Decline? && delivered)) then [Claim, cmds[1]]
    else [Claim]
  }

  // ----- what is said to the peer --------------------------------------------------------

  /** After the accept: nothing if it could not be sent; the totals of a finished receive,
      acknowledged or not; or a cancel. */
  predicate TransferSays(ended: Ending, before: seq<Sent>, after: seq<Sent>, result: Option<P.Totals>) {
    var accepted := before + [Sent(P.Frame.Accept, Paired)];
    || (after == accepted && ended == Ending.Failed)
    || TransferEnd(ended, accepted, after, result)
  }

  predicate TransferEnd(ended: Ending, before: seq<Sent>, after: seq<Sent>, result: Option<P.Totals>) {
    || (after == before + [Sent(P.Frame.Cancel, Transferring)] && ended == Ending.Cancelled)
    || (result.Some? && after == before + [Sent(P.Frame.Result(result.value), Transferring)]
        && (ended == Ending.Completed || ended == Ending.Failed))
  }

  /** What each decision of the user, or disposal, says to the sender. */
  predicate DecisionSays(decision: Option<Command>, ended: Ending, before: seq<Sent>, after: seq<Sent>, result: Option<P.Totals>) {
    match decision
    case Some(Accept) => TransferSays(ended, before, after, result)
    case Some(Decline(reason)) => after == before + [Sent(P.Frame.Decline(reason), Paired)]
    case Some(Cancel) => after == before + [Sent(P.Frame.Cancel, Paired)]
    case None => after == before + [Sent(P.Frame.Cancel, Paired)]
    case _ => after == before
  }

  /** All that a receiver says: nothing without a claim, at most a hello if the claim does
      not work out, and else a hello and what the second command asks for. */
  predicate ReceiverSays(cmds: seq<Command>, claimed: bool, ended: Ending, outbox: seq<Sent>, result: Option<P.Totals>) {
    var hello := [Sent(P.Hello(1), PendingPair)];
    if cmds == [] || cmds[0] != Claim then outbox == []
    else if !claimed then outbox <= hello
    else DecisionSays(if |cmds| > 1 then Some(cmds[1]) else None, ended, hello, outbox, result)
  }

  /** A completed receiver shows the totals that it told the sender. */
  predicate ShownDone(ended: Ending, events: seq<BridgeEvent>, result: Option<P.Totals>) {
    ended == Ending.Completed ==>
      && result.Some?
      && events != [] && events[|events| - 1] == DoneEvent(result.value.bytes, result.value.files)
  }

  /** All a sender says: nothing or a hello if it does not come to an offer; else a hello,
      the offer, and a cancel where it cancels itself. */
  predicate SenderSays(incoming: seq<Option<P.Frame>>, read: nat, ended: Ending, outbox: seq<Sent>, files: seq<P.FileMeta>, total: nat) {
    var said := [Sent(P.Hello(1), PendingPair), Sent(P.Offer(files, total), Paired)];
    if |outbox| < 2 then outbox <= said && read == 0 && (ended == Disposed || ended == Ending.Cancelled || ended == Ending.Failed)
    else said <= outbox && Heeded(incoming, read, ended, outbox[2..], total, |files|)
  }

  lemma AfterOffer(said: seq<Sent>, outbox: seq<Sent>, more: seq<Sent>)
    requires |said| == 2 && outbox == said + more
    ensures said <= outbox && outbox[2..] == more
  {
  }

  // ----- what is heard from the peer -----------------------------------------------------

  /** The control message that read number `i` returns, or `None` for a failed read: the
      stream's end, a timeout, or a frame that is not a control message. */
  function MessageAt(incoming: seq<Option<P.Frame>>, i: nat): Option<P.Frame> {
    if i < |incoming| && incoming[i].Some? && !incoming[i].value.Handshake() then incoming[i] else None
  }

  /** How a message ends the transfer, if it does. */
  function Verdict(message: Option<P.Frame>, total: nat, fileCount: nat): Option<Ending> {
    match message
    case None => Some(Ending.Failed)
    case Some(Result(t)) =>
      Some(if t.bytes + t.skippedBytes == total && t.files + t.skippedFiles == fileCount then Ending.Completed else Ending.Failed)
    case Some(Cancel) => Some(Ending.Cancelled)
    case _ => None
  }

  /** The transfer went on until a message decided it, or until the sender cancelled and
      told so. */
  predicate Judged(incoming: seq<Option<P.Frame>>, from: nat, read: nat, ended: Ending, told: bool, total: nat, fileCount: nat) {
    if told then
      ended == Ending.Cancelled && from <= read && Undecided(incoming, from, read, total, fileCount)
    else
      && from < read && Verdict(MessageAt(incoming, read - 1), total, fileCount) == Some(ended)
      && Undecided(incoming, from, read - 1, total, fileCount)
  }

  predicate Undecided(incoming: seq<Option<P.Frame>>, from: nat, to: nat, total: nat, fileCount: nat) {
    forall i :: from <= i < to ==> Verdict(MessageAt(incoming, i), total, fileCount).None?
  }

  /** Another turn, with or without a message. */
  lemma NextMessage(incoming: seq<Option<P.Frame>>, from: nat, before: nat, read: nat, ended: Option<Ending>, total: nat, fileCount: nat)
    requires from <= before && Undecided(incoming, from, before, total, fileCount)
    requires read == before || (read == before + 1 && ended == Verdict(MessageAt(incoming, before), total, fileCount))
    ensures ended.None? ==> Undecided(incoming, from, read, total, fileCount)
    ensures ended == Some(Ending.Cancelled) && read == before ==> Judged(incoming, from, read, ended.value, true, total, fileCount)
    ensures ended.Some? && read > before ==> Judged(incoming, from, read, ended.value, false, total, fileCount)
  {
  }

  /** What the answer to the offer leads to. */
  predicate Followed(incoming: seq<Option<P.Frame>>, response: Option<P.Frame>, from: nat, read: nat, ended: Ending,
                     told: bool, total: nat, fileCount: nat) {
    match response
    case Some(Accept) => Judged(incoming, from, read, ended, told, total, fileCount)
    case Some(Decline(_)) => ended == Declined && read == from && !told
    case Some(Cancel) => ended == Ending.Cancelled && read == from && !told
    case _ => ended == Ending.Failed && read == from && !told
  }

  /** From the offer on, with `more` said after it: ended before an answer, by a cancel
      that was told, by disposal or by failure; or as the answer wants it. */
  predicate Heeded(incoming: seq<Option<P.Frame>>, read: nat, ended: Ending, more: seq<Sent>, total: nat, fileCount: nat) {
    if read == 0 then
      || (ended == Ending.Cancelled && more == [Sent(P.Frame.Cancel, Paired)])
      || ((ended == Disposed || ended == Ending.Failed) && more == [])
    else
      && (more == [] || more == [Sent(P.Frame.Cancel, Transferring)])
      && Followed(incoming, MessageAt(incoming, 0), 1, read, ended, |more| > 0, total, fileCount)
  }

  /** The totals of the result are shown last. */
  predicate DoneShown(events: seq<BridgeEvent>, result: Option<P.Frame>) {
    && result.Some? && result.value.Result?
    && events != [] && events[|events| - 1] == DoneEvent(result.value.totals.bytes, result.value.totals.files)
  }

  /** What a tick shows of the engine's count: what was served since the baseline, at
      most the total. */
  function Reading(count: nat, baseline: nat, total: nat): nat {
    var since := if count >= baseline then count - baseline else 0;
    if since <= total then since else total
  }

  /** After `n` ticks: no report of served bytes exceeds the total; what was served since
      the baseline, up to the total, has been shown; and each report exceeds the one
      before, provided the engine's count never goes down. */
  predicate ServedUpTo(shown: seq<nat>, readings: seq<nat>, n: nat, baseline: nat, total: nat) {
    && n <= |readings|
    && (forall v :: v in shown ==> v <= total)
    && (forall i :: 0 <= i < n && baseline < readings[i] <= baseline + total ==> readings[i] - baseline in shown)
    && (forall i :: 0 <= i < n && baseline + total < readings[i] && total > 0 ==> total in shown)
    && (Nondecreasing(readings) ==> Increasing(shown))
  }

  predicate ServedWell(shown: seq<nat>, readings: seq<nat>, baseline: nat, total: nat) {
    exists n :: 0 <= n <= |readings| && ServedUpTo(shown, readings, n, baseline, total)
  }

  /** After `n` ticks, `last` is both the last report and the last reading. */
  predicate ServedSoFar(shown: seq<nat>, readings: seq<nat>, n: nat, last: nat, baseline: nat, total: nat) {
    && ServedUpTo(shown, readings, n, baseline, total)
    && last == (if n == 0 then 0 else Reading(readings[n - 1], baseline, total))
    && (last == 0 || last in shown)
    && (Nondecreasing(readings) ==> forall m :: m in shown ==> m <= last)
  }

  lemma NothingServed(readings: seq<nat>, baseline: nat, total: nat)
    ensures ServedWell([], readings, baseline, total)
  {
    assert ServedUpTo([], readings, 0, baseline, total);
  }

  lemma ServedNow(shown: seq<nat>, readings: seq<nat>, n: nat, last: nat, baseline: nat, total: nat)
    requires ServedSoFar(shown, readings, n, last, baseline, total)
    ensures ServedWell(shown, readings, baseline, total)
  {
  }

  /** The reports still rise and stay within the total. */
  lemma ServedRises(shown: seq<nat>, readings: seq<nat>, n: nat, last: nat, baseline: nat, total: nat)
    requires ServedSoFar(shown, readings, n, last, baseline, total) && n < |readings|
    ensures var served := Reading(readings[n], baseline, total);
      var after := if served == last then shown else shown + [served];
      && (forall v :: v in after ==> v <= total)
      && (Nondecreasing(readings) ==> Increasing(after) && forall m :: m in after ==> m <= served)
  {
    var served := Reading(readings[n], baseline, total);
    if Nondecreasing(readings) {
      assert n > 0 ==> readings[n - 1] <= readings[n];
      assert last <= served && forall i :: 0 <= i < |shown| ==> shown[i] in shown;
    }
  }

  lemma ServedStep(shown: seq<nat>, readings: seq<nat>, n: nat, last: nat, baseline: nat, total: nat)
    requires ServedSoFar(shown, readings, n, last, baseline, total) && n < |readings|
    ensures var served := Reading(readings[n], baseline, total);
      ServedSoFar(if served == last then shown else shown + [served], readings, n + 1, served, baseline, total)
  {
    ServedRises(shown, readings, n, last, baseline, total);
  }
}
