// The calls of the graphical client's session interface, which check the stage before
// they pass a command to the session's flow (flutter/rust/src/api/session.rs).
module SessionApi {
  import opened Basics
  import P = Control
  import opened Flows

  /** What becomes of a call: its gate refuses it, the flow is gone, or its command is
      in the channel. */
  datatype Passed = Denied | Undelivered | Queued

  /** How many commands of one kind there are. */
  function Count(queue: seq<Command>, kind: Command): nat {
    if queue == [] then 0
    else Count(queue[..|queue| - 1], kind) + if queue[|queue| - 1] == kind then 1 else 0
  }

  lemma OneMore(queue: seq<Command>, command: Command, kind: Command)
    ensures Count(queue + [command], kind) == Count(queue, kind) + if command == kind then 1 else 0
  {
    assert (queue + [command])[..|queue|] == queue;
  }

  lemma {:induction false} CountZero(queue: seq<Command>, kind: Command)
    ensures Count(queue, kind) == 0 <==> kind !in queue
  {
    if queue == [] {
    } else {
      CountZero(queue[..|queue| - 1], kind);
      assert queue == queue[..|queue| - 1] + [queue[|queue| - 1]];
    }
  }

  class Handle {
    const role: Role
    var stage: Stage
    /** The flow still holds its end of the channel. */
    var open: bool
    /** Every command sent so far, taken by the flow or not. */
    var queue: seq<Command>
    ghost var resets: nat   // how often the flow has set the stage back to `Idle`

    /** A flow acts only on commands, so until there is one the stage is as the session
        was created. The gate of a receiver lets one claim through, that of a sender
        one preparation for each time the stage was idle: at most two. */
    ghost predicate Valid()
      reads this
    {
      && Ordered(role, queue)
      && (queue == [] ==> stage == Idle && open && resets == 0)
      && resets <= (if role == Sender then 1 else 0)
      && Count(queue, Prepare) <= resets + (if stage == Idle then 0 else 1)
      && Count(queue, Claim) <= (if stage == Idle then 0 else 1)
    }

    constructor (role: Role)
      ensures Valid() && this.role == role && stage == Idle && open && queue == [] && resets == 0
    {
      this.role, stage, open, queue, resets := role, Idle, true, [], 0;
    }

    /** Send a command to the flow, if it is still there. */
    method Enqueue(command: Command) returns (r: Passed)
      modifies this`queue
      ensures r == if open then Queued else Undelivered
      ensures queue == old(queue) + if open then [command] else []
      ensures forall kind :: Count(queue, kind) == Count(old(queue), kind) + if open && command == kind then 1 else 0
    {
      if !open {
        return Undelivered;
      }
      forall kind ensures Count(queue + [command], kind) == Count(queue, kind) + if command == kind then 1 else 0 {
        OneMore(queue, command, kind);
      }
      queue := queue + [command];
      r := Queued;
    }

    method SendPaths() returns (r: Passed)
      requires Valid()
      modifies this`stage, this`queue
      ensures Valid()
      ensures r == if role != Sender || old(stage) != Idle then Denied else if open then Queued else Undelivered
      ensures stage == if r.Denied? then old(stage) else AwaitingPeer
      ensures queue == old(queue) + if r.Queued? then [Prepare] else []
      ensures Count(queue, Prepare) <= 1 + resets <= 2
    {
      if role != Sender || stage != Idle {
        return Denied;
      }
      stage := AwaitingPeer;
      r := Enqueue(Prepare);
    }

    method ReceiveTicket() returns (r: Passed)
      requires Valid()
      modifies this`stage, this`queue
      ensures Valid()
      ensures r == if role != Receiver || old(stage) != Idle then Denied else if open then Queued else Undelivered
      ensures Count(queue, Claim) <= 1
      ensures stage == if r.Denied? then old(stage) else OfferPending
      ensures queue == old(queue) + if r.Queued? then [Claim] else []
    {
      if role != Receiver || stage != Idle {
        return Denied;
      }
      CountZero(queue, Claim);
      stage := OfferPending;
      r := Enqueue(Claim);
    }

    method AcceptOffer() returns (r: Passed)
      requires Valid()
      modifies this`queue
      ensures Valid()
      ensures r == if role != Receiver || stage != OfferPending then Denied else if open then Queued else Undelivered
      ensures queue == old(queue) + if r.Queued? then [Accept] else []
    {
      if role != Receiver || stage != OfferPending {
        return Denied;
      }
      r := Enqueue(Accept);
    }

    method DeclineOffer(reason: string) returns (r: Passed)
      requires Valid()
      modifies this`queue
      ensures Valid()
      ensures r == if role != Receiver || stage != OfferPending then Denied else if open then Queued else Undelivered
      ensures queue == old(queue) + if r.Queued? then [Decline(reason)] else []
    {
      if role != Receiver || stage != OfferPending {
        return Denied;
      }
      r := Enqueue(Decline(reason));
    }

    /** Cancelling a session that is over succeeds without a command (`Denied` here). */
    method CancelSession() returns (r: Passed)
      requires Valid()
      modifies this`queue
      ensures Valid()
      ensures r == if stage == Over then Denied else if open then Queued else Undelivered
      ensures queue == old(queue) + if r.Queued? then [Command.Cancel] else []
    {
      if stage == Over {
        return Denied;
      }
      r := Enqueue(Command.Cancel);
    }

    /** The flow sets the stage, in answer to a command. A sender's flow sets it back to
        `Idle` when the preparation failed, and then sets it no more. */
    method FlowSets(next: Stage)
      requires Valid() && queue != [] && open && resets == 0 && (next == Idle ==> role == Sender)
      modifies this`stage, this`resets
      ensures Valid() && stage == next && resets == if next == Idle then 1 else 0
    {
      CountZero(queue, Claim);
      stage := next;
      if next == Idle {
        resets := 1;
      }
    }

    method FlowEnds()
      requires Valid() && queue != []
      modifies this`open
      ensures Valid() && !open
    {
      open := false;
    }
  }

  /** A failed preparation makes the session look idle, but it is not to be retried: the
      next call passes the gate, and nobody takes its command; if the flow is gone by
      then, there is nobody to send it to. `f` is the flow at the other end of the
      channel; it takes what `h` has sent first. */
  method RetryAfterFailure(h: Handle, f: Flow, baseline: nat, readings: seq<nat>, gone: bool) returns (again: Passed)
    requires h.Valid() && h.role == Sender && h.open && h.resets == 0
    requires f.Fresh() && h.queue <= f.cmds && h.queue != [] && h.queue[0] == Prepare
    modifies h, f, f.session
    ensures h.Valid() && again == if gone then Undelivered else Queued
    ensures h.queue == old(h.queue) + if gone then [] else [Prepare]
    ensures f.taken <= old(|h.queue|) && f.duties == [Shutdown]
  {
    var ended, published := f.RunSenderFlow(None, baseline, readings);
    h.FlowSets(f.stage);
    if gone {
      h.FlowEnds();
    }
    again := h.SendPaths();
  }

  /** A claim and an accept right after it. */
  method ClaimAndAccept(h: Handle)
    requires h.Valid() && h.role == Receiver && h.stage == Idle && h.open && h.queue == []
    modifies h
    ensures h.queue == [Claim, Accept]
  {
    var first := h.ReceiveTicket();
    assert h.queue == [Claim];
    var second := h.AcceptOffer();
  }

  /** The claim call itself lets the next accept through, before there is any offer. If
      the claim then works out, that accept is granted as the decision on an offer that
      nobody has seen; if it does not, nobody takes the accept. */
  method EarlyAccept(h: Handle, claimed: bool, delivered: bool, result: Option<P.Totals>) returns (f: Flow)
    requires h.Valid() && h.role == Receiver && h.stage == Idle && h.open && h.queue == []
    modifies h
    ensures h.queue == f.cmds == [Claim, Accept]
    ensures if claimed then |f.answers| == 2 && f.answers[1] == Answer(1, true) else f.taken <= 1
  {
    ClaimAndAccept(h);
    f := new Flow(h.queue, [], h.stage);
    var ended := f.RunReceiverFlow(claimed, delivered, result);
    assert claimed ==> Granted(f.cmds, claimed, delivered) == [Claim, Accept];
  }
}
