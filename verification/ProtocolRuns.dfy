// Runs of the two programs that show where their promises end.
module ProtocolRuns {
  import opened Basics
  import opened Sessions
  import opened Control
  import opened Protocol
  import opened ProtocolSafety

  lemma {:induction false} RunSnoc(c: Setup, st: State, acts: seq<Act>, a: Act)
    requires Run(c, st, acts) && Enabled(After(c, st, acts), a)
    ensures Run(c, st, acts + [a]) && After(c, st, acts + [a]) == Apply(c, After(c, st, acts), a)
    decreases acts
  {
    if acts == [] {
      assert acts + [a] == [a] && [a][1..] == [];
    } else {
      RunSnoc(c, Apply(c, st, acts[0]), acts[1..], a);
      assert (acts + [a])[0] == acts[0] && (acts + [a])[1..] == acts[1..] + [a];
    }
  }

  predicate Reaches(c: Setup, acts: seq<Act>, st: State) {
    Run(c, Init(), acts) && After(c, Init(), acts) == st
  }

  lemma Step(c: Setup, acts0: seq<Act>, st0: State, a: Act) returns (acts: seq<Act>, st: State)
    requires Reaches(c, acts0, st0) && Enabled(st0, a)
    ensures Reaches(c, acts, st) && st == Apply(c, st0, a)
  {
    RunSnoc(c, Init(), acts0, a);
    acts, st := acts0 + [a], Apply(c, st0, a);
  }

  /** The connection stands, and the sender waits for the hello. */
  lemma Connected(c: Setup) returns (acts: seq<Act>, st: State)
    ensures Reaches(c, acts, st)
    ensures st == State(Sender(AwaitHello, PendingPair), Receiver(RAwaitHello, Created, None), Chan([], 0), Chan([Hello(VERSION)], 0), true)
  {
    acts, st := [], Init();
    acts, st := Step(c, acts, st, RDial);
    acts, st := Step(c, acts, st, SConnect);
    acts, st := Step(c, acts, st, RWrite);
    acts, st := Step(c, acts, st, SStream);
    assert [] + [Hello(VERSION)] == [Hello(VERSION)];
  }

  /** The hellos are exchanged. */
  lemma Greeted(c: Setup) returns (acts: seq<Act>, st: State)
    ensures Reaches(c, acts, st)
    ensures st == State(Sender(AwaitPake, PendingPair), Receiver(RAwaitPake, Created, None),
                        Chan([Hello(VERSION)], 1), Chan([Hello(VERSION), Spake(c.receiverWords)], 1), true)
  {
    acts, st := Connected(c);
    acts, st := Step(c, acts, st, SRead);
    acts, st := Step(c, acts, st, SWrite);
    acts, st := Step(c, acts, st, RRead);
    acts, st := Step(c, acts, st, RWrite);
    assert [] + [Hello(VERSION)] == [Hello(VERSION)];
    assert [Hello(VERSION)] + [Spake(c.receiverWords)] == [Hello(VERSION), Spake(c.receiverWords)];
  }

  /** Each side has the message of the other. */
  lemma Exchanged(c: Setup) returns (acts: seq<Act>, st: State)
    ensures Reaches(c, acts, st)
    ensures st == State(Sender(AwaitConfirm(c.receiverWords), PendingPair), Receiver(RSendConfirm(c.senderWords), Created, None),
                        Chan([Hello(VERSION), Spake(c.senderWords)], 2), Chan([Hello(VERSION), Spake(c.receiverWords)], 2), true)
  {
    acts, st := Greeted(c);
    acts, st := Step(c, acts, st, SRead);
    acts, st := Step(c, acts, st, SWrite);
    acts, st := Step(c, acts, st, RRead);
    assert [Hello(VERSION)] + [Spake(c.senderWords)] == [Hello(VERSION), Spake(c.senderWords)];
  }

  /** Both are paired. */
  lemma BothPaired(c: Setup) returns (acts: seq<Act>, st: State)
    requires Agreed(c)
    ensures Reaches(c, acts, st)
    ensures st == State(Sender(SendOffer, Paired), Receiver(RAwaitOffer, Paired, None),
                        Chan(SenderScript(c)[..3], 3), Chan(ReceiverScript(c), 3), true)
  {
    acts, st := Exchanged(c);
    acts, st := Step(c, acts, st, RWrite);
    acts, st := Step(c, acts, st, SRead);
    acts, st := Step(c, acts, st, SWrite);
    acts, st := Step(c, acts, st, RRead);
    assert st.toR.log == SenderScript(c)[..3] && st.toS.log == ReceiverScript(c);
  }

  /** The user has the offer. */
  lemma Offered(c: Setup) returns (acts: seq<Act>, st: State)
    requires Agreed(c)
    ensures Reaches(c, acts, st)
    ensures st == State(Sender(AwaitResponse, Paired), Receiver(Prompt, Paired, None),
                        Chan(SenderScript(c), 4), Chan(ReceiverScript(c), 3), true)
  {
    acts, st := BothPaired(c);
    acts, st := Step(c, acts, st, SWrite);
    acts, st := Step(c, acts, st, RRead);
    assert st.toR.log == SenderScript(c);
  }

  /** The user has accepted, and the sender knows. */
  lemma BothTransfer(c: Setup) returns (acts: seq<Act>, st: State)
    requires Agreed(c)
    ensures Reaches(c, acts, st)
    ensures st == State(Sender(Transfer, Transferring), Receiver(Receiving, Transferring, None),
                        Chan(SenderScript(c), 4), Chan(ReceiverScript(c) + [Accept], 4), true)
  {
    acts, st := Offered(c);
    acts, st := Step(c, acts, st, RDecide(true));
    acts, st := Step(c, acts, st, RWrite);
    acts, st := Step(c, acts, st, SRead);
  }

  /** The receiver has reported `t` and waits for the sender to hang up. */
  lemma Reported(c: Setup, t: Totals) returns (acts: seq<Act>, st: State)
    requires Agreed(c)
    ensures Reaches(c, acts, st)
    ensures st == State(Sender(Transfer, Transferring), Receiver(AwaitCloseResult(t), Transferring, Some(t)),
                        Chan(SenderScript(c), 4), Chan(ReceiverScript(c) + [Accept, Result(t)], 4), true)
  {
    acts, st := BothTransfer(c);
    acts, st := Step(c, acts, st, RReceived(t));
    acts, st := Step(c, acts, st, RWrite);
    assert st.toS.log == ReceiverScript(c) + [Accept, Result(t)];
  }

  /** Whenever the words agree, and whatever the totals: a sender that fails before it
      reads the result ends the stream, which the receiver takes for its
      acknowledgement. It completes and the sender has failed. */
  lemma CompletedAlone(c: Setup, t: Totals) returns (acts: seq<Act>)
    requires Agreed(c)
    ensures Run(c, Init(), acts)
    ensures var st := After(c, Init(), acts); st.r.pc == REnded(RCompleted(t)) && st.s.pc == Ended(SendEnd.Failed(Fault))
  {
    var st;
    acts, st := Reported(c, t);
    acts, st := Step(c, acts, st, SFault);
    acts, st := Step(c, acts, st, RClosed);
  }

  // ----- interrupts ------------------------------------------------------------------

  /** The sender waits for its peer: for the connection, the stream, or a frame. */
  predicate SenderWaits(s: Sender) {
    s.pc.AwaitConn? || s.pc.AwaitStream? || s.Reading()
  }

  /** A waiting sender hears an interrupt if and only if it waits for the connection, or
      the pairing is confirmed. */
  lemma InterruptHeard(c: Setup, acts: seq<Act>, delivered: bool)
    requires Run(c, Init(), acts) && SenderWaits(After(c, Init(), acts).s)
    ensures var st := After(c, Init(), acts);
      Enabled(st, SInterrupt(delivered)) <==> st.s.pc.AwaitConn? || st.s.phase != PendingPair
  {
    RunKeepsInv(c, Init(), acts);
  }

  /** A sender that waits for the hello does not. */
  lemma InterruptUnheard(c: Setup) returns (acts: seq<Act>)
    ensures Run(c, Init(), acts) && SenderWaits(After(c, Init(), acts).s)
    ensures forall delivered :: !Enabled(After(c, Init(), acts), SInterrupt(delivered))
  {
    var st;
    acts, st := Connected(c);
  }
}
