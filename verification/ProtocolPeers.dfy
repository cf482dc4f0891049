// Each program by itself, against a peer that may write anything: exactly which streams
// it takes for a completed, declined or cancelled transfer.
module ProtocolPeers {
  import opened Basics
  import opened Sessions
  import opened Control
  import opened Protocol
  import opened ProtocolProgress

  // ----- the sender ---------------------------------------------------------------------

  /** The sender left alone with a stream of `inbound` frames, until it waits for more. */
  function Talk(c: Setup, s: Sender, inbound: seq<Frame>): Sender
    decreases SenderRank(s.pc)
  {
    if s.Writing() then Talk(c, SenderWrote(c, s), inbound)
    else if s.Reading() && inbound != [] then Talk(c, SenderReads(c, s, inbound[0]), inbound[1..])
    else s
  }

  /** The stream begins with a hello of version 1, a SPAKE2 message, and the token of the
      key that the sender derives from that message and its own words. */
  predicate Pairs(c: Setup, inbound: seq<Frame>) {
    && |inbound| >= 3
    && inbound[0] == Hello(1) && inbound[1].Spake? && inbound[2] == Confirm(Derive(c.senderWords, inbound[1].words))
  }

  /** The pairing is followed by `response`. */
  predicate Responds(c: Setup, inbound: seq<Frame>, response: Frame) {
    Pairs(c, inbound) && |inbound| >= 4 && inbound[3] == response
  }

  /** The pairing and an accept are followed by `report`. */
  predicate Reports(c: Setup, inbound: seq<Frame>, report: Frame) {
    Responds(c, inbound, Accept) && |inbound| >= 5 && inbound[4] == report
  }

  const CONNECTED := Sender(AwaitHello, PendingPair)

  lemma TalkToPairing(c: Setup, inbound: seq<Frame>)
    ensures Pairs(c, inbound) ==>
              Talk(c, CONNECTED, inbound) == Talk(c, Sender(AwaitResponse, Paired), inbound[3..])
    ensures !Pairs(c, inbound) ==>
              var s := Talk(c, CONNECTED, inbound); s.phase == PendingPair && (s.pc.Ended? ==> s.pc.end.Failed?)
  {
    if inbound != [] {
      TalkFromHello(c, inbound[0], inbound[1..]);
      if inbound[0] == Hello(1) && |inbound| > 1 {
        TalkFromPake(c, inbound[1], inbound[2..]);
        assert inbound[1..][1..] == inbound[2..];
        if inbound[1].Spake? && |inbound| > 2 {
          TalkFromConfirm(c, inbound[1].words, inbound[2], inbound[3..]);
          assert inbound[2..][1..] == inbound[3..];
        }
      }
    }
  }

  lemma TalkFromHello(c: Setup, f: Frame, rest: seq<Frame>)
    ensures Talk(c, CONNECTED, [f] + rest) ==
      if f == Hello(1) then Talk(c, Sender(AwaitPake, PendingPair), rest)
      else CONNECTED.Fail(if f.Handshake() then Malformed else if f.Hello? then VersionMismatch else WrongKind)
  {
    assert ([f] + rest)[1..] == rest;
  }

  lemma TalkFromPake(c: Setup, f: Frame, rest: seq<Frame>)
    ensures var s := Sender(AwaitPake, PendingPair);
      Talk(c, s, [f] + rest) ==
      if f.Spake? then Talk(c, Sender(AwaitConfirm(f.words), PendingPair), rest)
      else s.Fail(if f.Confirm? then WrongKind else Malformed)
  {
    assert ([f] + rest)[1..] == rest;
  }

  lemma TalkFromConfirm(c: Setup, peer: string, f: Frame, rest: seq<Frame>)
    ensures var s := Sender(AwaitConfirm(peer), PendingPair);
      Talk(c, s, [f] + rest) ==
      if f == Confirm(Derive(c.senderWords, peer)) then Talk(c, Sender(AwaitResponse, Paired), rest)
      else s.Fail(if f.Confirm? then ConfirmationMismatch else if f.Spake? then WrongKind else Malformed)
  {
    assert ([f] + rest)[1..] == rest;
    if f.Confirm? {
      var s := Sender(SendConfirm(peer, f.key), PendingPair);
      assert Talk(c, s, rest) == Talk(c, SenderWrote(c, s), rest);
    }
  }

  /** Whatever a peer writes: the sender completes, and with these totals, exactly if the
      stream is a pairing, an accept and a result whose bytes and files, exported or
      skipped, are those of the offer. */
  lemma SenderCompletesExactly(c: Setup, inbound: seq<Frame>, t: Totals)
    ensures Talk(c, CONNECTED, inbound).pc == Ended(SendEnd.Completed(t)) <==>
            && Reports(c, inbound, Result(t))
            && t.bytes + t.skippedBytes == c.total && t.files + t.skippedFiles == |c.files|
  {
    TalkToPairing(c, inbound);
    if Pairs(c, inbound) {
      TalkOn(c, inbound[3..]);
    }
  }

  /** What the sender makes of the frames after the pairing. */
  lemma TalkOn(c: Setup, rest: seq<Frame>)
    ensures var s := Talk(c, Sender(AwaitResponse, Paired), rest);
      if rest == [] then s == Sender(AwaitResponse, Paired)
      else if rest[0] != Accept then
        s == match rest[0]
             case Decline(reason) => Sender(Ended(Declined(reason)), Paired)
             case Cancel => Sender(Ended(SendEnd.Cancelled), Phase.Cancelled)
             case Hello(v) => Sender(Ended(SendEnd.Failed(if v == 1 then WrongKind else VersionMismatch)), Paired)
             case Spake(_) => Sender(Ended(SendEnd.Failed(Malformed)), Paired)
             case Confirm(_) => Sender(Ended(SendEnd.Failed(Malformed)), Paired)
             case _ => Sender(Ended(SendEnd.Failed(WrongKind)), Paired)
      else if |rest| == 1 then s == Sender(Transfer, Transferring)
      else
        s == match rest[1]
             case Result(t) =>
               if t.bytes + t.skippedBytes == c.total && t.files + t.skippedFiles == |c.files|
               then Sender(Ended(SendEnd.Completed(t)), Done)
               else Sender(Ended(SendEnd.Failed(TotalsMismatch)), Transferring)
             case Cancel => Sender(Ended(SendEnd.Cancelled), Phase.Cancelled)
             case Hello(v) => Sender(Ended(SendEnd.Failed(if v == 1 then WrongKind else VersionMismatch)), Transferring)
             case Spake(_) => Sender(Ended(SendEnd.Failed(Malformed)), Transferring)
             case Confirm(_) => Sender(Ended(SendEnd.Failed(Malformed)), Transferring)
             case _ => Sender(Ended(SendEnd.Failed(WrongKind)), Transferring)
  {
  }

  /** And it is declined, or cancelled by its peer, exactly if a refusal or a cancel stands
      where it can. */
  lemma SenderStopsExactly(c: Setup, inbound: seq<Frame>, reason: string)
    ensures var end := Talk(c, CONNECTED, inbound).pc;
      && (end == Ended(Declined(reason)) <==> Responds(c, inbound, Decline(reason)))
      && (end == Ended(SendEnd.Cancelled) <==>
            Responds(c, inbound, Frame.Cancel) || Reports(c, inbound, Frame.Cancel))
  {
    TalkToPairing(c, inbound);
    if Pairs(c, inbound) {
      TalkOn(c, inbound[3..]);
    }
  }

  // ----- the receiver, up to the question to the user ---------------------------------------

  function Listen(c: Setup, r: Receiver, inbound: seq<Frame>): Receiver
    decreases ReceiverRank(r.pc)
  {
    if r.Writing() then Listen(c, ReceiverWrote(r), inbound)
    else if r.Reading() && inbound != [] then Listen(c, ReceiverReads(c, r, inbound[0]), inbound[1..])
    else r
  }

  const DIALED := Receiver(RSendHello, Created, None)

  /** Any control message but a hello of another version, a SPAKE2 message, the token of
      the key that the receiver derives, and an offer. */
  predicate Offers(c: Setup, inbound: seq<Frame>) {
    && |inbound| >= 4
    && !inbound[0].Spake? && !inbound[0].Confirm? && (inbound[0].Hello? ==> inbound[0].version == 1)
    && inbound[1].Spake? && inbound[2] == Confirm(Derive(c.receiverWords, inbound[1].words))
    && inbound[3].Offer?
  }

  lemma ListenToPake(c: Setup, f: Frame, rest: seq<Frame>)
    ensures Listen(c, DIALED, [f] + rest) ==
      if f.Spake? || f.Confirm? then Receiver(RAwaitHello, Created, None).Fail(Malformed)
      else if f.Hello? && f.version != 1 then Receiver(RAwaitHello, Created, None).Fail(VersionMismatch)
      else Listen(c, Receiver(RAwaitPake, Created, None), rest)
  {
    assert ([f] + rest)[1..] == rest;
  }

  lemma ListenToConfirm(c: Setup, f: Frame, rest: seq<Frame>)
    ensures var r := Receiver(RAwaitPake, Created, None);
      Listen(c, r, [f] + rest) ==
      if f.Spake? then Listen(c, Receiver(RAwaitConfirm(f.words), Created, None), rest)
      else r.Fail(if f.Confirm? then WrongKind else Malformed)
  {
    assert ([f] + rest)[1..] == rest;
  }

  lemma ListenToOffer(c: Setup, peer: string, f: Frame, rest: seq<Frame>)
    ensures var r := Receiver(RAwaitConfirm(peer), Created, None);
      Listen(c, r, [f] + rest) ==
      if f == Confirm(Derive(c.receiverWords, peer)) then Listen(c, Receiver(RAwaitOffer, Paired, None), rest)
      else r.Fail(if f.Confirm? then ConfirmationMismatch else if f.Spake? then WrongKind else Malformed)
  {
    assert ([f] + rest)[1..] == rest;
  }

  lemma ListenToEnd(c: Setup, f: Frame, rest: seq<Frame>)
    ensures var r := Receiver(RAwaitOffer, Paired, None);
      Listen(c, r, [f] + rest) ==
      if f.Offer? then Receiver(Prompt, Paired, None)
      else r.Fail(if f.Spake? || f.Confirm? then Malformed
                  else if f.Hello? && f.version != 1 then VersionMismatch else WrongKind)
  {
  }

  /** Whatever a peer writes: the user is asked exactly after a pairing and an offer. */
  lemma ReceiverAsksExactly(c: Setup, inbound: seq<Frame>)
    ensures Listen(c, DIALED, inbound).pc.Prompt? <==> Offers(c, inbound)
  {
    if inbound != [] {
      ListenToPake(c, inbound[0], inbound[1..]);
      assert inbound == [inbound[0]] + inbound[1..];
      if |inbound| > 1 {
        ListenToConfirm(c, inbound[1], inbound[2..]);
        assert inbound[1..] == [inbound[1]] + inbound[2..];
      }
      if |inbound| > 2 && inbound[1].Spake? {
        ListenToOffer(c, inbound[1].words, inbound[2], inbound[3..]);
        assert inbound[2..] == [inbound[2]] + inbound[3..];
      }
      if |inbound| > 3 {
        ListenToEnd(c, inbound[3], inbound[4..]);
        assert inbound[3..] == [inbound[3]] + inbound[4..];
      }
    }
  }
}
