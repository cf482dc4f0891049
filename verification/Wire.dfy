// Framing (crates/core/src/protocol/wire.rs) and the two readers that share one
// stream: control messages (crates/core/src/session/control.rs) and handshake
// messages (crates/cli/src/wire.rs, `recv_handshake`).
module Wire {
  import opened Basics

  const MAX_FRAME_BYTES := 16 * 1024 * 1024

  datatype WireError = MissingLengthPrefix | FrameTooLarge | LengthMismatch | Deserialize

  datatype RecvError = UnexpectedEof | WireFailure(error: WireError) | VersionMismatch

  /** `n` in `k` bytes, least significant first. */
  function ToLe(n: nat, k: nat): (r: Bytes)
    ensures |r| == k
  {
    if k == 0 then [] else [(n % 0x100) as byte] + ToLe(n / 0x100, k - 1)
  }

  function FromLe(b: Bytes): nat {
    if b == [] then 0 else b[0] as nat + 0x100 * FromLe(b[1..])
  }

  function Capacity(k: nat): nat {
    if k == 0 then 1 else 0x100 * Capacity(k - 1)
  }

  lemma {:induction false} LeRoundTrip(n: nat, k: nat)
    requires n < Capacity(k)
    ensures FromLe(ToLe(n, k)) == n
  {
    if k == 0 {
    } else {
      LeRoundTrip(n / 0x100, k - 1);
      assert ToLe(n, k)[1..] == ToLe(n / 0x100, k - 1);
    }
  }

  /** The length prefix: `u32::to_le_bytes` and back. */
  function ToLe32(n: nat): (r: Bytes)
    requires n < 0x1_0000_0000
    ensures |r| == 4 && FromLe(r) == n
    ensures n == r[0] as nat + 0x100 * r[1] as nat + 0x1_0000 * r[2] as nat + 0x100_0000 * r[3] as nat
  {
    assert Capacity(4) == 0x1_0000_0000;
    LeRoundTrip(n, 4);
    FourBytes(ToLe(n, 4));
    ToLe(n, 4)
  }

  /** The first byte is the least significant one. */
  lemma FourBytes(b: Bytes)
    requires |b| == 4
    ensures FromLe(b) == b[0] as nat + 0x100 * b[1] as nat + 0x1_0000 * b[2] as nat + 0x100_0000 * b[3] as nat
  {
    assert FromLe(b[1..]) == b[1] as nat + 0x100 * FromLe(b[2..]) by {
      assert b[1..][1..] == b[2..];
    }
    assert FromLe(b[2..]) == b[2] as nat + 0x100 * FromLe(b[3..]) by {
      assert b[2..][1..] == b[3..];
    }
    assert FromLe(b[3..]) == b[3] as nat by {
      assert b[3..] == [b[3]] && [b[3]][1..] == [];
    }
  }

  /** A message format: JSON of one message type, and the check that follows it (the
      protocol version of a Hello; nothing for handshake messages). */
  datatype Format<!M> = Format(ser: M -> Bytes, de: Bytes -> Option<M>, current: M -> bool)

  /** What is asked of serde: a serialized message is parsed back. */
  ghost predicate RoundTrips<M(!new)>(f: Format<M>) {
    forall m :: f.de(f.ser(m)) == Some(m)
  }

  predicate Sendable<M>(f: Format<M>, m: M) {
    |f.ser(m)| <= MAX_FRAME_BYTES
  }

  function FrameOf<M>(f: Format<M>, m: M): Bytes
    requires Sendable(f, m)
  {
    ToLe32(|f.ser(m)|) + f.ser(m)
  }

  method Encode<M>(f: Format<M>, m: M) returns (r: Result<Bytes, WireError>)
    ensures r == if Sendable(f, m) then Ok(FrameOf(f, m)) else Err(FrameTooLarge)
    ensures r.Ok? <==> |f.ser(m)| <= 16_777_216
  {
    var body := f.ser(m);
    if |body| > MAX_FRAME_BYTES {
      return Err(FrameTooLarge);
    }
    var frame: Bytes := [];
    frame := frame + ToLe32(|body|);
    frame := frame + body;
    assert frame == ToLe32(|body|) + body;
    r := Ok(frame);
  }

  function Decode<M>(f: Format<M>, frame: Bytes): Result<M, WireError> {
    if |frame| < 4 then Err(MissingLengthPrefix)
    else
      var declared := FromLe(frame[..4]);
      if declared > MAX_FRAME_BYTES then Err(FrameTooLarge)
      else if |frame| - 4 != declared then Err(LengthMismatch)
      else
        match f.de(frame[4..])
        case Some(m) => Ok(m)
        case None => Err(Deserialize)
  }

  /** Decoding undoes encoding, and accepts one frame only. */
  lemma DecodeEncode<M(!new)>(f: Format<M>, m: M, extra: Bytes)
    requires RoundTrips(f) && Sendable(f, m)
    ensures Decode(f, FrameOf(f, m) + extra) == if extra == [] then Ok(m) else Err(LengthMismatch)
  {
    var frame := FrameOf(f, m) + extra;
    assert frame[..4] == ToLe32(|f.ser(m)|);
    assert frame[4..] == f.ser(m) + extra;
    assert extra == [] ==> f.ser(m) + extra == f.ser(m);
  }

  /** What the decoder makes of any bytes. */
  lemma DecodeExactly<M>(f: Format<M>, frame: Bytes, m: M)
    ensures Decode(f, frame) == Ok(m) <==>
            |frame| >= 4 && |frame| - 4 == FromLe(frame[..4]) <= 16_777_216 && f.de(frame[4..]) == Some(m)
    ensures Decode(f, frame) == Err(MissingLengthPrefix) <==> |frame| < 4
    ensures Decode(f, frame) == Err(FrameTooLarge) <==> |frame| >= 4 && FromLe(frame[..4]) > 16_777_216
    ensures Decode(f, frame) == Err(LengthMismatch) <==>
            |frame| >= 4 && FromLe(frame[..4]) <= 16_777_216 && |frame| - 4 != FromLe(frame[..4])
  {
  }

  /** What a reader makes of the bytes ahead of it, and what it leaves. A stream that
      ends inside a read is used up. */
  function ReadFrame<M>(f: Format<M>, data: Bytes): (Result<M, RecvError>, Bytes) {
    if |data| < 4 then (Err(UnexpectedEof), [])
    else
      var declared := FromLe(data[..4]);
      if declared > MAX_FRAME_BYTES then (Err(WireFailure(FrameTooLarge)), data[4..])
      else if |data| - 4 < declared then (Err(UnexpectedEof), [])
      else
        match Decode(f, data[..4 + declared])
        case Err(error) => (Err(WireFailure(error)), data[4 + declared..])
        case Ok(m) => (if f.current(m) then Ok(m) else Err(VersionMismatch), data[4 + declared..])
  }

  class Stream {
    var data: Bytes

    constructor (data: Bytes)
      ensures this.data == data
    {
      this.data := data;
    }

    /** Fill a buffer of `n` bytes, or meet the end of the stream. */
    method ReadExact(n: nat) returns (r: Option<Bytes>)
      modifies this
      ensures r == if n <= |old(data)| then Some(old(data)[..n]) else None
      ensures data == if n <= |old(data)| then old(data)[n..] else []
    {
      if n > |data| {
        data := [];
        return None;
      }
      r := Some(data[..n]);
      data := data[n..];
    }

    method Send<M>(f: Format<M>, m: M) returns (r: Result<(), WireError>)
      modifies this
      ensures r.Ok? <==> Sendable(f, m)
      ensures data == old(data) + if Sendable(f, m) then FrameOf(f, m) else []
    {
      var frame := Encode(f, m);
      if frame.Err? {
        return Err(frame.error);
      }
      data := data + frame.value;
      r := Ok(());
    }

    method Recv<M>(f: Format<M>) returns (r: Result<M, RecvError>)
      modifies this
      ensures (r, data) == ReadFrame(f, old(data))
    {
      ghost var all := data;
      var prefix := ReadExact(4);
      if prefix.None? {
        return Err(UnexpectedEof);
      }
      var declared := FromLe(prefix.value);
      if declared > MAX_FRAME_BYTES {
        return Err(WireFailure(FrameTooLarge));
      }
      var body := ReadExact(declared);
      if body.None? {
        return Err(UnexpectedEof);
      }
      var frame: Bytes := [];
      frame := frame + prefix.value;
      frame := frame + body.value;
      assert frame == all[..4 + declared];
      var decoded := Decode(f, frame);
      match decoded
      case Err(error) => r := Err(WireFailure(error));
      case Ok(m) => r := if f.current(m) then Ok(m) else Err(VersionMismatch);
    }
  }

  /** A reader takes exactly the frame ahead of it and leaves the rest, also when it
      refuses the message for its version. */
  lemma ReadBack<M(!new)>(f: Format<M>, m: M, rest: Bytes)
    requires RoundTrips(f) && Sendable(f, m)
    ensures ReadFrame(f, FrameOf(f, m) + rest) == (if f.current(m) then Ok(m) else Err(VersionMismatch), rest)
  {
    var data := FrameOf(f, m) + rest;
    var declared := |f.ser(m)|;
    assert data[..4] == ToLe32(declared);
    assert data[..4 + declared] == FrameOf(f, m) + [];
    assert data[4 + declared..] == rest;
    DecodeEncode(f, m, []);
  }

  /** `data` is a length prefix, a body of that length, at most 16 MiB, and `rest`. */
  predicate Framed(data: Bytes, body: Bytes, rest: Bytes) {
    && |data| >= 4 && data[4..] == body + rest
    && |body| == FromLe(data[..4]) <= 16_777_216
  }

  /** Exactly what a reader takes for a message, whatever the bytes ahead of it; and when
      it finds a body too large, or the end of the stream. */
  lemma ReadExactly<M>(f: Format<M>, data: Bytes, m: M, rest: Bytes)
    ensures ReadFrame(f, data) == (Ok(m), rest) <==>
            exists body :: Framed(data, body, rest) && f.de(body) == Some(m) && f.current(m)
    ensures ReadFrame(f, data).0 == Err(WireFailure(FrameTooLarge)) <==> |data| >= 4 && FromLe(data[..4]) > 16_777_216
    ensures ReadFrame(f, data).0 == Err(UnexpectedEof) <==>
            |data| < 4 || (FromLe(data[..4]) <= 16_777_216 && |data| - 4 < FromLe(data[..4]))
    ensures ReadFrame(f, data) == (Err(WireFailure(Deserialize)), rest) <==>
            exists body :: Framed(data, body, rest) && f.de(body).None?
  {
    if |data| >= 4 && FromLe(data[..4]) <= MAX_FRAME_BYTES && |data| - 4 >= FromLe(data[..4]) {
      var n := FromLe(data[..4]);
      var frame, body, left := data[..4 + n], data[4..4 + n], data[4 + n..];
      assert frame[..4] == data[..4] && frame[4..] == body;
      assert data[4..] == body + left;
      if ReadFrame(f, data) == (Ok(m), rest) || ReadFrame(f, data) == (Err(WireFailure(Deserialize)), rest) {
        assert Framed(data, body, rest);
      }
      forall other | Framed(data, other, rest) ensures other == body && rest == left {
        assert other == data[4..][..n] && rest == data[4..][n..];
      }
    }
  }

  /** Every proper part of a frame is the end of the stream to its reader, never a
      message and never a framing error. */
  lemma TruncatedFrame<M(!new)>(f: Format<M>, m: M, part: Bytes)
    requires Sendable(f, m) && part < FrameOf(f, m)
    ensures ReadFrame(f, part).0 == Err(UnexpectedEof)
  {
    if |part| >= 4 {
      assert part[..4] == FrameOf(f, m)[..4] == ToLe32(|f.ser(m)|);
    }
  }

  /** Read off a stream, a frame is always whole: the two checks of the decoder that
      compare lengths cannot fail, whatever the bytes. */
  lemma StreamsNeverMismatch<M>(f: Format<M>, data: Bytes)
    ensures ReadFrame(f, data).0 != Err(WireFailure(LengthMismatch))
    ensures ReadFrame(f, data).0 != Err(WireFailure(MissingLengthPrefix))
    ensures |ReadFrame(f, data).1| <= |data|
  {
    if |data| >= 4 && FromLe(data[..4]) <= MAX_FRAME_BYTES && |data| - 4 >= FromLe(data[..4]) {
      assert data[..4 + FromLe(data[..4])][..4] == data[..4];
    }
  }

  // ----- two formats on one stream ---------------------------------------------------

  datatype Message<A, B> = Control(a: A) | Handshake(b: B)

  predicate MessageOk<A, B>(c: Format<A>, h: Format<B>, m: Message<A, B>) {
    match m
    case Control(a) => Sendable(c, a) && c.current(a)
    case Handshake(b) => Sendable(h, b) && h.current(b)
  }

  function MessageFrame<A, B>(c: Format<A>, h: Format<B>, m: Message<A, B>): Bytes
    requires MessageOk(c, h, m)
  {
    match m
    case Control(a) => FrameOf(c, a)
    case Handshake(b) => FrameOf(h, b)
  }

  predicate AllSendable<A, B>(c: Format<A>, h: Format<B>, messages: seq<Message<A, B>>) {
    forall i :: 0 <= i < |messages| ==> MessageOk(c, h, messages[i])
  }

  function Written<A, B>(c: Format<A>, h: Format<B>, messages: seq<Message<A, B>>): Bytes
    requires AllSendable(c, h, messages)
  {
    if messages == [] then [] else MessageFrame(c, h, messages[0]) + Written(c, h, messages[1..])
  }

  /** Read with the readers `kinds` asks for, one after the other, until one fails. */
  function ReadAll<A, B>(c: Format<A>, h: Format<B>, kinds: seq<bool>, data: Bytes): (seq<Message<A, B>>, Bytes)
    decreases kinds
  {
    if kinds == [] then ([], data)
    else if kinds[0] then
      match ReadFrame(c, data)
      case (Ok(a), rest) => var (more, left) := ReadAll(c, h, kinds[1..], rest); ([Control(a)] + more, left)
      case (Err(_), rest) => ([], rest)
    else
      match ReadFrame(h, data)
      case (Ok(b), rest) => var (more, left) := ReadAll(c, h, kinds[1..], rest); ([Handshake(b)] + more, left)
      case (Err(_), rest) => ([], rest)
  }

  function Kinds<A, B>(messages: seq<Message<A, B>>): seq<bool> {
    if messages == [] then [] else [messages[0].Control?] + Kinds(messages[1..])
  }

  /** One message is read by its own reader, and the others go on from there. */
  lemma ReadNext<A(!new), B(!new)>(c: Format<A>, h: Format<B>, m: Message<A, B>, kinds: seq<bool>, after: Bytes)
    requires RoundTrips(c) && RoundTrips(h) && MessageOk(c, h, m)
    ensures var (more, left) := ReadAll(c, h, kinds, after);
      ReadAll(c, h, [m.Control?] + kinds, MessageFrame(c, h, m) + after) == ([m] + more, left)
  {
    assert ([m.Control?] + kinds)[1..] == kinds;
    match m
    case Control(a) => ReadBack(c, a, after);
    case Handshake(b) => ReadBack(h, b, after);
  }

  lemma FirstWritten<A(!new), B(!new)>(c: Format<A>, h: Format<B>, messages: seq<Message<A, B>>, rest: Bytes)
    requires messages != [] && AllSendable(c, h, messages) && AllSendable(c, h, messages[1..])
    ensures Written(c, h, messages) + rest == MessageFrame(c, h, messages[0]) + (Written(c, h, messages[1..]) + rest)
  {
    var first, others := MessageFrame(c, h, messages[0]), Written(c, h, messages[1..]);
    assert (first + others) + rest == first + (others + rest);
  }

  /** Any mixture of control and handshake messages written to one stream is read back
      as exactly that mixture by the readers in the same order, and what was written
      after it is still there. */
  lemma {:induction false} MixedReadBack<A(!new), B(!new)>(
      c: Format<A>, h: Format<B>, messages: seq<Message<A, B>>, rest: Bytes)
    requires RoundTrips(c) && RoundTrips(h) && AllSendable(c, h, messages)
    ensures ReadAll(c, h, Kinds(messages), Written(c, h, messages) + rest) == (messages, rest)
    decreases messages
  {
    if messages == [] {
      assert Written(c, h, messages) + rest == rest;
    } else {
      var tail := messages[1..];
      assert AllSendable(c, h, tail);
      MixedReadBack(c, h, tail, rest);
      FirstWritten(c, h, messages, rest);
      ReadNext(c, h, messages[0], Kinds(tail), Written(c, h, tail) + rest);
      assert [messages[0]] + tail == messages;
    }
  }
}
