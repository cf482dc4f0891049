// Text and token helpers of the pairing exchange: hex payloads
// (crates/core/src/pairing/handshake.rs) and the constant-time comparison
// (crates/core/src/pairing/spake.rs).
module Handshakes {
  import opened Basics

  const SPAKE_MSG_LEN := 33
  const CONFIRM_TOKEN_LEN := 16

  datatype SpakeError = BadHandshakeLength(expected: nat, actual: nat) | WrongHandshakeKind | InvalidHex

  function HexDigit(d: nat): char
    requires d < 16
  {
    "0123456789abcdef"[d]
  }

  function HexVal(c: char): (v: Option<nat>)
    ensures v.Some? ==> v.value < 16
  {
    if '0' <= c <= '9' then Some(c as nat - '0' as nat)
    else if 'a' <= c <= 'f' then Some(c as nat - 'a' as nat + 10)
    else if 'A' <= c <= 'F' then Some(c as nat - 'A' as nat + 10)
    else None
  }

  function Hex(bytes: Bytes): string {
    if bytes == [] then ""
    else
      Hex(bytes[..|bytes| - 1]) + HexByte(bytes[|bytes| - 1])
  }

  function HexByte(b: byte): string {
    [HexDigit(b as nat / 16), HexDigit(b as nat % 16)]
  }

  lemma HexByteInjective(a: byte, b: byte)
    requires HexByte(a) == HexByte(b)
    ensures a == b
  {
    var x, y := a as nat, b as nat;
    ValOfDigit(x / 16);
    ValOfDigit(x % 16);
    ValOfDigit(y / 16);
    ValOfDigit(y % 16);
    assert HexByte(a)[0] == HexByte(b)[0] && HexByte(a)[1] == HexByte(b)[1];
  }

  /** Two digits make the byte that is printed as them, in lower case. */
  lemma HexByteOf(b: byte, hi: char, lo: char)
    requires HexVal(hi).Some? && HexVal(lo).Some? && b as nat == HexVal(hi).value * 16 + HexVal(lo).value
    ensures HexByte(b) == [LowerChar(hi), LowerChar(lo)]
  {
    DigitOfVal(hi);
    DigitOfVal(lo);
    assert b as nat / 16 == HexVal(hi).value && b as nat % 16 == HexVal(lo).value;
  }

  /** Each byte is spelled by two digits in its place, the upper half first. */
  lemma {:induction false} HexPlaces(bytes: Bytes, i: nat)
    requires i < |bytes|
    ensures |Hex(bytes)| == 2 * |bytes|
    ensures HexVal(Hex(bytes)[2 * i]) == Some(bytes[i] as nat / 16)
    ensures HexVal(Hex(bytes)[2 * i + 1]) == Some(bytes[i] as nat % 16)
  {
    var n := |bytes| - 1;
    HexIsHex(bytes[..n]);
    if i < n {
      HexPlaces(bytes[..n], i);
    } else {
      ValOfDigit(bytes[i] as nat / 16);
      ValOfDigit(bytes[i] as nat % 16);
    }
  }

  /** The vector for "fo" of section 10 of RFC 4648, in lower case. */
  lemma HexVector()
    ensures Hex([0x66, 0x6f]) == "666f"
  {
    var b: Bytes := [0x66, 0x6f];
    assert b[..1] == [0x66] && b[..1][..0] == [];
    assert Hex([0x66]) == "" + "66";
  }

  method HexEncode(bytes: Bytes) returns (out: string)
    ensures out == Hex(bytes)
  {
    out := "";
    for i := 0 to |bytes|
      invariant out == Hex(bytes[..i])
    {
      assert bytes[..i + 1][..i] == bytes[..i];
      var b := bytes[i] as nat;
      out := out + [HexDigit(b / 16)];
      out := out + [HexDigit(b % 16)];
      assert out == Hex(bytes[..i]) + HexByte(bytes[i]);
    }
    assert bytes[..|bytes|] == bytes;
  }

  /** Every character is a hex digit, of either case, and they come in pairs. */
  predicate IsHex(s: string) {
    |s| % 2 == 0 && forall i :: 0 <= i < |s| ==> HexVal(s[i]).Some?
  }

  method HexDecode(hex: string) returns (r: Result<Bytes, SpakeError>)
    ensures r.Ok? <==> IsHex(hex)
    ensures r.Ok? ==> |r.value| == |hex| / 2 && Hex(r.value) == Lower(hex)
    ensures r.Err? ==> r.error == InvalidHex
  {
    if |hex| % 2 != 0 {
      return Err(InvalidHex);
    }
    var out: Bytes := [];
    for i := 0 to |hex| / 2
      invariant |out| == i && Hex(out) == Lower(hex[..2 * i])
      invariant forall k :: 0 <= k < 2 * i ==> HexVal(hex[k]).Some?
    {
      var hi, lo := HexVal(hex[2 * i]), HexVal(hex[2 * i + 1]);
      if hi.None? || lo.None? {
        return Err(InvalidHex);
      }
      var b: byte := (hi.value * 16 + lo.value) as byte;
      assert hex[..2 * (i + 1)] == hex[..2 * i] + [hex[2 * i], hex[2 * i + 1]];
      HexStep(out, b, hex[..2 * i], hex[2 * i], hex[2 * i + 1]);
      out := out + [b];
    }
    assert hex[..2 * (|hex| / 2)] == hex;
    r := Ok(out);
  }

  /** One more byte from two more digits. */
  lemma HexStep(out: Bytes, b: byte, before: string, hi: char, lo: char)
    requires HexVal(hi).Some? && HexVal(lo).Some? && b as nat == HexVal(hi).value * 16 + HexVal(lo).value
    requires Hex(out) == Lower(before)
    ensures Hex(out + [b]) == Lower(before + [hi, lo])
  {
    HexByteOf(b, hi, lo);
    LowerConcat(before, [hi, lo]);
    assert Lower([hi, lo]) == [LowerChar(hi), LowerChar(lo)];
    assert (out + [b])[..|out|] == out;
  }

  function LowerChar(c: char): char {
    if 'A' <= c <= 'F' then (c as int - 'A' as int + 'a' as int) as char else c
  }

  function Lower(s: string): string {
    seq(|s|, i requires 0 <= i < |s| => LowerChar(s[i]))
  }

  lemma LowerConcat(a: string, b: string)
    ensures Lower(a + b) == Lower(a) + Lower(b)
  {
  }

  lemma DigitOfVal(c: char)
    requires HexVal(c).Some?
    ensures HexDigit(HexVal(c).value) == LowerChar(c)
  {
  }

  lemma ValOfDigit(d: nat)
    requires d < 16
    ensures HexVal(HexDigit(d)) == Some(d) && LowerChar(HexDigit(d)) == HexDigit(d)
  {
  }

  lemma {:induction false} HexIsHex(bytes: Bytes)
    ensures IsHex(Hex(bytes)) && |Hex(bytes)| == 2 * |bytes| && Lower(Hex(bytes)) == Hex(bytes)
  {
    if bytes == [] {
    } else {
      var init, b := bytes[..|bytes| - 1], bytes[|bytes| - 1];
      HexIsHex(init);
      HexByteIsHex(b);
      LowerConcat(Hex(init), HexByte(b));
      assert Hex(bytes) == Hex(init) + HexByte(b);
    }
  }

  lemma HexByteIsHex(b: byte)
    ensures IsHex(HexByte(b)) && Lower(HexByte(b)) == HexByte(b)
  {
    ValOfDigit(b as nat / 16);
    ValOfDigit(b as nat % 16);
  }

  lemma SplitEnds(a: string, b: string, x: string, y: string)
    requires a + x == b + y && |x| == |y|
    ensures a == b && x == y
  {
    assert a == (a + x)[..|a|] && b == (b + y)[..|b|];
    assert x == (a + x)[|a|..] && y == (b + y)[|b|..];
  }

  lemma {:induction false} HexInjective(a: Bytes, b: Bytes)
    requires Hex(a) == Hex(b)
    ensures a == b
  {
    HexIsHex(a);
    HexIsHex(b);
    if a == [] {
    } else {
      var n := |a| - 1;
      SplitEnds(Hex(a[..n]), Hex(b[..n]), HexByte(a[n]), HexByte(b[n]));
      HexByteInjective(a[n], b[n]);
      HexInjective(a[..n], b[..n]);
      assert a == a[..n] + [a[n]] && b == b[..n] + [b[n]];
    }
  }

  datatype HandshakeMessage = Spake(msg: string) | Confirm(token: string)

  method MakeSpake(msg: Bytes) returns (r: Result<HandshakeMessage, SpakeError>)
    ensures r == if |msg| == 33 then Ok(Spake(Hex(msg))) else Err(BadHandshakeLength(33, |msg|))
  {
    if |msg| != SPAKE_MSG_LEN {
      return Err(BadHandshakeLength(SPAKE_MSG_LEN, |msg|));
    }
    var hex := HexEncode(msg);
    r := Ok(Spake(hex));
  }

  method MakeConfirm(token: Bytes) returns (r: HandshakeMessage)
    requires |token| == 16
    ensures r == Confirm(Hex(token))
  {
    var hex := HexEncode(token);
    r := Confirm(hex);
  }

  method HexDecodeArray(hex: string, n: nat) returns (r: Result<Bytes, SpakeError>)
    ensures r.Ok? <==> IsHex(hex) && |hex| == 2 * n
    ensures r.Ok? ==> |r.value| == n && Hex(r.value) == Lower(hex)
    ensures r.Err? ==> r.error == if IsHex(hex) then BadHandshakeLength(n, |hex| / 2) else InvalidHex
  {
    r := HexDecode(hex);
    if r.Ok? && |r.value| != n {
      r := Err(BadHandshakeLength(n, |r.value|));
    }
  }

  /** The payload of a first-round message comes back as it was sent, whatever its
      bytes; a second-round message is refused. */
  method IntoPake(m: HandshakeMessage) returns (r: Result<Bytes, SpakeError>)
    ensures m.Confirm? ==> r == Err(WrongHandshakeKind)
    ensures forall bytes :: |bytes| == SPAKE_MSG_LEN && m == Spake(Hex(bytes)) ==> r == Ok(bytes)
    ensures r.Ok? ==> m.Spake? && |r.value| == SPAKE_MSG_LEN && Hex(r.value) == Lower(m.msg)
  {
    match m
    case Confirm(_) => r := Err(WrongHandshakeKind);
    case Spake(msg) =>
      r := HexDecodeArray(msg, SPAKE_MSG_LEN);
      forall bytes: Bytes | |bytes| == SPAKE_MSG_LEN && m == Spake(Hex(bytes)) ensures r == Ok(bytes) {
        HexIsHex(bytes);
        HexInjective(r.value, bytes);
      }
  }

  method IntoConfirm(m: HandshakeMessage) returns (r: Result<Bytes, SpakeError>)
    ensures m.Spake? ==> r == Err(WrongHandshakeKind)
    ensures forall bytes :: |bytes| == CONFIRM_TOKEN_LEN && m == Confirm(Hex(bytes)) ==> r == Ok(bytes)
    ensures r.Ok? ==> m.Confirm? && |r.value| == 16 && Hex(r.value) == Lower(m.token)
  {
    match m
    case Spake(_) => r := Err(WrongHandshakeKind);
    case Confirm(token) =>
      r := HexDecodeArray(token, CONFIRM_TOKEN_LEN);
      forall bytes: Bytes | |bytes| == CONFIRM_TOKEN_LEN && m == Confirm(Hex(bytes)) ensures r == Ok(bytes) {
        HexIsHex(bytes);
        HexInjective(r.value, bytes);
      }
  }

  /** No early exit: the differences are collected and looked at once. */
  method ConstantTimeEq(a: seq<bv8>, b: seq<bv8>) returns (eq: bool)
    ensures eq <==> a == b
  {
    if |a| != |b| {
      return false;
    }
    var diff: bv8 := 0;
    for i := 0 to |a|
      invariant diff == 0 <==> a[..i] == b[..i]
    {
      assert (diff | (a[i] ^ b[i])) == 0 <==> diff == 0 && a[i] == b[i];
      assert a[..i + 1] == a[..i] + [a[i]] && b[..i + 1] == b[..i] + [b[i]];
      diff := diff | (a[i] ^ b[i]);
    }
    assert a[..|a|] == a && b[..|b|] == b;
    eq := diff == 0;
  }
}
