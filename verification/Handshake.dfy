/** TLS 1.3 handshake framing (section 4 of RFC 8446): a type byte, a 24-bit length and a body. */
module Handshake {
  import opened Wrappers
  import opened BigEndian

  type u16 = x: int | 0 <= x < 0x1_0000

  /** The errors of the authenticator and attestation packages; `Foreign` stands for a library's own error. */
  datatype Error =
    | Truncated
    | InvalidLength
    | UnsupportedHandshakeType
    | NotTls13
    | UnknownCipherSuite
    | ContextReuse
    | InvalidRole
    | UnsupportedSignatureScheme
    | SignatureMismatch
    | FinishedMismatch
    | ContextMismatch
    | BadRequest
    | MalformedPayload
    | MissingStatement
    | MissingBinder
    | AikPubHashMismatch
    | BindingMismatch
    | EvidenceVerifierMissing
    | ResultsVerifierMissing
    | Foreign

  const HEADER_LEN := 4
  const MAX_U16 := 0xFFFF
  const MAX_U24 := 0xFF_FFFF

  const CERTIFICATE: byte := 11
  const CERTIFICATE_REQUEST: byte := 13
  const CERTIFICATE_VERIFY: byte := 15
  const CLIENT_CERTIFICATE_REQUEST: byte := 17
  const FINISHED: byte := 20

  datatype HandshakeMessage = HandshakeMessage(typ: byte, body: seq<byte>)

  function Marshal(m: HandshakeMessage): Result<seq<byte>, Error> {
    if |m.body| > MAX_U24 then Err(InvalidLength)
    else Ok([m.typ] + Be(|m.body|, 3) + m.body)
  }

  /** The first message of `b` and what follows it. */
  function Unmarshal(b: seq<byte>): Result<(HandshakeMessage, seq<byte>), Error> {
    if |b| < HEADER_LEN then Err(Truncated)
    else
      var n := FromBe(b[1..4]);
      if |b| < HEADER_LEN + n then Err(Truncated)
      else Ok((HandshakeMessage(b[0], b[4..4 + n]), b[4 + n..]))
  }

  /** The bytes a parsed message is printed back to; callers ignore the error return. */
  function Reprint(m: HandshakeMessage): seq<byte> {
    match Marshal(m)
    case Ok(bytes) => bytes
    case Err(_) => []
  }

  /** Parsing undoes printing, whatever follows the message. */
  lemma UnmarshalMarshal(m: HandshakeMessage, rest: seq<byte>)
    requires Marshal(m).Ok?
    ensures Unmarshal(Marshal(m).value + rest) == Ok((m, rest))
  {
    var b := Marshal(m).value + rest;
    Widths();
    FromBeOfBe(|m.body|, 3);
    assert b[1..4] == Be(|m.body|, 3);
    assert b[4..4 + |m.body|] == m.body && b[4 + |m.body|..] == rest;
  }

  /** Printing undoes parsing: what was consumed is exactly the printed message. */
  lemma MarshalUnmarshal(b: seq<byte>)
    requires Unmarshal(b).Ok?
    ensures var (m, rest) := Unmarshal(b).value;
            Marshal(m).Ok? && b == Marshal(m).value + rest
  {
    var n := FromBe(b[1..4]);
    BeOfFromBe(b[1..4]);
    Widths();
    assert b == [b[0]] + b[1..4] + b[4..4 + n] + b[4 + n..];
  }

  /** Allocates the message, writes type and length, and copies the body. */
  method MarshalHandshakeMessage(m: HandshakeMessage) returns (r: Result<seq<byte>, Error>)
    ensures r == Marshal(m)
  {
    if |m.body| > MAX_U24 {
      return Err(InvalidLength);
    }
    var out := new byte[HEADER_LEN + |m.body|](_ => 0);
    out[0] := m.typ;
    StoreBe(out, 1, 3, |m.body|);
    forall k | 0 <= k < |m.body| { out[HEADER_LEN + k] := m.body[k]; }
    assert out[..] == [m.typ] + Be(|m.body|, 3) + m.body;
    r := Ok(out[..]);
  }

  method UnmarshalHandshakeMessage(b: seq<byte>) returns (r: Result<(HandshakeMessage, seq<byte>), Error>)
    ensures r == Unmarshal(b)
  {
    if |b| < HEADER_LEN {
      return Err(Truncated);
    }
    var n := LoadBe(b[1..4]);
    BeOfFromBe(b[1..4]);
    Widths();
    if n > MAX_U24 {
      return Err(InvalidLength);
    }
    if |b| < HEADER_LEN + n {
      return Err(Truncated);
    }
    var body := new byte[n](_ => 0);
    forall k | 0 <= k < n { body[k] := b[HEADER_LEN + k]; }
    assert body[..] == b[4..4 + n];
    r := Ok((HandshakeMessage(b[0], body[..]), b[HEADER_LEN + n..]));
  }
}
