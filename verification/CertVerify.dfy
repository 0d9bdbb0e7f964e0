/** The CertificateVerify message and the octets it signs (section 4.4.3 of RFC 8446). */
module CertVerify {
  import opened Wrappers
  import opened BigEndian
  import opened Handshake

  datatype CertificateVerifyMessage = CertificateVerifyMessage(algorithm: u16, signature: seq<byte>)

  function Body(m: CertificateVerifyMessage): seq<byte> {
    Be(m.algorithm, 2) + Be(|m.signature|, 2) + m.signature
  }

  function Marshal(m: CertificateVerifyMessage): Result<seq<byte>, Error> {
    if |m.signature| > MAX_U16 then Err(InvalidLength)
    else Handshake.Marshal(HandshakeMessage(CERTIFICATE_VERIFY, Body(m)))
  }

  function ParseBody(body: seq<byte>): Result<CertificateVerifyMessage, Error> {
    if |body| < 4 then Err(Truncated)
    else if |body| != 4 + FromBe(body[2..4]) then Err(InvalidLength)
    else
      BeOfFromBe(body[0..2]);
      Widths();
      Ok(CertificateVerifyMessage(FromBe(body[0..2]), body[4..]))
  }

  /** The message and the bytes it is re-printed to. */
  function Unmarshal(b: seq<byte>): Result<(CertificateVerifyMessage, seq<byte>), Error> {
    var (hm, rest) :- Handshake.Unmarshal(b);
    if rest != [] || hm.typ != CERTIFICATE_VERIFY then Err(InvalidLength)
    else
      var m :- ParseBody(hm.body);
      Ok((m, Reprint(hm)))
  }

  lemma ParseBodyOf(m: CertificateVerifyMessage)
    requires |m.signature| <= MAX_U16
    ensures ParseBody(Body(m)) == Ok(m)
  {
    var body := Body(m);
    Widths();
    FromBeOfBe(m.algorithm, 2);
    FromBeOfBe(|m.signature|, 2);
    hide Be, FromBe, Pow256;
    assert body[0..2] == Be(m.algorithm, 2) && body[2..4] == Be(|m.signature|, 2) && body[4..] == m.signature;
  }

  lemma BodyOfParsed(body: seq<byte>)
    requires ParseBody(body).Ok?
    ensures Body(ParseBody(body).value) == body && |ParseBody(body).value.signature| <= MAX_U16
  {
    BeOfFromBe(body[0..2]);
    BeOfFromBe(body[2..4]);
    Widths();
    hide Be, FromBe, Pow256;
    assert body == body[0..2] + body[2..4] + body[4..];
  }

  lemma UnmarshalMarshal(m: CertificateVerifyMessage)
    requires Marshal(m).Ok?
    ensures Unmarshal(Marshal(m).value) == Ok((m, Marshal(m).value))
  {
    ParseBodyOf(m);
    Handshake.UnmarshalMarshal(HandshakeMessage(CERTIFICATE_VERIFY, Body(m)), []);
    assert Marshal(m).value + [] == Marshal(m).value;
    hide Handshake.Marshal, Handshake.Unmarshal, Body, ParseBody;
  }

  lemma MarshalUnmarshal(b: seq<byte>)
    requires Unmarshal(b).Ok?
    ensures Marshal(Unmarshal(b).value.0) == Ok(b) && Unmarshal(b).value.1 == b
  {
    Handshake.MarshalUnmarshal(b);
    assert b + [] == b;
    BodyOfParsed(Handshake.Unmarshal(b).value.0.body);
    hide Handshake.Unmarshal, Body, ParseBody;
  }

  method MarshalCertificateVerify(m: CertificateVerifyMessage) returns (r: Result<seq<byte>, Error>)
    ensures r == Marshal(m)
  {
    if |m.signature| > MAX_U16 {
      return Err(InvalidLength);
    }
    hide Be, Handshake.Marshal;
    var n := |m.signature|;
    var body := new byte[4 + n](_ => 0);
    StoreBe(body, 0, 2, m.algorithm);
    assert body[..2] == Be(m.algorithm, 2);
    StoreBe(body, 2, 2, n);
    ghost var head := body[..4];
    assert head == Be(m.algorithm, 2) + Be(n, 2);
    forall k | 0 <= k < n { body[4 + k] := m.signature[k]; }
    assert body[..] == head + m.signature;
    r := MarshalHandshakeMessage(HandshakeMessage(CERTIFICATE_VERIFY, body[..]));
  }

  // ----------------------------------------------------------------------- the signed octets

  function Spaces(n: nat): (s: seq<byte>)
    ensures |s| == n
  {
    seq(n, _ => 0x20)
  }

  /** "Exported Authenticator" in ASCII. */
  const CONTEXT_STRING: seq<byte> := [
    0x45, 0x78, 0x70, 0x6f, 0x72, 0x74, 0x65, 0x64, 0x20,
    0x41, 0x75, 0x74, 0x68, 0x65, 0x6e, 0x74, 0x69, 0x63, 0x61, 0x74, 0x6f, 0x72]

  function SignedOctets(transcriptHash: seq<byte>): seq<byte> {
    Spaces(64) + CONTEXT_STRING + [0] + transcriptHash
  }

  /** A signature over the octets of one transcript is not one over another's. */
  lemma SignedOctetsInjective(a: seq<byte>, b: seq<byte>)
    requires SignedOctets(a) == SignedOctets(b)
    ensures a == b
  {
    var n := 64 + |CONTEXT_STRING| + 1;
    assert a == SignedOctets(a)[n..];
    assert b == SignedOctets(b)[n..];
  }

  method BuildCertVerifyInput(transcriptHash: seq<byte>) returns (out: seq<byte>)
    ensures out == SignedOctets(transcriptHash)
  {
    var prefix := [];
    for i := 0 to 64
      invariant prefix == Spaces(i)
    {
      prefix := prefix + [0x20];
    }
    out := [];
    out := out + prefix;
    out := out + CONTEXT_STRING;
    out := out + [0];
    out := out + transcriptHash;
  }
}
