/** Authenticator requests (section 4 of RFC 9261) and their signature-scheme extensions (section 4.2.3 of RFC 8446). */
module Request {
  import opened Wrappers
  import opened BigEndian
  import opened Handshake
  import opened Extensions

  const SIGNATURE_ALGORITHMS: u16 := 0x000d
  const SIGNATURE_ALGORITHMS_CERT: u16 := 0x0032

  datatype AuthenticatorRequest = AuthenticatorRequest(typ: byte, context: seq<byte>, extensions: seq<Extension>)

  predicate IsRequestType(typ: byte) {
    typ == CERTIFICATE_REQUEST || typ == CLIENT_CERTIFICATE_REQUEST
  }

  function Marshal(r: AuthenticatorRequest): Result<seq<byte>, Error> {
    if !IsRequestType(r.typ) then Err(UnsupportedHandshakeType)
    else if |r.context| > 255 then Err(InvalidLength)
    else
      var exts :- Extensions.Marshal(r.extensions);
      Handshake.Marshal(HandshakeMessage(r.typ, [|r.context|] + r.context + exts))
  }

  function ParseBody(typ: byte, body: seq<byte>): Result<AuthenticatorRequest, Error> {
    if |body| < 1 then Err(Truncated)
    else
      var ctxLen: int := body[0];
      if |body| < 1 + ctxLen then Err(Truncated)
      else
        var tail :- Extensions.Unmarshal(body[1 + ctxLen..]);
        if tail.1 != [] then Err(InvalidLength)
        else Ok(AuthenticatorRequest(typ, body[1..1 + ctxLen], tail.0))
  }

  /** The request at the start of `b` and what follows it. */
  function Unmarshal(b: seq<byte>): Result<(AuthenticatorRequest, seq<byte>), Error> {
    var (hm, rest) :- Handshake.Unmarshal(b);
    if !IsRequestType(hm.typ) then Err(UnsupportedHandshakeType)
    else
      var r :- ParseBody(hm.typ, hm.body);
      Ok((r, rest))
  }

  // ------------------------------------------------------------------------- round trips

  lemma ParseBodyOf(typ: byte, context: seq<byte>, exts: seq<Extension>)
    requires |context| < 256 && Extensions.Marshal(exts).Ok?
    ensures ParseBody(typ, [|context|] + context + Extensions.Marshal(exts).value)
            == Ok(AuthenticatorRequest(typ, context, exts))
  {
    var vec, c := Extensions.Marshal(exts).value, |context|;
    var body := [c] + context + vec;
    Extensions.UnmarshalMarshal(exts, []);
    hide Extensions.Marshal, Extensions.Unmarshal;
    assert vec + [] == vec;
    assert body[1..1 + c] == context && body[1 + c..] == vec;
  }

  lemma BodyOfParsed(typ: byte, body: seq<byte>)
    requires ParseBody(typ, body).Ok?
    ensures var r := ParseBody(typ, body).value;
            && r.typ == typ && |r.context| < 256 && Extensions.Marshal(r.extensions).Ok?
            && body == [|r.context|] + r.context + Extensions.Marshal(r.extensions).value
  {
    var c: int := body[0];
    Extensions.MarshalUnmarshal(body[1 + c..]);
    hide Extensions.Marshal, Extensions.Unmarshal;
    assert body == [c] + body[1..1 + c] + body[1 + c..];
  }

  /** Parsing undoes printing and leaves whatever follows the request untouched. */
  lemma UnmarshalMarshal(r: AuthenticatorRequest, rest: seq<byte>)
    requires Marshal(r).Ok?
    ensures Unmarshal(Marshal(r).value + rest) == Ok((r, rest))
  {
    ParseBodyOf(r.typ, r.context, r.extensions);
    var body := [|r.context|] + r.context + Extensions.Marshal(r.extensions).value;
    Handshake.UnmarshalMarshal(HandshakeMessage(r.typ, body), rest);
    hide Extensions.Marshal, Handshake.Marshal, Handshake.Unmarshal, ParseBody;
  }

  /** Printing undoes parsing: the bytes consumed are the printed request. */
  lemma MarshalUnmarshal(b: seq<byte>)
    requires Unmarshal(b).Ok?
    ensures var (r, rest) := Unmarshal(b).value;
            Marshal(r).Ok? && b == Marshal(r).value + rest
  {
    var (hm, rest) := Handshake.Unmarshal(b).value;
    Handshake.MarshalUnmarshal(b);
    BodyOfParsed(hm.typ, hm.body);
    hide Extensions.Marshal, Handshake.Unmarshal, ParseBody;
  }

  // ------------------------------------------------------------------- signature schemes

  function EncodeSchemes(schemes: seq<u16>): (s: seq<byte>)
    ensures |s| == 2 * |schemes|
  {
    if schemes == [] then [] else Be(schemes[0], 2) + EncodeSchemes(schemes[1..])
  }

  function DecodeSchemes(s: seq<byte>): (schemes: seq<u16>)
    requires |s| % 2 == 0
    ensures |schemes| == |s| / 2
  {
    if s == [] then []
    else
      BeOfFromBe(s[..2]);
      Widths();
      [FromBe(s[..2])] + DecodeSchemes(s[2..])
  }

  /** The extension listing `schemes`: none, or more than 0x7fff of them, cannot be written. */
  function SchemesExtension(typ: u16, schemes: seq<u16>): Result<Extension, Error> {
    if |schemes| == 0 || |schemes| > 0x7fff then Err(InvalidLength)
    else Ok(Extension(typ, Be(2 * |schemes|, 2) + EncodeSchemes(schemes)))
  }

  function ParseSchemes(data: seq<byte>): Option<seq<u16>> {
    if |data| < 2 then None
    else
      var vecLen := FromBe(data[..2]);
      if vecLen < 2 || vecLen % 2 != 0 || |data| != 2 + vecLen then None
      else Some(DecodeSchemes(data[2..]))
  }

  /** Only the first extension of the type is looked at, even when it is malformed. */
  function SchemesOf(exts: seq<Extension>, typ: u16): Option<seq<u16>> {
    if exts == [] then None
    else if exts[0].typ == typ then ParseSchemes(exts[0].data)
    else SchemesOf(exts[1..], typ)
  }

  function SignatureSchemes(r: AuthenticatorRequest): Option<seq<u16>> {
    SchemesOf(r.extensions, SIGNATURE_ALGORITHMS)
  }

  lemma {:induction false} DecodeEncode(schemes: seq<u16>)
    ensures DecodeSchemes(EncodeSchemes(schemes)) == schemes
  {
    if schemes != [] {
      var s := EncodeSchemes(schemes);
      Widths();
      FromBeOfBe(schemes[0], 2);
      DecodeEncode(schemes[1..]);
      hide Be, FromBe;
      assert s[..2] == Be(schemes[0], 2) && s[2..] == EncodeSchemes(schemes[1..]);
    }
  }

  lemma {:induction false} EncodeDecode(s: seq<byte>)
    requires |s| % 2 == 0
    ensures EncodeSchemes(DecodeSchemes(s)) == s
  {
    if s != [] {
      BeOfFromBe(s[..2]);
      EncodeDecode(s[2..]);
      hide Be, FromBe;
      assert DecodeSchemes(s)[1..] == DecodeSchemes(s[2..]);
    }
  }

  /** Every list of 1 to 0x7fff schemes is read back. */
  lemma ParseBuilt(typ: u16, schemes: seq<u16>)
    requires SchemesExtension(typ, schemes).Ok?
    ensures ParseSchemes(SchemesExtension(typ, schemes).value.data) == Some(schemes)
  {
    var data := SchemesExtension(typ, schemes).value.data;
    DecodeEncode(schemes);
    Widths();
    FromBeOfBe(2 * |schemes|, 2);
    hide Be, FromBe, Pow256;
    assert data[..2] == Be(2 * |schemes|, 2) && data[2..] == EncodeSchemes(schemes);
  }

  /** Only built extensions are accepted: the parsed list rebuilds the very data, and is never empty. */
  lemma BuiltParsed(typ: u16, data: seq<byte>)
    requires ParseSchemes(data).Some?
    ensures SchemesExtension(typ, ParseSchemes(data).value) == Ok(Extension(typ, data))
    ensures ParseSchemes(data).value != []
  {
    EncodeDecode(data[2..]);
    BeOfFromBe(data[..2]);
    Widths();
    hide Be, FromBe, Pow256;
    assert data == data[..2] + data[2..];
  }

  lemma {:induction false} SchemesOfFirst(exts: seq<Extension>, typ: u16, i: nat)
    requires i < |exts| && exts[i].typ == typ
    requires forall j :: 0 <= j < i ==> exts[j].typ != typ
    ensures SchemesOf(exts, typ) == ParseSchemes(exts[i].data)
  {
    if i > 0 {
      SchemesOfFirst(exts[1..], typ, i - 1);
    }
  }

  /** The schemes survive being built, embedded in a request, printed, sent ahead of anything, and parsed. */
  lemma SchemesSurviveTransport(r: AuthenticatorRequest, i: nat, schemes: seq<u16>, rest: seq<byte>)
    requires Marshal(r).Ok? && i < |r.extensions|
    requires SchemesExtension(SIGNATURE_ALGORITHMS, schemes) == Ok(r.extensions[i])
    requires forall j :: 0 <= j < i ==> r.extensions[j].typ != SIGNATURE_ALGORITHMS
    ensures Unmarshal(Marshal(r).value + rest).Ok?
    ensures SignatureSchemes(Unmarshal(Marshal(r).value + rest).value.0) == Some(schemes)
  {
    UnmarshalMarshal(r, rest);
    hide Marshal, Unmarshal;
    SchemesOfFirst(r.extensions, SIGNATURE_ALGORITHMS, i);
    ParseBuilt(SIGNATURE_ALGORITHMS, schemes);
  }

  lemma {:induction false} SchemesNonEmpty(exts: seq<Extension>, typ: u16)
    requires SchemesOf(exts, typ).Some?
    ensures SchemesOf(exts, typ).value != []
  {
    if exts[0].typ == typ {
      BuiltParsed(typ, exts[0].data);
    } else {
      SchemesNonEmpty(exts[1..], typ);
    }
  }

  // -------------------------------------------------------------------- the Go routines

  method MarshalRequest(r: AuthenticatorRequest) returns (out: Result<seq<byte>, Error>)
    ensures out == Marshal(r)
  {
    if r.typ != CERTIFICATE_REQUEST && r.typ != CLIENT_CERTIFICATE_REQUEST {
      return Err(UnsupportedHandshakeType);
    }
    if |r.context| > 255 {
      return Err(InvalidLength);
    }
    var extVec := MarshalExtensions(r.extensions);
    if extVec.Err? {
      return Err(extVec.error);
    }
    hide Extensions.Marshal, Handshake.Marshal;
    var c := |r.context|;
    var body := new byte[1 + c + |extVec.value|](_ => 0);
    body[0] := c;
    forall k | 0 <= k < c { body[1 + k] := r.context[k]; }
    forall k | 0 <= k < |extVec.value| { body[1 + c + k] := extVec.value[k]; }
    assert body[..] == [c] + r.context + extVec.value;
    out := MarshalHandshakeMessage(HandshakeMessage(r.typ, body[..]));
  }

  method UnmarshalRequest(b: seq<byte>) returns (out: Result<(AuthenticatorRequest, seq<byte>), Error>)
    ensures out == Unmarshal(b)
  {
    hide Handshake.Unmarshal, Extensions.Unmarshal;
    var hmRest := UnmarshalHandshakeMessage(b);
    if hmRest.Err? {
      return Err(hmRest.error);
    }
    var (hm, rest) := hmRest.value;
    if hm.typ != CERTIFICATE_REQUEST && hm.typ != CLIENT_CERTIFICATE_REQUEST {
      return Err(UnsupportedHandshakeType);
    }
    if |hm.body| < 1 {
      return Err(Truncated);
    }
    var ctxLen: int := hm.body[0];
    if |hm.body| < 1 + ctxLen {
      return Err(Truncated);
    }
    var ctx := hm.body[1..1 + ctxLen];
    var tail := UnmarshalExtensions(hm.body[1 + ctxLen..]);
    if tail.Err? {
      return Err(tail.error);
    }
    var (exts, leftover) := tail.value;
    if |leftover| != 0 {
      return Err(InvalidLength);
    }
    out := Ok((AuthenticatorRequest(hm.typ, ctx, exts), rest));
  }

  lemma TailSlices(s: seq<byte>, off: nat)
    requires 2 <= off && off + 2 <= |s|
    ensures s[2..][off - 2..off] == s[off..off + 2]
    ensures s[..off + 2][..2] == s[..2] == s[..off][..2]
    ensures s[..off + 2][2..] == s[2..][..off]
    ensures s[..off][2..] == s[2..][..off - 2]
  {
  }

  lemma {:induction false} DecodeAppend(s: seq<byte>, off: nat)
    requires |s| % 2 == 0 && off % 2 == 0 && off + 2 <= |s|
    ensures FromBe(s[off..off + 2]) < 0x1_0000
    ensures DecodeSchemes(s[..off + 2]) == DecodeSchemes(s[..off]) + [FromBe(s[off..off + 2])]
  {
    BeOfFromBe(s[off..off + 2]);
    Widths();
    hide Be, FromBe, Pow256;
    if off > 0 {
      assert off >= 2;
      var tail := s[2..];
      DecodeAppend(tail, off - 2);
      TailSlices(s, off);
    } else {
      assert s[..2][..2] == s[..2] && s[..2][2..] == [] && s[..0] == [];
    }
  }

  /** Scans for the type, checks the lengths, and reads two bytes at a time. */
  method ParseSchemesExtension(exts: seq<Extension>, typ: u16) returns (r: Option<seq<u16>>)
    ensures r == SchemesOf(exts, typ)
  {
    assert exts[0..] == exts;
    for i := 0 to |exts|
      invariant SchemesOf(exts, typ) == SchemesOf(exts[i..], typ)
    {
      var e := exts[i];
      assert exts[i..][1..] == exts[i + 1..];
      if e.typ == typ {
        r := ReadSchemes(e.data);
        return;
      }
    }
    r := None;
  }

  method ReadSchemes(data: seq<byte>) returns (r: Option<seq<u16>>)
    ensures r == ParseSchemes(data)
  {
    hide FromBe;
    if |data| < 2 {
      return None;
    }
    assert data[0..2] == data[..2];
    var vecLen := LoadBe(data[0..2]);
    if vecLen < 2 || vecLen % 2 != 0 || |data| != 2 + vecLen {
      return None;
    }
    var out, off := [], 2;
    ghost var s := data[2..];
    while off < |data|
      invariant 2 <= off <= |data| && off % 2 == 0
      invariant out == DecodeSchemes(s[..off - 2])
    {
      assert data[off..off + 2] == s[off - 2..off];
      DecodeAppend(s, off - 2);
      var scheme := LoadBe(data[off..off + 2]);
      out := out + [scheme];
      off := off + 2;
    }
    assert s[..|s|] == s;
    r := Some(out);
  }

  lemma {:induction false} EncodeAppend(schemes: seq<u16>, s: u16)
    ensures EncodeSchemes(schemes + [s]) == EncodeSchemes(schemes) + Be(s, 2)
  {
    if schemes == [] {
      assert [] + [s] == [s] && [s][1..] == [];
    } else {
      assert (schemes + [s])[1..] == schemes[1..] + [s];
      EncodeAppend(schemes[1..], s);
    }
  }

  /** Writes scheme `i` behind the ones before it. */
  method WriteScheme(data: array<byte>, off: nat, schemes: seq<u16>, i: nat)
    requires i < |schemes| && off + 2 <= data.Length
    modifies data
    ensures data[..off + 2] == old(data[..off]) + Be(schemes[i], 2)
    ensures EncodeSchemes(schemes[..i + 1]) == EncodeSchemes(schemes[..i]) + Be(schemes[i], 2)
  {
    assert schemes[..i + 1] == schemes[..i] + [schemes[i]];
    EncodeAppend(schemes[..i], schemes[i]);
    StoreNext(data, off, 2, schemes[i]);
  }

  /** Fills one buffer: the vector length, then each scheme at the running offset. */
  method MarshalSchemesExtension(typ: u16, schemes: seq<u16>) returns (r: Result<Extension, Error>)
    ensures r == SchemesExtension(typ, schemes)
  {
    if |schemes| == 0 {
      return Err(InvalidLength);
    }
    if |schemes| > 0x7fff {
      return Err(InvalidLength);
    }
    assert EncodeSchemes(schemes[..0]) == [];
    hide Be, EncodeSchemes;
    var data := new byte[2 + 2 * |schemes|](_ => 0);
    StoreNext(data, 0, 2, 2 * |schemes|);
    var off := 2;
    ghost var head := Be(2 * |schemes|, 2);
    assert data[..2] == head;
    for i := 0 to |schemes|
      invariant off == 2 + 2 * i
      invariant data[..off] == head + EncodeSchemes(schemes[..i])
    {
      WriteScheme(data, off, schemes, i);
      assert (head + EncodeSchemes(schemes[..i])) + Be(schemes[i], 2) == head + EncodeSchemes(schemes[..i + 1]);
      off := off + 2;
    }
    assert schemes[..|schemes|] == schemes && data[..data.Length] == data[..];
    r := Ok(Extension(typ, data[..]));
  }
}
