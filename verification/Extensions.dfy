/** Extension vectors (section 4.2 of RFC 8446): a 16-bit length, then type, length and data of each. */
module Extensions {
  import opened Wrappers
  import opened BigEndian
  import opened Handshake

  datatype Extension = Extension(typ: u16, data: seq<byte>)

  function EncodeOne(e: Extension): seq<byte> {
    Be(e.typ, 2) + Be(|e.data|, 2) + e.data
  }

  function Encode(exts: seq<Extension>): seq<byte> {
    if exts == [] then [] else EncodeOne(exts[0]) + Encode(exts[1..])
  }

  function Marshal(exts: seq<Extension>): Result<seq<byte>, Error> {
    if |Encode(exts)| > MAX_U16 then Err(InvalidLength)
    else Ok(Be(|Encode(exts)|, 2) + Encode(exts))
  }

  /** The first extension of a non-empty payload and what follows it. */
  function First(payload: seq<byte>): (r: Result<(Extension, seq<byte>), Error>)
    ensures r.Ok? ==> |r.value.1| < |payload|
  {
    if |payload| < 4 then Err(Truncated)
    else
      var l := FromBe(payload[2..4]);
      if l > |payload| - 4 then Err(InvalidLength)
      else
        BeOfFromBe(payload[0..2]);
        Widths();
        Ok((Extension(FromBe(payload[0..2]), payload[4..4 + l]), payload[4 + l..]))
  }

  /** The extensions of a complete payload. */
  function Parse(payload: seq<byte>): Result<seq<Extension>, Error>
    decreases |payload|
  {
    if payload == [] then Ok([])
    else
      var (e, rest) :- First(payload);
      var more :- Parse(rest);
      Ok([e] + more)
  }

  /** The vector at the start of `b` and what follows it. */
  function Unmarshal(b: seq<byte>): Result<(seq<Extension>, seq<byte>), Error> {
    if |b| < 2 then Err(Truncated)
    else
      var total := FromBe(b[0..2]);
      if |b| < 2 + total then Err(Truncated)
      else
        match Parse(b[2..2 + total])
        case Err(e) => Err(e)
        case Ok(exts) => Ok((exts, b[2 + total..]))
  }

  lemma FirstOfEncoded(e: Extension, rest: seq<byte>)
    requires |e.data| <= MAX_U16
    ensures First(EncodeOne(e) + rest) == Ok((e, rest))
  {
    var p := EncodeOne(e) + rest;
    Widths();
    FromBeOfBe(e.typ, 2);
    FromBeOfBe(|e.data|, 2);
    hide Be, FromBe;
    assert p[0..2] == Be(e.typ, 2) && p[2..4] == Be(|e.data|, 2);
    assert p[4..4 + |e.data|] == e.data && p[4 + |e.data|..] == rest;
  }

  lemma EncodedFirst(p: seq<byte>)
    requires First(p).Ok?
    ensures p == EncodeOne(First(p).value.0) + First(p).value.1
  {
    BeOfFromBe(p[0..2]);
    BeOfFromBe(p[2..4]);
    hide Be, FromBe;
    var l := FromBe(p[2..4]);
    assert p == p[0..2] + p[2..4] + p[4..4 + l] + p[4 + l..];
  }

  lemma {:induction false} ParseEncode(exts: seq<Extension>)
    requires forall i :: 0 <= i < |exts| ==> |exts[i].data| <= MAX_U16
    ensures Parse(Encode(exts)) == Ok(exts)
  {
    if exts != [] {
      hide First, EncodeOne;
      ParseEncode(exts[1..]);
      FirstOfEncoded(exts[0], Encode(exts[1..]));
      NotEmpty(exts[0]);
      assert [exts[0]] + exts[1..] == exts;
    }
  }

  lemma NotEmpty(e: Extension)
    ensures |EncodeOne(e)| == 4 + |e.data|
  {
  }

  lemma {:induction false} EncodeParse(payload: seq<byte>)
    requires Parse(payload).Ok?
    ensures Encode(Parse(payload).value) == payload
    decreases |payload|
  {
    hide First, EncodeOne;
    if payload != [] {
      EncodedFirst(payload);
      EncodeParse(First(payload).value.1);
      assert Parse(payload).value[1..] == Parse(First(payload).value.1).value;
    }
  }

  lemma {:induction false} EachFits(exts: seq<Extension>, i: nat)
    requires i < |exts|
    ensures |exts[i].data| + 4 <= |Encode(exts)|
  {
    if i > 0 {
      EachFits(exts[1..], i - 1);
    }
  }

  /** Parsing undoes printing, whatever follows the vector. */
  lemma UnmarshalMarshal(exts: seq<Extension>, rest: seq<byte>)
    requires Marshal(exts).Ok?
    ensures Unmarshal(Marshal(exts).value + rest) == Ok((exts, rest))
  {
    var p := Encode(exts);
    var b := Marshal(exts).value + rest;
    forall i | 0 <= i < |exts| ensures |exts[i].data| <= MAX_U16 {
      EachFits(exts, i);
    }
    ParseEncode(exts);
    Widths();
    FromBeOfBe(|p|, 2);
    hide Parse, Encode, Be, FromBe;
    assert b[0..2] == Be(|p|, 2);
    assert b[2..2 + |p|] == p && b[2 + |p|..] == rest;
  }

  /** Printing undoes parsing: what was consumed is exactly the printed vector. */
  lemma MarshalUnmarshal(b: seq<byte>)
    requires Unmarshal(b).Ok?
    ensures var (exts, rest) := Unmarshal(b).value;
            Marshal(exts).Ok? && b == Marshal(exts).value + rest
  {
    var total := FromBe(b[0..2]);
    EncodeParse(b[2..2 + total]);
    BeOfFromBe(b[0..2]);
    Widths();
    hide Parse, Encode, Be, FromBe, Pow256;
    assert b == b[0..2] + b[2..2 + total] + b[2 + total..];
  }

  // -------------------------------------------------------------------- the Go routines

  lemma {:induction false} EncodeAppend(exts: seq<Extension>, e: Extension)
    ensures Encode(exts + [e]) == Encode(exts) + EncodeOne(e)
  {
    if exts == [] {
      assert [] + [e] == [e] && [e][1..] == [];
    } else {
      assert (exts + [e])[1..] == exts[1..] + [e];
      EncodeAppend(exts[1..], e);
    }
  }

  lemma {:induction false} EncodePrefixShorter(exts: seq<Extension>, i: nat)
    requires i <= |exts|
    ensures |Encode(exts[..i])| <= |Encode(exts)|
  {
    if i > 0 {
      assert exts[..i][1..] == exts[1..][..i - 1];
      EncodePrefixShorter(exts[1..], i - 1);
    }
  }

  lemma EncodeNothing()
    ensures Encode([]) == []
  {
  }

  /** First pass: sum the lengths, refusing as soon as the sum outgrows 16 bits. */
  method PayloadLength(exts: seq<Extension>) returns (r: Option<nat>)
    ensures r == if |Encode(exts)| > MAX_U16 then None else Some(|Encode(exts)|)
  {
    var payloadLen := 0;
    for i := 0 to |exts|
      invariant payloadLen == |Encode(exts[..i])| <= MAX_U16
    {
      assert exts[..i + 1] == exts[..i] + [exts[i]];
      EncodeAppend(exts[..i], exts[i]);
      EncodePrefixShorter(exts, i + 1);
      if |exts[i].data| > MAX_U16 {
        return None;
      }
      payloadLen := payloadLen + 4 + |exts[i].data|;
      if payloadLen > MAX_U16 {
        return None;
      }
    }
    assert exts[..|exts|] == exts;
    r := Some(payloadLen);
  }

  /** Writes one extension at offset `off`. */
  method WriteOne(out: array<byte>, off: nat, e: Extension)
    requires off + 4 + |e.data| <= out.Length
    modifies out
    ensures out[..off + 4 + |e.data|] == old(out[..off]) + EncodeOne(e)
  {
    hide Be;
    StoreNext(out, off, 2, e.typ);
    StoreNext(out, off + 2, 2, |e.data|);
    CopyNext(out, off + 4, e.data);
    ghost var before := old(out[..off]);
    assert before + Be(e.typ, 2) + Be(|e.data|, 2) + e.data == before + (Be(e.typ, 2) + Be(|e.data|, 2) + e.data);
  }

  /** Second pass: write the length and every extension into one buffer. */
  method MarshalExtensions(exts: seq<Extension>) returns (r: Result<seq<byte>, Error>)
    ensures r == Marshal(exts)
  {
    hide EncodeOne, Be, FromBe, Encode;
    var length := PayloadLength(exts);
    if length.None? {
      return Err(InvalidLength);
    }
    var out := new byte[2 + length.value](_ => 0);
    StoreBe(out, 0, 2, length.value);
    var off := 2;
    assert exts[..0] == [] && Encode([]) == [] by { EncodeNothing(); }
    assert out[..2] == Be(length.value, 2) + Encode(exts[..0]);
    for i := 0 to |exts|
      invariant 2 <= off == 2 + |Encode(exts[..i])| <= out.Length
      invariant out[..off] == Be(length.value, 2) + Encode(exts[..i])
    {
      var e := exts[i];
      assert exts[..i + 1] == exts[..i] + [e];
      EncodeAppend(exts[..i], e);
      EncodePrefixShorter(exts, i + 1);
      NotEmpty(e);
      WriteOne(out, off, e);
      off := off + 4 + |e.data|;
    }
    assert exts[..|exts|] == exts && out[..out.Length] == out[..];
    r := Ok(out[..]);
  }

  /** What the cursor loop has left to do after taking `exts` off the payload. */
  function Continue(exts: seq<Extension>, rest: seq<byte>): Result<seq<Extension>, Error> {
    var more :- Parse(rest);
    Ok(exts + more)
  }

  lemma ContinueAfterFirst(exts: seq<Extension>, rest: seq<byte>)
    requires rest != []
    ensures Continue(exts, rest) ==
            match First(rest) case Err(e) => Err(e) case Ok(p) => Continue(exts + [p.0], p.1)
  {
    hide First;
    if First(rest).Ok? {
      var p := First(rest).value;
      if Parse(p.1).Ok? {
        assert exts + ([p.0] + Parse(p.1).value) == (exts + [p.0]) + Parse(p.1).value;
      }
    }
  }

  /** One turn of the cursor: reads the extension at `i` and returns the next cursor. */
  method ReadOne(payload: seq<byte>, i: nat) returns (r: Result<(Extension, nat), Error>)
    requires i < |payload|
    ensures match First(payload[i..])
            case Err(e) => r == Err(e)
            case Ok(p) => r.Ok? && r.value.0 == p.0 && i < r.value.1 <= |payload| && payload[r.value.1..] == p.1
  {
    ghost var rest := payload[i..];
    if |payload| - i < 4 {
      return Err(Truncated);
    }
    var typ := LoadBe(payload[i..i + 2]);
    var l := LoadBe(payload[i + 2..i + 4]);
    assert rest[0..2] == payload[i..i + 2] && rest[2..4] == payload[i + 2..i + 4];
    if l > |payload| - (i + 4) {
      return Err(InvalidLength);
    }
    BeOfFromBe(rest[0..2]);
    Widths();
    hide FromBe, Be;
    assert rest[4..4 + l] == payload[i + 4..i + 4 + l] && rest[4 + l..] == payload[i + 4 + l..];
    r := Ok((Extension(typ, payload[i + 4..i + 4 + l]), i + 4 + l));
  }

  /** Walks the payload with a cursor, appending each extension. */
  method UnmarshalExtensions(b: seq<byte>) returns (r: Result<(seq<Extension>, seq<byte>), Error>)
    ensures r == Unmarshal(b)
  {
    if |b| < 2 {
      return Err(Truncated);
    }
    var total := LoadBe(b[0..2]);
    if |b| < 2 + total {
      return Err(Truncated);
    }
    var payload := b[2..2 + total];
    var exts, i := [], 0;
    hide First, FromBe;
    assert payload[0..] == payload;
    assert Parse(payload).Ok? ==> [] + Parse(payload).value == Parse(payload).value;
    while i < |payload|
      invariant i <= |payload|
      invariant Parse(payload) == Continue(exts, payload[i..])
    {
      ContinueAfterFirst(exts, payload[i..]);
      var next := ReadOne(payload, i);
      if next.Err? {
        return Err(next.error);
      }
      exts := exts + [next.value.0];
      i := next.value.1;
    }
    assert exts + [] == exts;
    r := Ok((exts, b[2 + total..]));
  }
}
