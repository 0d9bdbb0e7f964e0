/** The Certificate message (section 4.4.2 of RFC 8446): a context and a list of certificate entries. */
module Certificate {
  import opened Wrappers
  import opened BigEndian
  import opened Handshake
  import opened Extensions

  datatype CertificateEntry = CertificateEntry(certDer: seq<byte>, extensions: seq<Extension>)

  datatype CertificateMessage = CertificateMessage(context: seq<byte>, entries: seq<CertificateEntry>)

  function EncodeEntry(e: CertificateEntry): Result<seq<byte>, Error> {
    if |e.certDer| == 0 || |e.certDer| > MAX_U24 then Err(InvalidLength)
    else
      var exts :- Extensions.Marshal(e.extensions);
      Ok(Be(|e.certDer|, 3) + e.certDer + exts)
  }

  function EncodeList(entries: seq<CertificateEntry>): Result<seq<byte>, Error> {
    if entries == [] then Ok([])
    else
      var entry :- EncodeEntry(entries[0]);
      var more :- EncodeList(entries[1..]);
      Ok(entry + more)
  }

  /** The list length is stored in three bytes without looking at its size. */
  function Body(context: seq<byte>, list: seq<byte>): seq<byte>
    requires |context| < 256
  {
    [|context|] + context + Be(|list|, 3) + list
  }

  function Marshal(m: CertificateMessage): Result<seq<byte>, Error> {
    if |m.context| > 255 then Err(InvalidLength)
    else
      var list :- EncodeList(m.entries);
      Handshake.Marshal(HandshakeMessage(CERTIFICATE, Body(m.context, list)))
  }

  /** The first entry of a non-empty list and what follows it. */
  function FirstEntry(list: seq<byte>): (r: Result<(CertificateEntry, seq<byte>), Error>) {
    if |list| < 3 then Err(Truncated)
    else
      var n := FromBe(list[0..3]);
      if n == 0 || n > |list| - 3 then Err(InvalidLength)
      else
        var tail :- Extensions.Unmarshal(list[3 + n..]);
        Ok((CertificateEntry(list[3..3 + n], tail.0), tail.1))
  }

  lemma FirstEntryShrinks(list: seq<byte>)
    requires FirstEntry(list).Ok?
    ensures |FirstEntry(list).value.1| < |list|
  {
    Extensions.MarshalUnmarshal(list[3 + FromBe(list[0..3])..]);
  }

  function ParseList(list: seq<byte>): Result<seq<CertificateEntry>, Error>
    decreases |list|
  {
    if list == [] then Ok([])
    else
      var head :- FirstEntry(list);
      FirstEntryShrinks(list);
      var more :- ParseList(head.1);
      Ok([head.0] + more)
  }

  /** Context and list of a message body. */
  function ParseBody(body: seq<byte>): Result<CertificateMessage, Error> {
    if |body| < 1 then Err(Truncated)
    else
      var ctxLen := body[0];
      if |body| < 1 + ctxLen + 3 then Err(Truncated)
      else if |body| != 1 + ctxLen + 3 + FromBe(body[1 + ctxLen..1 + ctxLen + 3]) then Err(InvalidLength)
      else
        var entries :- ParseList(body[1 + ctxLen + 3..]);
        Ok(CertificateMessage(body[1..1 + ctxLen], entries))
  }

  /** The message and the bytes it is re-printed to. */
  function Unmarshal(b: seq<byte>): Result<(CertificateMessage, seq<byte>), Error> {
    var (hm, rest) :- Handshake.Unmarshal(b);
    if rest != [] || hm.typ != CERTIFICATE then Err(InvalidLength)
    else
      var m :- ParseBody(hm.body);
      Ok((m, Reprint(hm)))
  }

  // ------------------------------------------------------------------------- round trips

  lemma FirstOfEncodedEntry(e: CertificateEntry, rest: seq<byte>)
    requires EncodeEntry(e).Ok?
    ensures FirstEntry(EncodeEntry(e).value + rest) == Ok((e, rest))
  {
    hide Extensions.Marshal, Extensions.Unmarshal, Be, FromBe, Pow256;
    var exts, n := Extensions.Marshal(e.extensions).value, |e.certDer|;
    var p := EncodeEntry(e).value + rest;
    Widths();
    FromBeOfBe(n, 3);
    Extensions.UnmarshalMarshal(e.extensions, rest);
    assert p[0..3] == Be(n, 3);
    assert p[3..3 + n] == e.certDer && p[3 + n..] == exts + rest;
  }

  lemma EncodedFirstEntry(p: seq<byte>)
    requires FirstEntry(p).Ok?
    ensures var (e, rest) := FirstEntry(p).value;
            EncodeEntry(e).Ok? && p == EncodeEntry(e).value + rest
  {
    hide Extensions.Marshal, Extensions.Unmarshal, Be, FromBe, Pow256;
    var n := FromBe(p[0..3]);
    Widths();
    BeOfFromBe(p[0..3]);
    Extensions.MarshalUnmarshal(p[3 + n..]);
    assert p == p[0..3] + p[3..3 + n] + p[3 + n..];
  }

  lemma {:induction false} ParseEncodeList(entries: seq<CertificateEntry>)
    requires EncodeList(entries).Ok?
    ensures ParseList(EncodeList(entries).value) == Ok(entries)
  {
    hide EncodeEntry, FirstEntry;
    if entries != [] {
      ParseEncodeList(entries[1..]);
      FirstOfEncodedEntry(entries[0], EncodeList(entries[1..]).value);
      FirstEntryShrinks(EncodeList(entries).value);
      assert [entries[0]] + entries[1..] == entries;
    }
  }

  lemma {:induction false} EncodeParseList(list: seq<byte>)
    requires ParseList(list).Ok?
    ensures EncodeList(ParseList(list).value) == Ok(list)
    decreases |list|
  {
    hide EncodeEntry, FirstEntry;
    if list != [] {
      var head := FirstEntry(list).value;
      EncodedFirstEntry(list);
      FirstEntryShrinks(list);
      EncodeParseList(head.1);
      assert ParseList(list).value[1..] == ParseList(head.1).value;
    }
  }

  /** A message that is returned carries its full list length: the three-byte store cannot truncate. */
  lemma ListLengthNeverTruncated(m: CertificateMessage)
    requires Marshal(m).Ok?
    ensures var list := EncodeList(m.entries).value;
            |list| <= MAX_U24 && FromBe(Be(|list|, 3)) == |list|
  {
    Widths();
    FromBeOfBe(|EncodeList(m.entries).value|, 3);
  }

  lemma ParseBodyOf(context: seq<byte>, entries: seq<CertificateEntry>)
    requires |context| < 256 && EncodeList(entries).Ok? && |EncodeList(entries).value| <= MAX_U24
    ensures ParseBody(Body(context, EncodeList(entries).value)) == Ok(CertificateMessage(context, entries))
  {
    hide EncodeList, ParseList, Be, FromBe, Pow256;
    var list, c := EncodeList(entries).value, |context|;
    var body := Body(context, list);
    ParseEncodeList(entries);
    Widths();
    FromBeOfBe(|list|, 3);
    assert body[1 + c..1 + c + 3] == Be(|list|, 3);
    assert body[1..1 + c] == context && body[1 + c + 3..] == list;
  }

  lemma BodyOfParsed(body: seq<byte>)
    requires ParseBody(body).Ok?
    ensures var m := ParseBody(body).value;
            |m.context| < 256 && EncodeList(m.entries).Ok? && body == Body(m.context, EncodeList(m.entries).value)
  {
    hide EncodeList, ParseList, Be, FromBe;
    var c: int := body[0];
    EncodeParseList(body[1 + c + 3..]);
    BeOfFromBe(body[1 + c..1 + c + 3]);
    assert body == [c] + body[1..1 + c] + body[1 + c..1 + c + 3] + body[1 + c + 3..];
  }

  /** Parsing undoes printing, and hands back the very bytes. */
  lemma UnmarshalMarshal(m: CertificateMessage)
    requires Marshal(m).Ok?
    ensures Unmarshal(Marshal(m).value) == Ok((m, Marshal(m).value))
  {
    ListLengthNeverTruncated(m);
    ParseBodyOf(m.context, m.entries);
    var hm := HandshakeMessage(CERTIFICATE, Body(m.context, EncodeList(m.entries).value));
    Handshake.UnmarshalMarshal(hm, []);
    assert Marshal(m).value + [] == Marshal(m).value;
    hide EncodeList, ParseBody, Body, Handshake.Marshal, Handshake.Unmarshal;
  }

  /** Printing undoes parsing: an accepted message is the printed form of its contents. */
  lemma MarshalUnmarshal(b: seq<byte>)
    requires Unmarshal(b).Ok?
    ensures Marshal(Unmarshal(b).value.0) == Ok(b) && Unmarshal(b).value.1 == b
  {
    var (hm, rest) := Handshake.Unmarshal(b).value;
    Handshake.MarshalUnmarshal(b);
    assert b + [] == b;
    BodyOfParsed(hm.body);
    hide EncodeList, ParseBody, Body, Handshake.Unmarshal;
  }

  // -------------------------------------------------------------------- the Go routines

  /** Allocates one entry and copies length, certificate and extensions into it. */
  method MarshalEntry(e: CertificateEntry) returns (r: Result<seq<byte>, Error>)
    ensures r == EncodeEntry(e)
  {
    if |e.certDer| == 0 || |e.certDer| > MAX_U24 {
      return Err(InvalidLength);
    }
    var extVec := MarshalExtensions(e.extensions);
    if extVec.Err? {
      return Err(extVec.error);
    }
    hide Extensions.Marshal, Be;
    var n := |e.certDer|;
    var entry := new byte[3 + n + |extVec.value|](_ => 0);
    StoreNext(entry, 0, 3, n);
    assert entry[..3] == Be(n, 3);
    CopyNext(entry, 3, e.certDer);
    CopyNext(entry, 3 + n, extVec.value);
    assert entry[..entry.Length] == entry[..];
    r := Ok(entry[..]);
  }

  /** What the printing loop has left to do after `done`. */
  function PrintRest(done: seq<byte>, entries: seq<CertificateEntry>): Result<seq<byte>, Error> {
    var more :- EncodeList(entries);
    Ok(done + more)
  }

  lemma PrintRestUnfold(done: seq<byte>, entries: seq<CertificateEntry>)
    requires entries != []
    ensures PrintRest(done, entries) ==
            match EncodeEntry(entries[0])
            case Err(e) => Err(e)
            case Ok(entry) => PrintRest(done + entry, entries[1..])
  {
    hide EncodeEntry;
    if EncodeEntry(entries[0]).Ok? && EncodeList(entries[1..]).Ok? {
      var entry, more := EncodeEntry(entries[0]).value, EncodeList(entries[1..]).value;
      assert done + (entry + more) == (done + entry) + more;
    }
  }

  method MarshalList(entries: seq<CertificateEntry>) returns (r: Result<seq<byte>, Error>)
    ensures r == EncodeList(entries)
  {
    hide EncodeEntry;
    var listPayload := [];
    assert entries[0..] == entries;
    assert EncodeList(entries).Ok? ==> [] + EncodeList(entries).value == EncodeList(entries).value;
    for i := 0 to |entries|
      invariant EncodeList(entries) == PrintRest(listPayload, entries[i..])
    {
      PrintRestUnfold(listPayload, entries[i..]);
      assert entries[i..][1..] == entries[i + 1..];
      var entry := MarshalEntry(entries[i]);
      if entry.Err? {
        return Err(entry.error);
      }
      listPayload := listPayload + entry.value;
    }
    assert listPayload + [] == listPayload;
    r := Ok(listPayload);
  }

  method MarshalCertificateMessage(m: CertificateMessage) returns (r: Result<seq<byte>, Error>)
    ensures r == Marshal(m)
  {
    hide EncodeList, Be, Handshake.Marshal;
    if |m.context| > 255 {
      return Err(InvalidLength);
    }
    var list := MarshalList(m.entries);
    if list.Err? {
      return Err(list.error);
    }
    var c := |m.context|;
    var body := new byte[1 + c + 3 + |list.value|](_ => 0);
    body[0] := c;
    assert body[..1] == [c];
    CopyNext(body, 1, m.context);
    StoreNext(body, 1 + c, 3, |list.value|);
    CopyNext(body, 1 + c + 3, list.value);
    assert body[..] == body[..body.Length];
    r := MarshalHandshakeMessage(HandshakeMessage(CERTIFICATE, body[..]));
  }

  /** What the parsing loop has left to do after taking `entries` off the list. */
  function ParseRest(entries: seq<CertificateEntry>, rest: seq<byte>): Result<seq<CertificateEntry>, Error> {
    var more :- ParseList(rest);
    Ok(entries + more)
  }

  lemma ParseRestUnfold(entries: seq<CertificateEntry>, rest: seq<byte>)
    requires rest != []
    ensures ParseRest(entries, rest) ==
            match FirstEntry(rest)
            case Err(e) => Err(e)
            case Ok(p) => ParseRest(entries + [p.0], p.1)
  {
    hide FirstEntry;
    if FirstEntry(rest).Ok? {
      var p := FirstEntry(rest).value;
      FirstEntryShrinks(rest);
      if ParseList(p.1).Ok? {
        assert entries + ([p.0] + ParseList(p.1).value) == (entries + [p.0]) + ParseList(p.1).value;
      }
    }
  }

  /** One turn of the cursor: reads the entry at `at` and returns the next cursor. */
  method ReadEntry(list: seq<byte>, at: nat) returns (r: Result<(CertificateEntry, nat), Error>)
    requires at < |list|
    ensures match FirstEntry(list[at..])
            case Err(e) => r == Err(e)
            case Ok(p) => r.Ok? && r.value.0 == p.0 && at < r.value.1 <= |list| && list[r.value.1..] == p.1
  {
    hide Extensions.Unmarshal, FromBe;
    ghost var rest := list[at..];
    var i := at;
    if |list| - i < 3 {
      return Err(Truncated);
    }
    var certLen := LoadBe(list[i..i + 3]);
    assert rest[0..3] == list[i..i + 3];
    i := i + 3;
    if certLen <= 0 || certLen > |list| - i {
      return Err(InvalidLength);
    }
    var certDer := list[i..i + certLen];
    i := i + certLen;
    assert rest[3..3 + certLen] == certDer && rest[3 + certLen..] == list[i..];
    var tail := UnmarshalExtensions(list[i..]);
    if tail.Err? {
      return Err(tail.error);
    }
    var (exts, leftover) := tail.value;
    Extensions.MarshalUnmarshal(list[i..]);
    var consumed := |list[i..]| - |leftover|;
    assert list[i + consumed..] == leftover;
    r := Ok((CertificateEntry(certDer, exts), i + consumed));
  }

  method UnmarshalCertificateMessage(b: seq<byte>) returns (r: Result<(CertificateMessage, seq<byte>), Error>)
    ensures r == Unmarshal(b)
  {
    hide Handshake.Unmarshal, FromBe, FirstEntry;
    var hmRest := UnmarshalHandshakeMessage(b);
    if hmRest.Err? {
      return Err(hmRest.error);
    }
    var (hm, rest) := hmRest.value;
    if |rest| != 0 || hm.typ != CERTIFICATE {
      return Err(InvalidLength);
    }
    if |hm.body| < 1 {
      return Err(Truncated);
    }
    var ctxLen: int := hm.body[0];
    if |hm.body| < 1 + ctxLen + 3 {
      return Err(Truncated);
    }
    var ctx := hm.body[1..1 + ctxLen];
    var listLen := LoadBe(hm.body[1 + ctxLen..1 + ctxLen + 3]);
    if |hm.body| != 1 + ctxLen + 3 + listLen {
      return Err(InvalidLength);
    }
    var entries := UnmarshalList(hm.body[1 + ctxLen + 3..]);
    if entries.Err? {
      return Err(entries.error);
    }
    r := Ok((CertificateMessage(ctx, entries.value), Reprint(hm)));
  }

  method UnmarshalList(list: seq<byte>) returns (r: Result<seq<CertificateEntry>, Error>)
    ensures r == ParseList(list)
  {
    hide FirstEntry;
    var entries, i := [], 0;
    assert list[0..] == list;
    assert ParseList(list).Ok? ==> [] + ParseList(list).value == ParseList(list).value;
    while i < |list|
      invariant i <= |list|
      invariant ParseList(list) == ParseRest(entries, list[i..])
    {
      ParseRestUnfold(entries, list[i..]);
      var next := ReadEntry(list, i);
      if next.Err? {
        return Err(next.error);
      }
      entries := entries + [next.value.0];
      i := next.value.1;
    }
    assert entries + [] == entries;
    r := Ok(entries);
  }
}
