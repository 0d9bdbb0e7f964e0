/**
 * The printed form of every message byte by byte: the type codes as numbers, the lengths and codes read at their
 * places, and the contents between them. Together with the round trips this is also what the parsers read.
 */
module WireLayout {
  import opened Wrappers
  import opened BigEndian
  import opened Handshake
  import opened Extensions
  import opened Certificate
  import Request
  import CertVerify
  import Finished
  import Cmw

  // ---------------------------------------------------------------------------- handshake

  /** Type, 24-bit length, body. */
  predicate IsMessage(b: seq<byte>, typ: byte, body: seq<byte>) {
    |b| == 4 + |body| && b[0] == typ && Read3(b, 1) == |body| && b[4..] == body
  }

  lemma MessageLayout(m: HandshakeMessage, b: seq<byte>)
    ensures Handshake.Marshal(m) == Ok(b) <==> IsMessage(b, m.typ, m.body)
  {
    Widths();
    hide Be, Pow256, Read3;
    var n := |m.body|;
    if Handshake.Marshal(m) == Ok(b) {
      assert b[1..4] == Be(n, 3) && b[4..] == m.body;
      ReadWritten(b, 1, n, 3);
    }
    if IsMessage(b, m.typ, m.body) {
      WrittenIfRead(b, 1, n, 3);
      assert b == [b[0]] + b[1..4] + b[4..];
    }
  }

  /** When a message cannot be split off: fewer bytes than the header, or than the length in it asks for. */
  lemma MessageCut(b: seq<byte>)
    ensures Handshake.Unmarshal(b).Err? <==> |b| < 4 || |b| < 4 + Read3(b, 1)
    ensures Handshake.Unmarshal(b).Err? ==> Handshake.Unmarshal(b).error == Truncated
  {
    ReadIsFromBe(b, 1);
    hide FromBe, Read3;
  }

  // --------------------------------------------------------------------------- extensions

  /** Type, 16-bit length and data of each extension, one after the other. */
  predicate LaysOut(s: seq<byte>, exts: seq<Extension>)
    decreases exts
  {
    if exts == [] then s == []
    else
      var n := |exts[0].data|;
      && |s| >= 4 + n
      && Read2(s, 0) == exts[0].typ && Read2(s, 2) == n && s[4..4 + n] == exts[0].data
      && LaysOut(s[4 + n..], exts[1..])
  }

  /** A 16-bit length and that many bytes of extensions. */
  predicate IsVector(b: seq<byte>, exts: seq<Extension>) {
    |b| >= 2 && Read2(b, 0) == |b| - 2 && LaysOut(b[2..], exts)
  }

  lemma OneLayout(s: seq<byte>, e: Extension, rest: seq<byte>)
    requires |e.data| <= MAX_U16
    ensures s == EncodeOne(e) + rest <==>
              && |s| >= 4 + |e.data|
              && Read2(s, 0) == e.typ && Read2(s, 2) == |e.data| && s[4..4 + |e.data|] == e.data
              && s[4 + |e.data|..] == rest
  {
    Widths();
    hide Be, Pow256, Read2;
    var n := |e.data|;
    if s == EncodeOne(e) + rest {
      assert s[0..2] == Be(e.typ, 2) && s[2..4] == Be(n, 2) && s[4..4 + n] == e.data && s[4 + n..] == rest;
      ReadWritten(s, 0, e.typ, 2);
      ReadWritten(s, 2, n, 2);
    }
    if |s| >= 4 + n && Read2(s, 0) == e.typ && Read2(s, 2) == n && s[4..4 + n] == e.data && s[4 + n..] == rest {
      WrittenIfRead(s, 0, e.typ, 2);
      WrittenIfRead(s, 2, n, 2);
      assert s == s[0..2] + s[2..4] + s[4..4 + n] + s[4 + n..];
    }
  }

  predicate AllFit(exts: seq<Extension>) {
    forall i :: 0 <= i < |exts| ==> |exts[i].data| <= MAX_U16
  }

  lemma Read2Bound(s: seq<byte>, at: nat)
    requires at + 2 <= |s|
    ensures Read2(s, at) <= MAX_U16
  {
  }

  lemma {:induction false} EncodedLaysOut(s: seq<byte>, exts: seq<Extension>)
    ensures LaysOut(s, exts) <==> s == Encode(exts) && AllFit(exts)
    decreases exts
  {
    if exts != [] {
      var e := exts[0];
      hide EncodeOne, Read2;
      AllFitSplit(exts);
      if |e.data| <= MAX_U16 {
        OneLayout(s, e, Encode(exts[1..]));
        if |s| >= 4 + |e.data| {
          EncodedLaysOut(s[4 + |e.data|..], exts[1..]);
        }
      } else if |s| >= 4 {
        Read2Bound(s, 2);
      }
      hide AllFit;
    }
  }

  lemma AllFitSplit(exts: seq<Extension>)
    requires exts != []
    ensures AllFit(exts) <==> |exts[0].data| <= MAX_U16 && AllFit(exts[1..])
  {
    if AllFit(exts[1..]) && |exts[0].data| <= MAX_U16 {
      forall i | 0 <= i < |exts| ensures |exts[i].data| <= MAX_U16 {
        if i > 0 {
          assert exts[1..][i - 1] == exts[i];
        }
      }
    }
    if AllFit(exts) {
      forall i | 0 <= i < |exts[1..]| ensures |exts[1..][i].data| <= MAX_U16 {
        assert exts[1..][i] == exts[i + 1];
      }
    }
  }

  lemma VectorLayout(exts: seq<Extension>, b: seq<byte>)
    ensures Extensions.Marshal(exts) == Ok(b) <==> IsVector(b, exts)
  {
    Widths();
    hide Be, Pow256, Read2, Encode, LaysOut;
    var p := Encode(exts);
    if Extensions.Marshal(exts) == Ok(b) {
      forall i | 0 <= i < |exts| ensures |exts[i].data| <= MAX_U16 {
        EachFits(exts, i);
      }
      assert b[0..2] == Be(|p|, 2) && b[2..] == p;
      ReadWritten(b, 0, |p|, 2);
      EncodedLaysOut(p, exts);
    }
    if IsVector(b, exts) {
      EncodedLaysOut(b[2..], exts);
      Read2Bound(b, 0);
      WrittenIfRead(b, 0, |p|, 2);
      assert b == b[0..2] + b[2..];
    }
  }

  // -------------------------------------------------------------------------- certificate

  /** A 24-bit length, that many bytes of a certificate, and its extension vector. */
  predicate IsEntry(s: seq<byte>, e: CertificateEntry) {
    var n := |e.certDer|;
    n > 0 && |s| >= 3 + n && Read3(s, 0) == n && s[3..3 + n] == e.certDer && IsVector(s[3 + n..], e.extensions)
  }

  /** Entries one after the other; where one ends is written in it. */
  ghost predicate IsList(s: seq<byte>, entries: seq<CertificateEntry>)
    decreases |entries|
  {
    if entries == [] then s == []
    else exists k :: 0 <= k <= |s| && IsEntry(s[..k], entries[0]) && IsList(s[k..], entries[1..])
  }

  lemma EntryLayout(s: seq<byte>, e: CertificateEntry)
    ensures EncodeEntry(e) == Ok(s) <==> IsEntry(s, e)
  {
    Widths();
    hide Be, Pow256, Read3, IsVector, Extensions.Marshal;
    var n := |e.certDer|;
    if EncodeEntry(e) == Ok(s) {
      var exts := Extensions.Marshal(e.extensions).value;
      VectorLayout(e.extensions, exts);
      assert s[0..3] == Be(n, 3) && s[3..3 + n] == e.certDer && s[3 + n..] == exts;
      ReadWritten(s, 0, n, 3);
    }
    if IsEntry(s, e) {
      VectorLayout(e.extensions, s[3 + n..]);
      WrittenIfRead(s, 0, n, 3);
      assert s == s[0..3] + s[3..3 + n] + s[3 + n..];
    }
  }

  lemma {:induction false} ListLayout(s: seq<byte>, entries: seq<CertificateEntry>)
    ensures EncodeList(entries) == Ok(s) <==> IsList(s, entries)
    decreases |entries|
  {
    hide EncodeEntry, IsEntry;
    if entries != [] {
      if EncodeList(entries) == Ok(s) {
        var head, more := EncodeEntry(entries[0]).value, EncodeList(entries[1..]).value;
        EntryLayout(head, entries[0]);
        ListLayout(more, entries[1..]);
        assert s[..|head|] == head && s[|head|..] == more;
      }
      if IsList(s, entries) {
        var k :| 0 <= k <= |s| && IsEntry(s[..k], entries[0]) && IsList(s[k..], entries[1..]);
        EntryLayout(s[..k], entries[0]);
        ListLayout(s[k..], entries[1..]);
        assert s == s[..k] + s[k..];
      }
    }
  }

  /** Type 11, the context behind its one-byte length, and the entries behind their 24-bit length. */
  ghost predicate IsCertificate(b: seq<byte>, context: seq<byte>, entries: seq<CertificateEntry>) {
    var c := |context|;
    && |b| >= 8 + c && b[0] == 11 && Read3(b, 1) == |b| - 4
    && b[4] == c && b[5..5 + c] == context
    && Read3(b, 5 + c) == |b| - 8 - c && IsList(b[8 + c..], entries)
  }

  lemma BodyLayout(body: seq<byte>, context: seq<byte>, list: seq<byte>)
    requires |context| < 256 && |list| <= MAX_U24
    ensures body == Certificate.Body(context, list) <==>
              && |body| == 4 + |context| + |list| && body[0] == |context| && body[1..1 + |context|] == context
              && Read3(body, 1 + |context|) == |list| && body[4 + |context|..] == list
  {
    Widths();
    hide Be, Pow256, Read3;
    var c := |context|;
    if body == Certificate.Body(context, list) {
      assert body[1..1 + c] == context && body[1 + c..4 + c] == Be(|list|, 3) && body[4 + c..] == list;
      ReadWritten(body, 1 + c, |list|, 3);
    }
    if |body| == 4 + c + |list| && body[0] == c && body[1..1 + c] == context && Read3(body, 1 + c) == |list|
       && body[4 + c..] == list
    {
      WrittenIfRead(body, 1 + c, |list|, 3);
      assert body == [body[0]] + body[1..1 + c] + body[1 + c..4 + c] + body[4 + c..];
    }
  }

  lemma CertificateLayout(m: CertificateMessage, b: seq<byte>)
    ensures Certificate.Marshal(m) == Ok(b) <==> IsCertificate(b, m.context, m.entries)
  {
    hide Read3, EncodeList, IsList, Certificate.Body, Handshake.Marshal;
    var c := |m.context|;
    if Certificate.Marshal(m) == Ok(b) {
      var list := EncodeList(m.entries).value;
      ListLayout(list, m.entries);
      ListLengthNeverTruncated(m);
      var body := Certificate.Body(m.context, list);
      BodyLayout(body, m.context, list);
      MessageLayout(HandshakeMessage(CERTIFICATE, body), b);
      InsideMessage(b, body, c, m.context, list);
    }
    if IsCertificate(b, m.context, m.entries) {
      var list, body := b[8 + c..], b[4..];
      ListLayout(list, m.entries);
      Read3Bound(b, 1);
      assert body[4 + c..] == list && body[1..1 + c] == b[5..5 + c];
      Read3Inside(b, 4, 1 + c);
      BodyLayout(body, m.context, list);
      MessageLayout(HandshakeMessage(CERTIFICATE, body), b);
    }
  }

  lemma Read3Bound(s: seq<byte>, at: nat)
    requires at + 3 <= |s|
    ensures Read3(s, at) <= MAX_U24
  {
  }

  lemma Read3Inside(b: seq<byte>, off: nat, at: nat)
    requires off + at + 3 <= |b|
    ensures Read3(b[off..], at) == Read3(b, off + at)
  {
  }

  lemma InsideMessage(b: seq<byte>, body: seq<byte>, c: nat, context: seq<byte>, list: seq<byte>)
    requires |b| == 4 + |body| && b[4..] == body && c == |context|
    requires |body| == 4 + c + |list| && body[0] == c && body[1..1 + c] == context
    requires Read3(body, 1 + c) == |list| && body[4 + c..] == list
    ensures b[4] == c && b[5..5 + c] == context && Read3(b, 5 + c) == |list| && b[8 + c..] == list
  {
    assert b[4] == body[0];
    assert b[5..5 + c] == body[1..1 + c];
    assert b[8 + c..] == body[4 + c..];
    Read3Inside(b, 4, 1 + c);
  }

  // ------------------------------------------------------------ verify, finished, requests

  /** Type 15, the scheme, and the signature behind its 16-bit length. */
  predicate IsCertVerify(b: seq<byte>, algorithm: u16, signature: seq<byte>) {
    && |b| == 8 + |signature| && b[0] == 15 && Read3(b, 1) == |b| - 4
    && Read2(b, 4) == algorithm && Read2(b, 6) == |signature| && b[8..] == signature
  }

  lemma CertVerifyLayout(m: CertVerify.CertificateVerifyMessage, b: seq<byte>)
    ensures CertVerify.Marshal(m) == Ok(b) <==> IsCertVerify(b, m.algorithm, m.signature)
  {
    Widths();
    hide Be, Pow256, Read2, Read3, Handshake.Marshal;
    var body, n := CertVerify.Body(m), |m.signature|;
    MessageLayout(HandshakeMessage(CERTIFICATE_VERIFY, body), b);
    if CertVerify.Marshal(m) == Ok(b) {
      assert b[4..6] == body[0..2] && b[6..8] == body[2..4] && b[8..] == body[4..];
      assert body[0..2] == Be(m.algorithm, 2) && body[2..4] == Be(n, 2) && body[4..] == m.signature;
      ReadWritten(b, 4, m.algorithm, 2);
      ReadWritten(b, 6, n, 2);
    }
    if IsCertVerify(b, m.algorithm, m.signature) {
      Read2Bound(b, 6);
      WrittenIfRead(b, 4, m.algorithm, 2);
      WrittenIfRead(b, 6, n, 2);
      assert b[4..] == b[4..6] + b[6..8] + b[8..];
    }
  }

  /** Type 20 and a body that is not empty. */
  predicate IsFinished(b: seq<byte>, verifyData: seq<byte>) {
    |b| == 4 + |verifyData| > 4 && b[0] == 20 && Read3(b, 1) == |b| - 4 && b[4..] == verifyData
  }

  lemma FinishedLayout(m: Finished.FinishedMessage, b: seq<byte>)
    ensures Finished.Marshal(m) == Ok(b) <==> IsFinished(b, m.verifyData)
  {
    hide Read3, Handshake.Marshal;
    MessageLayout(HandshakeMessage(FINISHED, m.verifyData), b);
  }

  /** Type 13 or 17, the context behind its one-byte length, and an extension vector. */
  predicate IsRequest(b: seq<byte>, typ: byte, context: seq<byte>, exts: seq<Extension>) {
    var c := |context|;
    && (typ == 13 || typ == 17)
    && |b| >= 5 + c && b[0] == typ && Read3(b, 1) == |b| - 4
    && b[4] == c && b[5..5 + c] == context && IsVector(b[5 + c..], exts)
  }

  lemma RequestLayout(r: Request.AuthenticatorRequest, b: seq<byte>)
    ensures Request.Marshal(r) == Ok(b) <==> IsRequest(b, r.typ, r.context, r.extensions)
  {
    hide Read3, IsVector, Extensions.Marshal, Handshake.Marshal;
    var c := |r.context|;
    if Request.Marshal(r) == Ok(b) {
      var vec := Extensions.Marshal(r.extensions).value;
      var body := [c] + r.context + vec;
      VectorLayout(r.extensions, vec);
      MessageLayout(HandshakeMessage(r.typ, body), b);
      assert b[4] == body[0] && b[5..5 + c] == body[1..1 + c] == r.context && b[5 + c..] == body[1 + c..] == vec;
    }
    if IsRequest(b, r.typ, r.context, r.extensions) {
      var vec := b[5 + c..];
      VectorLayout(r.extensions, vec);
      var body := [c] + r.context + vec;
      assert b[4..] == [b[4]] + b[5..5 + c] + b[5 + c..];
      MessageLayout(HandshakeMessage(r.typ, body), b);
    }
  }

  /** A 16-bit length and the schemes, two bytes each. */
  predicate IsSchemes(data: seq<byte>, schemes: seq<u16>) {
    && |data| == 2 + 2 * |schemes| && Read2(data, 0) == 2 * |schemes|
    && forall i :: 0 <= i < |schemes| ==> Read2(data, 2 + 2 * i) == schemes[i]
  }

  lemma {:induction false} SchemesAt(s: seq<byte>, schemes: seq<u16>)
    requires |s| == 2 * |schemes|
    ensures s == Request.EncodeSchemes(schemes) <==> forall i :: 0 <= i < |schemes| ==> Read2(s, 2 * i) == schemes[i]
    decreases |schemes|
  {
    if schemes != [] {
      Widths();
      hide Be, Pow256, Read2;
      var n := |schemes|;
      SchemesAt(s[2..], schemes[1..]);
      forall i | 0 <= i < n - 1 ensures Read2(s[2..], 2 * i) == Read2(s, 2 * (i + 1)) {
        Read2Inside(s, 2, 2 * i);
      }
      if s == Request.EncodeSchemes(schemes) {
        assert s[0..2] == Be(schemes[0], 2) && s[2..] == Request.EncodeSchemes(schemes[1..]);
        ReadWritten(s, 0, schemes[0], 2);
        forall i | 0 <= i < n ensures Read2(s, 2 * i) == schemes[i] {
          if i > 0 {
            assert Read2(s[2..], 2 * (i - 1)) == schemes[1..][i - 1];
          }
        }
      }
      if forall i :: 0 <= i < n ==> Read2(s, 2 * i) == schemes[i] {
        assert Read2(s, 2 * 0) == schemes[0];
        WrittenIfRead(s, 0, schemes[0], 2);
        forall i | 0 <= i < n - 1 ensures Read2(s[2..], 2 * i) == schemes[1..][i] {
          assert Read2(s, 2 * (i + 1)) == schemes[i + 1];
        }
        assert s == s[0..2] + s[2..];
      }
    }
  }

  lemma Read2Inside(b: seq<byte>, off: nat, at: nat)
    requires off + at + 2 <= |b|
    ensures Read2(b[off..], at) == Read2(b, off + at)
  {
  }

  lemma SchemesLayout(typ: u16, schemes: seq<u16>, e: Extension)
    ensures Request.SchemesExtension(typ, schemes) == Ok(e) <==>
              e.typ == typ && 1 <= |schemes| <= 32767 && IsSchemes(e.data, schemes)
  {
    Widths();
    hide Be, Pow256, Read2, Request.EncodeSchemes;
    var n, data := |schemes|, e.data;
    if |data| == 2 + 2 * n && n <= 32767 {
      SchemesAt(data[2..], schemes);
      forall i | 0 <= i < n ensures Read2(data[2..], 2 * i) == Read2(data, 2 + 2 * i) {
        Read2Inside(data, 2, 2 * i);
      }
      assert data == data[0..2] + data[2..];
      if data[0..2] == Be(2 * n, 2) {
        ReadWritten(data, 0, 2 * n, 2);
      }
      if Read2(data, 0) == 2 * n {
        WrittenIfRead(data, 0, 2 * n, 2);
      }
      SchemesCase(typ, schemes, e);
    }
  }

  lemma SchemesCase(typ: u16, schemes: seq<u16>, e: Extension)
    requires |e.data| == 2 + 2 * |schemes| && |schemes| <= 32767
    ensures Request.SchemesExtension(typ, schemes) == Ok(e) <==>
              && e.typ == typ && 1 <= |schemes|
              && e.data[0..2] == Be(2 * |schemes|, 2) && e.data[2..] == Request.EncodeSchemes(schemes)
  {
    hide Be, Request.EncodeSchemes;
    assert e.data == e.data[0..2] + e.data[2..];
    if Request.SchemesExtension(typ, schemes) == Ok(e) {
      assert e.data[0..2] == Be(2 * |schemes|, 2);
    }
  }

  /** Type 0xff00, and the payload behind its 16-bit length. */
  lemma PayloadLayout(cmw: seq<byte>, e: Extension)
    ensures Cmw.DataExtension(cmw) == Ok(e) <==>
              && e.typ == 0xff00 && 1 <= |cmw| <= 65535
              && |e.data| == 2 + |cmw| && Read2(e.data, 0) == |cmw| && e.data[2..] == cmw
  {
    Widths();
    hide Be, Pow256, Read2;
    var n, data := |cmw|, e.data;
    if Cmw.DataExtension(cmw) == Ok(e) {
      assert data[0..2] == Be(n, 2) && data[2..] == cmw;
      ReadWritten(data, 0, n, 2);
    }
    if |data| == 2 + n && Read2(data, 0) == n && data[2..] == cmw {
      WrittenIfRead(data, 0, n, 2);
      assert data == data[0..2] + data[2..];
    }
  }

  // ------------------------------------------------------------------------------ refusals

  /** An extension vector is cut short, or what it holds is no list of extensions. */
  lemma VectorRefused(b: seq<byte>, p: seq<byte>)
    ensures |b| < 2 || |b| < 2 + Read2(b, 0) ==> Extensions.Unmarshal(b) == Err(Truncated)
    ensures |b| >= 2 && |b| >= 2 + Read2(b, 0) && p == b[2..2 + Read2(b, 0)] ==>
              (Extensions.Unmarshal(b).Ok? <==> exists exts :: LaysOut(p, exts))
  {
    ReadIsFromBe(b, 0);
    hide FromBe, Read2, LaysOut;
    ParsedLaysOut(p);
  }

  lemma ParsedLaysOut(p: seq<byte>)
    ensures Parse(p).Ok? <==> exists exts :: LaysOut(p, exts)
  {
    hide LaysOut;
    if Parse(p).Ok? {
      var exts := Parse(p).value;
      EncodeParse(p);
      ParsedFit(p);
      EncodedLaysOut(p, exts);
    }
    if exts :| LaysOut(p, exts) {
      EncodedLaysOut(p, exts);
      ParseEncode(exts);
    }
  }

  /** A 16-bit length never claims more than 16 bits hold. */
  lemma {:induction false} ParsedFit(p: seq<byte>)
    requires Parse(p).Ok?
    ensures AllFit(Parse(p).value)
    decreases |p|
  {
    hide First;
    if p != [] {
      FirstFits(p);
      ParsedFit(First(p).value.1);
      var exts := Parse(p).value;
      assert exts[1..] == Parse(First(p).value.1).value;
      AllFitSplit(exts);
    }
  }

  lemma FirstFits(p: seq<byte>)
    requires First(p).Ok?
    ensures |First(p).value.0.data| <= MAX_U16
  {
    BeOfFromBe(p[2..4]);
    Widths();
  }

  /** The first extension of a payload: fewer than four bytes, or fewer than its length asks for. */
  lemma ExtensionRefused(payload: seq<byte>)
    ensures First(payload) == Err(Truncated) <==> |payload| < 4
    ensures First(payload) == Err(InvalidLength) <==> |payload| >= 4 && Read2(payload, 2) > |payload| - 4
  {
    ReadIsFromBe(payload, 2);
    hide FromBe, Read2;
  }

  /** Lists that are too long to print, or certificates that are empty or too long, are refused. */
  lemma EntryRefused(e: CertificateEntry)
    ensures EncodeEntry(e).Err? <==> !(1 <= |e.certDer| <= 16777215 && |Encode(e.extensions)| <= 65535)
    ensures EncodeEntry(e).Err? ==> EncodeEntry(e).error == InvalidLength
  {
    hide Encode;
  }

  /** What each single-part parser asks of the message it is handed. */
  lemma SinglePartRefused(b: seq<byte>)
    ensures Finished.Unmarshal(b).Ok? <==> |b| > 4 && Read3(b, 1) == |b| - 4 && b[0] == 20
    ensures CertVerify.Unmarshal(b).Ok? <==>
              |b| >= 8 && Read3(b, 1) == |b| - 4 && b[0] == 15 && Read2(b, 6) == |b| - 8
  {
    hide Read2, Read3, FromBe, Handshake.Marshal;
    ReadIsFromBe(b, 1);
    ReadIsFromBe(b, 6);
    if |b| >= 8 && |b| >= 4 + Read3(b, 1) >= 8 {
      InsideBody(b, Read3(b, 1));
    }
  }

  lemma InsideBody(b: seq<byte>, n: nat)
    requires |b| >= 8 && |b| >= 4 + n && n >= 4
    ensures b[4..4 + n][2..4] == b[6..8]
  {
    var body := b[4..4 + n];
    assert body[2] == b[6] && body[3] == b[7];
  }
}
