/** The cmw_attestation certificate-entry extension: building, extracting and placing it. */
module Cmw {
  import opened Wrappers
  import opened BigEndian
  import opened Handshake
  import opened Extensions
  import opened Certificate

  const CMW_ATTESTATION: u16 := 0xFF00

  /** The extension carrying `cmw` behind its own 16-bit length. */
  function DataExtension(cmw: seq<byte>): Result<Extension, Error> {
    if |cmw| == 0 || |cmw| > MAX_U16 then Err(InvalidLength)
    else Ok(Extension(CMW_ATTESTATION, Be(|cmw|, 2) + cmw))
  }

  function Payload(data: seq<byte>): Result<seq<byte>, Error> {
    if |data| < 2 then Err(InvalidLength)
    else if FromBe(data[..2]) == 0 || FromBe(data[..2]) != |data| - 2 then Err(InvalidLength)
    else Ok(data[2..])
  }

  /** The payload of the first cmw extension: absent, present, or malformed. */
  function Extract(exts: seq<Extension>): Result<Option<seq<byte>>, Error> {
    if exts == [] then Ok(None)
    else if exts[0].typ != CMW_ATTESTATION then Extract(exts[1..])
    else
      var payload :- Payload(exts[0].data);
      Ok(Some(payload))
  }

  predicate Carries(exts: seq<Extension>) {
    exists k :: 0 <= k < |exts| && exts[k].typ == CMW_ATTESTATION
  }

  /** No entry but the first carries the extension. */
  predicate Placed(entries: seq<CertificateEntry>) {
    forall i :: 0 < i < |entries| ==> !Carries(entries[i].extensions)
  }

  lemma PayloadOfBuilt(cmw: seq<byte>)
    requires DataExtension(cmw).Ok?
    ensures Payload(DataExtension(cmw).value.data) == Ok(cmw)
  {
    var data := DataExtension(cmw).value.data;
    Widths();
    FromBeOfBe(|cmw|, 2);
    hide Be, FromBe, Pow256;
    assert data[..2] == Be(|cmw|, 2) && data[2..] == cmw;
  }

  lemma BuiltFromPayload(data: seq<byte>)
    requires Payload(data).Ok?
    ensures DataExtension(Payload(data).value) == Ok(Extension(CMW_ATTESTATION, data))
  {
    BeOfFromBe(data[..2]);
    Widths();
    hide Be, FromBe, Pow256;
    assert data == data[..2] + data[2..];
  }

  /** Something is extracted, or refused, exactly when the extension is there. */
  lemma {:induction false} ExtractFindsCarried(exts: seq<Extension>)
    ensures Extract(exts) == Ok(None) <==> !Carries(exts)
  {
    if exts != [] {
      ExtractFindsCarried(exts[1..]);
      if exts[0].typ != CMW_ATTESTATION {
        if Carries(exts) {
          var k :| 0 <= k < |exts| && exts[k].typ == CMW_ATTESTATION;
          assert exts[1..][k - 1].typ == CMW_ATTESTATION;
        }
        if Carries(exts[1..]) {
          var k :| 0 <= k < |exts[1..]| && exts[1..][k].typ == CMW_ATTESTATION;
          assert exts[k + 1].typ == CMW_ATTESTATION;
        }
      }
    }
  }

  /** A payload put into the leaf's extensions ahead of any other cmw extension is the one extracted. */
  lemma {:induction false} ExtractBuilt(exts: seq<Extension>, i: nat, cmw: seq<byte>)
    requires i < |exts| && DataExtension(cmw) == Ok(exts[i])
    requires forall j :: 0 <= j < i ==> exts[j].typ != CMW_ATTESTATION
    ensures Extract(exts) == Ok(Some(cmw))
  {
    if i == 0 {
      PayloadOfBuilt(cmw);
    } else {
      ExtractBuilt(exts[1..], i - 1, cmw);
    }
  }

  // -------------------------------------------------------------------- the Go routines

  method CmwDataExtension(cmw: seq<byte>) returns (r: Result<Extension, Error>)
    ensures r == DataExtension(cmw)
  {
    if |cmw| == 0 || |cmw| > MAX_U16 {
      return Err(InvalidLength);
    }
    hide Be;
    var data := new byte[2 + |cmw|](_ => 0);
    StoreBe(data, 0, 2, |cmw|);
    forall k | 0 <= k < |cmw| { data[2 + k] := cmw[k]; }
    assert data[..] == Be(|cmw|, 2) + cmw;
    r := Ok(Extension(CMW_ATTESTATION, data[..]));
  }

  method ExtractFromExtensions(exts: seq<Extension>) returns (r: Result<Option<seq<byte>>, Error>)
    ensures r == Extract(exts)
  {
    assert exts[0..] == exts;
    for i := 0 to |exts|
      invariant Extract(exts) == Extract(exts[i..])
    {
      var e := exts[i];
      assert exts[i..][1..] == exts[i + 1..];
      if e.typ == CMW_ATTESTATION {
        if |e.data| < 2 {
          return Err(InvalidLength);
        }
        assert e.data[0..2] == e.data[..2];
        var l := LoadBe(e.data[0..2]);
        if l <= 0 || l != |e.data| - 2 {
          return Err(InvalidLength);
        }
        return Ok(Some(e.data[2..]));
      }
    }
    r := Ok(None);
  }

  method ValidatePlacement(entries: seq<CertificateEntry>) returns (ok: bool)
    ensures ok == Placed(entries)
  {
    for i := 0 to |entries|
      invariant forall i' :: 0 < i' < i ==> !Carries(entries[i'].extensions)
    {
      var exts := entries[i].extensions;
      for k := 0 to |exts|
        invariant i != 0 ==> forall k' :: 0 <= k' < k ==> exts[k'].typ != CMW_ATTESTATION
      {
        if exts[k].typ == CMW_ATTESTATION && i != 0 {
          return false;
        }
      }
    }
    ok := true;
  }
}
