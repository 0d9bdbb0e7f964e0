/** What a validator's empty verdict stands for, and what it does not. */
module EmptyVerdicts {
  import opened Wrappers
  import opened BigEndian
  import opened Handshake
  import opened Certificate
  import opened Request
  import opened Policy
  import opened Crypto
  import opened Attestation
  import opened Authenticator
  import opened AuthenticatorTheorems
  import Cmw
  import CertVerify
  import Finished

  /** The bytes are the very Finished message an empty authenticator consists of. */
  predicate AnswersRequest(lib: Library, keys: Keys, part: RequestPart, requested: bool, bytes: seq<byte>,
                           context: seq<byte>)
  {
    requested && context == part.context && EmptyAuthenticator(lib, keys, part, context) == Ok(bytes)
  }

  /** The bytes are a Certificate message without entries and any two well-formed messages behind it. */
  ghost predicate ListsNothing(part: RequestPart, requested: bool, bytes: seq<byte>, context: seq<byte>)
  {
    && (requested ==> context == part.context)
    && exists m: Messages :: m.Printed() && bytes == m.Bytes() && m.cert == CertificateMessage(context, [])
  }

  lemma FinishedOnlyIff(lib: Library, keys: Keys, requested: bool, part: RequestPart, bytes: seq<byte>,
                        context: seq<byte>)
    requires Handshake.Unmarshal(bytes).Ok? && Handshake.Unmarshal(bytes).value.0.typ == FINISHED
    ensures var (first, rest) := Handshake.Unmarshal(bytes).value;
            CheckFinishedOnly(lib, keys, requested, part, first, rest) == Ok(AcceptedEmpty(context))
            <==> AnswersRequest(lib, keys, part, requested, bytes, context)
  {
    hide Handshake.Unmarshal, Reprint, Certificate.Marshal, FinishedMac;
    var (first, rest) := Handshake.Unmarshal(bytes).value;
    if CheckFinishedOnly(lib, keys, requested, part, first, rest) == Ok(AcceptedEmpty(context)) {
      Reprinted(bytes);
      assert Reprint(first) + [] == Reprint(first);
      Finished.MarshalUnmarshal(Reprint(first));
      hide Finished.Marshal, Finished.Unmarshal;
    }
    if AnswersRequest(lib, keys, part, requested, bytes, context) {
      EmptyIsAccepted(lib, keys, part, bytes);
      hide Finished.Marshal, Finished.Unmarshal, CheckFinishedOnly, EmptyAuthenticator;
    }
  }

  lemma FirstType(bytes: seq<byte>)
    requires Handshake.Unmarshal(bytes).Ok?
    ensures bytes != [] && Handshake.Unmarshal(bytes).value.0.typ == bytes[0]
  {
  }

  lemma ListsNothingStarts(part: RequestPart, requested: bool, bytes: seq<byte>, context: seq<byte>)
    requires ListsNothing(part, requested, bytes, context)
    ensures Handshake.Unmarshal(bytes).Ok? && Handshake.Unmarshal(bytes).value.0.typ == CERTIFICATE
    ensures var (first, rest) := Handshake.Unmarshal(bytes).value;
            ParseMessages(first, rest).Ok? && ParseMessages(first, rest).value.cert == CertificateMessage(context, [])
  {
    var m: Messages :| m.Printed() && bytes == m.Bytes() && m.cert == CertificateMessage(context, []);
    var first := ParsePrinted(m);
    hide Handshake.Unmarshal, ParseMessages;
  }

  lemma EmptyMessagesAccepted(lib: Library, keys: Keys, req: Option<AuthenticatorRequest>,
                              policy: Option<SpontaneousPolicy>, part: RequestPart, chainOptions: Option<int>,
                              m: Messages, context: seq<byte>)
    requires PartOf(req) == Ok(part)
    ensures CheckMessages(lib, keys, req, policy, part, chainOptions, m) == Ok(AcceptedEmpty(context))
            <==> m.cert == CertificateMessage(context, []) && (req.Some? ==> context == part.context)
  {
    hide PartOf, ParseChain, CheckProofs, Permits, EntriesPermitted, Cmw.Placed, Cmw.Extract;
    assert m.cert == CertificateMessage(m.cert.context, m.cert.entries);
  }

  /** Exactly two kinds of input are accepted with an empty verdict. */
  lemma EmptyVerdictIff(lib: Library, st: ConnectionState, role: Role, req: Option<AuthenticatorRequest>,
                        policy: Option<SpontaneousPolicy>, chainOptions: Option<int>, bytes: seq<byte>,
                        context: seq<byte>)
    requires ExportKeys(st, role).Ok? && PartOf(req).Ok?
    ensures ValidateUnmarked(lib, st, role, req, policy, chainOptions, bytes) == Ok(AcceptedEmpty(context))
            <==> || AnswersRequest(lib, ExportKeys(st, role).value, PartOf(req).value, req.Some?, bytes, context)
                 || ListsNothing(PartOf(req).value, req.Some?, bytes, context)
  {
    TlsOnly(st, role);
    hide ExportKeys, PartOf, Handshake.Unmarshal, ParseMessages, CheckFinishedOnly, CheckMessages;
    hide AnswersRequest, ListsNothing;
    var keys, part := ExportKeys(st, role).value, PartOf(req).value;
    if AnswersRequest(lib, keys, part, req.Some?, bytes, context) {
      AnswerStarts(lib, keys, part, req.Some?, bytes, context);
    }
    if ListsNothing(part, req.Some?, bytes, context) {
      ListsNothingStarts(part, req.Some?, bytes, context);
    }
    if Handshake.Unmarshal(bytes).Ok? {
      var (first, rest) := Handshake.Unmarshal(bytes).value;
      if first.typ == FINISHED {
        FinishedOnlyIff(lib, keys, req.Some?, part, bytes, context);
      } else if first.typ == CERTIFICATE && ParseMessages(first, rest).Ok? {
        var m := ParseMessages(first, rest).value;
        EmptyMessagesAccepted(lib, keys, req, policy, part, chainOptions, m, context);
        PrintParsed(bytes, m);
        ListedNothing(part, req.Some?, bytes, context, m);
      }
    }
  }

  lemma AnswerStarts(lib: Library, keys: Keys, part: RequestPart, requested: bool, bytes: seq<byte>, context: seq<byte>)
    requires AnswersRequest(lib, keys, part, requested, bytes, context)
    ensures Handshake.Unmarshal(bytes).Ok? && Handshake.Unmarshal(bytes).value.0.typ == FINISHED
  {
    EmptyIsAccepted(lib, keys, part, bytes);
  }

  lemma EmptyStarts(lib: Library, keys: Keys, part: RequestPart, context: seq<byte>, bytes: seq<byte>)
    requires EmptyAuthenticator(lib, keys, part, context) == Ok(bytes)
    ensures Handshake.Unmarshal(bytes).Ok? && Handshake.Unmarshal(bytes).value.0.typ == FINISHED
  {
    hide Handshake.Marshal, Handshake.Unmarshal, Certificate.Marshal, FinishedMac;
    var mac := FinishedMac(lib, keys, part.bytes + Certificate.Marshal(CertificateMessage(context, [])).value);
    assert IsFrame(FINISHED, mac, bytes);
    FrameSplits(FINISHED, mac, bytes, []);
    assert bytes + [] == bytes;
  }

  lemma ListedNothing(part: RequestPart, requested: bool, bytes: seq<byte>, context: seq<byte>, m: Messages)
    requires m.Printed() && bytes == m.Bytes()
    requires ListsNothing(part, requested, bytes, context) ==> m.cert == CertificateMessage(context, [])
    ensures ListsNothing(part, requested, bytes, context)
            <==> m.cert == CertificateMessage(context, []) && (requested ==> context == part.context)
  {
  }

  /**
   * An empty verdict stands for the MAC a creator would have sent exactly when the input starts with a Finished
   * message. The other kind of input is accepted whatever its signature and MAC are.
   */
  lemma EmptyVerdictMac(lib: Library, st: ConnectionState, role: Role, req: Option<AuthenticatorRequest>,
                        policy: Option<SpontaneousPolicy>, chainOptions: Option<int>, bytes: seq<byte>,
                        context: seq<byte>)
    requires ExportKeys(st, role).Ok? && PartOf(req).Ok?
    requires ValidateUnmarked(lib, st, role, req, policy, chainOptions, bytes) == Ok(AcceptedEmpty(context))
    ensures bytes != []
    ensures bytes[0] == FINISHED
            <==> EmptyAuthenticator(lib, ExportKeys(st, role).value, PartOf(req).value, context) == Ok(bytes)
    ensures bytes[0] != FINISHED ==>
              forall m: Messages :: m.Printed() && m.cert == CertificateMessage(context, []) ==>
                ValidateUnmarked(lib, st, role, req, policy, chainOptions, m.Bytes()) == Ok(AcceptedEmpty(context))
  {
    var keys, part := ExportKeys(st, role).value, PartOf(req).value;
    EmptyVerdictIff(lib, st, role, req, policy, chainOptions, bytes, context);
    hide ExportKeys, PartOf, Handshake.Unmarshal, ValidateUnmarked, ParseMessages, EmptyAuthenticator;
    if ListsNothing(part, req.Some?, bytes, context) {
      ListsNothingStarts(part, req.Some?, bytes, context);
      forall m: Messages | m.Printed() && m.cert == CertificateMessage(context, [])
        ensures ValidateUnmarked(lib, st, role, req, policy, chainOptions, m.Bytes()) == Ok(AcceptedEmpty(context))
      {
        assert ListsNothing(part, req.Some?, m.Bytes(), context);
        EmptyVerdictIff(lib, st, role, req, policy, chainOptions, m.Bytes(), context);
      }
    }
    hide ListsNothing;
    FirstType(bytes);
    if EmptyAuthenticator(lib, keys, part, context) == Ok(bytes) {
      EmptyStarts(lib, keys, part, context, bytes);
    }
    if AnswersRequest(lib, keys, part, req.Some?, bytes, context) {
      AnswerStarts(lib, keys, part, req.Some?, bytes, context);
    }
  }

  lemma ThreeBytes(v: byte)
    ensures Be(v, 3) == [0, 0, v]
  {
    assert Be(v, 3) == Be(0, 2) + [v];
    assert Be(0, 2) == Be(0, 1) + [0];
    assert Be(0, 1) == Be(0, 0) + [0];
  }

  lemma TwoBytes()
    ensures Be(0, 2) == [0, 0]
  {
    assert Be(0, 1) == Be(0, 0) + [0];
  }

  lemma PrintedCertificate()
    ensures Certificate.Marshal(CertificateMessage([], [])) == Ok([11, 0, 0, 4, 0, 0, 0, 0])
  {
    ThreeBytes(0);
    ThreeBytes(4);
    hide Be;
    var body := Certificate.Body([], []);
    assert body == [0, 0, 0, 0];
    assert [CERTIFICATE] + Be(4, 3) + body == [11, 0, 0, 4, 0, 0, 0, 0];
  }

  lemma PrintedCertVerify()
    ensures CertVerify.Marshal(CertVerify.CertificateVerifyMessage(0, [])) == Ok([15, 0, 0, 4, 0, 0, 0, 0])
  {
    TwoBytes();
    ThreeBytes(4);
    hide Be;
    var body := CertVerify.Body(CertVerify.CertificateVerifyMessage(0, []));
    assert body == [0, 0, 0, 0];
    assert [CERTIFICATE_VERIFY] + Be(4, 3) + body == [15, 0, 0, 4, 0, 0, 0, 0];
  }

  lemma PrintedFinished()
    ensures Finished.Marshal(Finished.FinishedMessage([0])) == Ok([20, 0, 0, 1, 0])
  {
    ThreeBytes(1);
    hide Be;
    assert [FINISHED] + Be(1, 3) + [0] == [20, 0, 0, 1, 0];
  }

  /**
   * A concrete input with an empty verdict that no key was needed for: under any keys, and any library, these
   * 21 bytes (no context, no entries, an empty signature, a verify_data of one zero) are accepted.
   */
  lemma EmptyVerdictWithoutKeys(lib: Library, st: ConnectionState, role: Role, policy: Option<SpontaneousPolicy>)
    requires ExportKeys(st, role).Ok?
    ensures var bytes := [11, 0, 0, 4, 0, 0, 0, 0] + [15, 0, 0, 4, 0, 0, 0, 0] + [20, 0, 0, 1, 0];
            ValidateUnmarked(lib, st, role, None, policy, None, bytes) == Ok(AcceptedEmpty([]))
  {
    var m := Messages(CertificateMessage([], []), [11, 0, 0, 4, 0, 0, 0, 0],
                      CertVerify.CertificateVerifyMessage(0, []), [15, 0, 0, 4, 0, 0, 0, 0],
                      Finished.FinishedMessage([0]), [20, 0, 0, 1, 0]);
    PrintedCertificate();
    PrintedCertVerify();
    PrintedFinished();
    hide Certificate.Marshal, CertVerify.Marshal, Finished.Marshal, ValidateUnmarked, AnswersRequest, ExportKeys;
    assert ListsNothing(PartOf(None).value, false, m.Bytes(), []);
    EmptyVerdictIff(lib, st, role, None, policy, None, m.Bytes(), []);
  }
}
