/** What a created authenticator proves to a validator, and what a validator's verdict stands for. */
module AuthenticatorTheorems {
  import opened Wrappers
  import opened BigEndian
  import opened Handshake
  import opened Extensions
  import opened Certificate
  import opened Request
  import opened Policy
  import opened Crypto
  import opened Attestation
  import opened Authenticator
  import Cmw
  import CertVerify
  import Finished
  import Session

  // ------------------------------------------------------------------ splitting the bytes

  lemma PrintedFrames(m: Messages)
    requires m.Printed()
    ensures exists c, v, f :: IsFrame(CERTIFICATE, c, m.certBytes) && IsFrame(CERTIFICATE_VERIFY, v, m.cvBytes)
                              && IsFrame(FINISHED, f, m.finBytes)
  {
    hide Handshake.Marshal, EncodeList, Certificate.Body, CertVerify.Body;
    var c := Certificate.Body(m.cert.context, EncodeList(m.cert.entries).value);
    assert IsFrame(CERTIFICATE, c, m.certBytes);
    assert IsFrame(CERTIFICATE_VERIFY, CertVerify.Body(m.cv), m.cvBytes);
    assert IsFrame(FINISHED, m.fin.verifyData, m.finBytes);
  }

  predicate IsFrame(typ: byte, body: seq<byte>, bytes: seq<byte>) {
    Handshake.Marshal(HandshakeMessage(typ, body)) == Ok(bytes)
  }

  lemma FrameSplits(typ: byte, body: seq<byte>, bytes: seq<byte>, rest: seq<byte>)
    requires IsFrame(typ, body, bytes)
    ensures Handshake.Unmarshal(bytes + rest) == Ok((HandshakeMessage(typ, body), rest))
    ensures Reprint(HandshakeMessage(typ, body)) == bytes
  {
    Handshake.UnmarshalMarshal(HandshakeMessage(typ, body), rest);
    hide Handshake.Marshal, Handshake.Unmarshal;
  }

  /** Printed messages, one after the other, are split and parsed back to themselves. */
  lemma ParsePrinted(m: Messages) returns (first: HandshakeMessage)
    requires m.Printed()
    ensures first.typ == CERTIFICATE
    ensures Handshake.Unmarshal(m.Bytes()) == Ok((first, m.cvBytes + m.finBytes))
    ensures ParseMessages(first, m.cvBytes + m.finBytes) == Ok(m)
  {
    PrintedFrames(m);
    hide Handshake.Marshal, Handshake.Unmarshal, Reprint;
    var c, v, f :| IsFrame(CERTIFICATE, c, m.certBytes) && IsFrame(CERTIFICATE_VERIFY, v, m.cvBytes)
                   && IsFrame(FINISHED, f, m.finBytes);
    first := HandshakeMessage(CERTIFICATE, c);
    FrameSplits(CERTIFICATE, c, m.certBytes, m.cvBytes + m.finBytes);
    assert m.certBytes + (m.cvBytes + m.finBytes) == m.Bytes();
    FrameSplits(CERTIFICATE_VERIFY, v, m.cvBytes, m.finBytes);
    FrameSplits(FINISHED, f, m.finBytes, []);
    assert m.finBytes + [] == m.finBytes;
    Certificate.UnmarshalMarshal(m.cert);
    CertVerify.UnmarshalMarshal(m.cv);
    Finished.UnmarshalMarshal(m.fin);
    hide Certificate.Marshal, CertVerify.Marshal, Finished.Marshal;
    hide Certificate.Unmarshal, CertVerify.Unmarshal, Finished.Unmarshal;
  }

  lemma Reprinted(b: seq<byte>)
    requires Handshake.Unmarshal(b).Ok?
    ensures b == Reprint(Handshake.Unmarshal(b).value.0) + Handshake.Unmarshal(b).value.1
  {
    Handshake.MarshalUnmarshal(b);
    hide Handshake.Marshal, Handshake.Unmarshal;
  }

  /** Messages that parse are, printed again, the whole input: no slack, and nothing re-encoded differently. */
  lemma PrintParsed(bytes: seq<byte>, m: Messages)
    requires Handshake.Unmarshal(bytes).Ok?
    requires ParseMessages(Handshake.Unmarshal(bytes).value.0, Handshake.Unmarshal(bytes).value.1) == Ok(m)
    ensures m.Printed() && bytes == m.Bytes()
  {
    hide Handshake.Unmarshal, Reprint, Certificate.Marshal, CertVerify.Marshal, Finished.Marshal;
    hide Certificate.Unmarshal, CertVerify.Unmarshal, Finished.Unmarshal;
    var (first, rest) := Handshake.Unmarshal(bytes).value;
    var (cvHm, rest1) := Handshake.Unmarshal(rest).value;
    Reprinted(bytes);
    Reprinted(rest);
    Reprinted(rest1);
    Certificate.MarshalUnmarshal(m.certBytes);
    CertVerify.MarshalUnmarshal(m.cvBytes);
    Finished.MarshalUnmarshal(m.finBytes);
    assert m.finBytes + [] == m.finBytes;
    assert m.certBytes + (m.cvBytes + m.finBytes) == m.Bytes();
  }

  // ----------------------------------------------------------------------- completeness

  /** An empty authenticator is accepted under the same keys and request, giving back the request's context. */
  lemma EmptyIsAccepted(lib: Library, keys: Keys, part: RequestPart, bytes: seq<byte>)
    requires EmptyAuthenticator(lib, keys, part, part.context) == Ok(bytes)
    ensures Handshake.Unmarshal(bytes).Ok?
    ensures var (first, rest) := Handshake.Unmarshal(bytes).value;
            first.typ == FINISHED
            && CheckFinishedOnly(lib, keys, true, part, first, rest) == Ok(AcceptedEmpty(part.context))
  {
    hide Handshake.Marshal, Handshake.Unmarshal, Reprint, Certificate.Marshal, FinishedMac;
    var mac := FinishedMac(lib, keys, part.bytes + Certificate.Marshal(CertificateMessage(part.context, [])).value);
    assert IsFrame(FINISHED, mac, bytes);
    FrameSplits(FINISHED, mac, bytes, []);
    assert bytes + [] == bytes;
    Finished.UnmarshalMarshal(Finished.FinishedMessage(mac));
    hide Finished.Marshal, Finished.Unmarshal;
  }

  /** Every certificate of the identity parses, the leaf to the public half of the signing key. */
  ghost predicate GoodIdentity(lib: Library, identity: Identity) {
    && identity.certificates != [] && identity.key.Some?
    && (forall i :: 0 <= i < |identity.certificates| ==> lib.parseCertificate(identity.certificates[i]).Ok?)
    && KeyPair(lib, identity.key.value, lib.parseCertificate(identity.certificates[0]).value.publicKey)
  }

  /** The identity's certificates, parsed. */
  function ChainOf(lib: Library, certificates: seq<seq<byte>>): (chain: seq<X509>)
    requires forall i :: 0 <= i < |certificates| ==> lib.parseCertificate(certificates[i]).Ok?
    ensures |chain| == |certificates|
  {
    seq(|certificates|, i requires 0 <= i < |certificates| => lib.parseCertificate(certificates[i]).value)
  }

  lemma {:induction false} ParseChainIs(lib: Library, entries: seq<CertificateEntry>, chain: seq<X509>)
    requires |chain| == |entries|
    requires forall i :: 0 <= i < |entries| ==> lib.parseCertificate(entries[i].certDer) == Ok(chain[i])
    ensures ParseChain(lib, entries) == Ok(chain)
  {
    if entries != [] {
      ParseChainIs(lib, entries[1..], chain[1..]);
      assert [chain[0]] + chain[1..] == chain;
    }
  }

  lemma ChainOfEntries(lib: Library, certificates: seq<seq<byte>>, leafExtensions: seq<Extension>)
    requires forall i :: 0 <= i < |certificates| ==> lib.parseCertificate(certificates[i]).Ok?
    ensures ParseChain(lib, EntriesOf(certificates, leafExtensions)) == Ok(ChainOf(lib, certificates))
  {
    ParseChainIs(lib, EntriesOf(certificates, leafExtensions), ChainOf(lib, certificates));
  }

  lemma LeafExtensionsPass(certificates: seq<seq<byte>>, leafExtensions: seq<Extension>,
                           req: Option<AuthenticatorRequest>, policy: Option<SpontaneousPolicy>)
    requires certificates != [] && AllPermitted(leafExtensions, req, policy)
    ensures Cmw.Placed(EntriesOf(certificates, leafExtensions))
    ensures EntriesPermitted(EntriesOf(certificates, leafExtensions), req, policy)
    ensures EntriesOf(certificates, leafExtensions)[0].extensions == leafExtensions
    ensures Cmw.Extract(leafExtensions).Ok? && Cmw.Extract(leafExtensions).value.Some?
            ==> Permits(req, policy, Cmw.CMW_ATTESTATION)
  {
    Cmw.ExtractFindsCarried(leafExtensions);
    hide Permits;
    if Cmw.Extract(leafExtensions).Ok? && Cmw.Extract(leafExtensions).value.Some? {
      var k :| 0 <= k < |leafExtensions| && leafExtensions[k].typ == Cmw.CMW_ATTESTATION;
      assert Permits(req, policy, leafExtensions[k].typ);
    }
  }

  lemma FullIsPrinted(lib: Library, keys: Keys, part: RequestPart, policy: Option<SpontaneousPolicy>,
                      spontaneous: bool, identity: Identity, leafExtensions: seq<Extension>, context: seq<byte>,
                      random: int, m: Messages)
    requires identity.key.Some?
    requires FullAuthenticator(lib, keys, part, policy, spontaneous, identity, leafExtensions, context, random) == Ok(m)
    ensures m.Printed()
    ensures m.cert == CertificateMessage(context, EntriesOf(identity.certificates, leafExtensions))
    ensures part.offered != [] ==> m.cv.algorithm in part.offered
    ensures FinishedMac(lib, keys, part.bytes + m.certBytes + m.cvBytes) == m.fin.verifyData
    ensures SignTranscript(lib, identity.key.value, m.cv.algorithm,
                           TranscriptHash(lib, keys, part.bytes + m.certBytes), random) == Ok(m.cv.signature)
  {
    hide Certificate.Marshal, CertVerify.Marshal, Finished.Marshal, ChooseScheme, SignTranscript, EntriesOf;
    hide FinishedMac, TranscriptHash;
    ChosenSchemeFits(identity.key.value, part.offered);
  }

  /** The messages a creator builds pass every check of a validator who asks for no chain building. */
  lemma FullIsAccepted(lib: Library, keys: Keys, req: Option<AuthenticatorRequest>, policy: Option<SpontaneousPolicy>,
                       part: RequestPart, identity: Identity, leafExtensions: seq<Extension>, context: seq<byte>,
                       random: int, m: Messages)
    requires PartOf(req) == Ok(part) && (req.Some? ==> context == part.context)
    requires GoodIdentity(lib, identity)
    requires AllPermitted(leafExtensions, req, policy) && Cmw.Extract(leafExtensions).Ok?
    requires FullAuthenticator(lib, keys, part, policy, req.None?, identity, leafExtensions, context, random) == Ok(m)
    ensures var chain := ChainOf(lib, identity.certificates);
            CheckMessages(lib, keys, req, policy, part, None, m)
            == Ok(AcceptedFull(context, chain, chain[0], Cmw.Extract(leafExtensions).value))
  {
    FullIsPrinted(lib, keys, part, policy, req.None?, identity, leafExtensions, context, random, m);
    LeafExtensionsPass(identity.certificates, leafExtensions, req, policy);
    ChainOfEntries(lib, identity.certificates, leafExtensions);
    var pub := ChainOf(lib, identity.certificates)[0].publicKey;
    SignedIsAccepted(lib, identity.key.value, pub, m.cv.algorithm,
                     TranscriptHash(lib, keys, part.bytes + m.certBytes), random);
    if req.Some? {
      SchemesNonEmpty(req.value.extensions, SIGNATURE_ALGORITHMS);
    }
    hide FullAuthenticator, EntriesOf, ChainOf, Cmw.Extract, Cmw.Placed, EntriesPermitted, Permits, AllPermitted;
    hide KeyPair, SignTranscript, VerifyTranscript, FinishedMac, TranscriptHash, Request.Marshal, SchemesOf, ParseChain;
  }

  lemma AttachmentCarries(lib: Library, st: ConnectionState, st': ConnectionState, verifier: Verifier,
                          context: seq<byte>, chain: seq<X509>, cmw: Option<seq<byte>>)
    requires SameConnection(st, st') && chain != []
    requires cmw.Some? ==> Attached(lib, st, verifier, context, chain[0], cmw.value)
    ensures Conclude(lib, st', verifier, AcceptedFull(context, chain, chain[0], cmw)).Ok?
    ensures var r := Conclude(lib, st', verifier, AcceptedFull(context, chain, chain[0], cmw)).value;
            r.context == context && r.chain == chain && r.cmw == cmw && !r.empty && (r.attestation.Some? <==> cmw.Some?)
  {
    hide ComputeBinding, VerifyPayload;
    if cmw.Some? {
      var p := ParsePayload(verifier.decode, cmw.value).value;
      SameBinding(lib, st, st', ATTESTATION_LABEL, context, chain[0]);
      VerifiedIffTrustworthy(lib, st', ATTESTATION_LABEL, context, chain[0], p, PolicyOf(verifier));
    }
  }

  function PolicyOf(verifier: Verifier): VerificationPolicy {
    if verifier.attestation.Some? then verifier.attestation.value else NO_VERIFIERS
  }

  /** The creator attached a payload that decodes, is bound to its connection, and makes accepted statements. */
  predicate Attached(lib: Library, st: ConnectionState, verifier: Verifier, context: seq<byte>, leaf: X509,
                     raw: seq<byte>)
  {
    && ParsePayload(verifier.decode, raw).Ok?
    && Trustworthy(lib, st, ATTESTATION_LABEL, context, leaf, ParsePayload(verifier.decode, raw).value,
                   PolicyOf(verifier))
  }

  function ContextFor(req: Option<AuthenticatorRequest>, random: Randomness): seq<byte> {
    if req.Some? then req.value.context else if random.context.Ok? then random.context.value else []
  }

  /** Validation, before marking, of what was created, before marking. */
  lemma CreatedPasses(lib: Library, st: ConnectionState, st': ConnectionState, role: Role,
                      req: Option<AuthenticatorRequest>, policy: Option<SpontaneousPolicy>, identity: Identity,
                      leafExtensions: seq<Extension>, random: Randomness, bytes: seq<byte>, context: seq<byte>)
    requires SameConnection(st, st')
    requires CreateUnmarked(lib, st, role, req, policy, identity, leafExtensions, random) == Ok((bytes, context))
    requires identity.key.Some? ==> GoodIdentity(lib, identity) && Cmw.Extract(leafExtensions).Ok?
    ensures context == ContextFor(req, random)
    ensures ValidateUnmarked(lib, st', role, req, policy, None, bytes) == Ok(
              if identity.key.None? then AcceptedEmpty(context)
              else var chain := ChainOf(lib, identity.certificates);
                   AcceptedFull(context, chain, chain[0], Cmw.Extract(leafExtensions).value))
  {
    SameKeys(st, st', role);
    hide ExportKeys, PartOf, AllPermitted, FullAuthenticator, EmptyAuthenticator, GoodIdentity, ChainOf, Cmw.Extract;
    hide Handshake.Unmarshal, ParseMessages, CheckMessages, CheckFinishedOnly, SameConnection;
    var part := PartOf(req).value;
    var keys := ExportKeys(st, role).value;
    PartContext(req);
    if identity.key.None? {
      EmptyIsAccepted(lib, keys, part, bytes);
    } else {
      var m := FullAuthenticator(lib, keys, part, policy, req.None?, identity, leafExtensions, context,
                                 random.signing).value;
      FullIsPrinted(lib, keys, part, policy, req.None?, identity, leafExtensions, context, random.signing, m);
      FullIsAccepted(lib, keys, req, policy, part, identity, leafExtensions, context, random.signing, m);
      var first := ParsePrinted(m);
    }
  }

  lemma PartContext(req: Option<AuthenticatorRequest>)
    requires PartOf(req).Ok?
    ensures req.Some? ==> PartOf(req).value.context == req.value.context
  {
    hide Request.Marshal;
  }

  /**
   * Whatever is created is accepted at the other end of the connection, for the same role, request and policy,
   * by a validator that has not used the context: same context, same certificates, same attestation payload.
   */
  lemma CreateThenValidate(lib: Library, st: ConnectionState, st': ConnectionState, role: Role,
                           req: Option<AuthenticatorRequest>, policy: Option<SpontaneousPolicy>, identity: Identity,
                           leafExtensions: seq<Extension>, random: Randomness, verifier: Verifier,
                           creatorUsed: Session.Contexts, validatorUsed: Session.Contexts)
    requires SameConnection(st, st') && verifier.chainOptions == None
    requires Create(creatorUsed, lib, st, role, req, policy, identity, leafExtensions, random).0.Ok?
    requires identity.key.Some? ==>
               && GoodIdentity(lib, identity) && Cmw.Extract(leafExtensions).Ok?
               && (Cmw.Extract(leafExtensions).value.Some? ==>
                     Attached(lib, st, verifier, ContextFor(req, random), ChainOf(lib, identity.certificates)[0],
                              Cmw.Extract(leafExtensions).value.value))
    requires Session.Unused(validatorUsed, ContextFor(req, random))
    ensures var context := ContextFor(req, random);
            var bytes := Create(creatorUsed, lib, st, role, req, policy, identity, leafExtensions, random).0.value;
            var (r, used) := Validate(validatorUsed, lib, st', role, req, policy, verifier, bytes);
            && used == Session.Using(validatorUsed, context)
            && r.Ok? && r.value.context == context
            && r.value.empty == identity.key.None?
            && (identity.key.Some? ==>
                  && r.value.chain == ChainOf(lib, identity.certificates)
                  && r.value.cmw == Cmw.Extract(leafExtensions).value
                  && (r.value.attestation.Some? <==> r.value.cmw.Some?))
  {
    hide CreateUnmarked, ValidateUnmarked, GoodIdentity, Attached, Cmw.Extract, SameConnection;
    var (bytes, context) := CreateUnmarked(lib, st, role, req, policy, identity, leafExtensions, random).value;
    CreatedPasses(lib, st, st', role, req, policy, identity, leafExtensions, random, bytes, context);
    if identity.key.Some? {
      GoodHasLeaf(lib, identity);
      AttachmentCarries(lib, st, st', verifier, context, ChainOf(lib, identity.certificates),
                        Cmw.Extract(leafExtensions).value);
      hide Conclude;
    }
  }

  /**
   * A creator who puts the extension built around a payload into the leaf's extensions, ahead of any other of that
   * type, has exactly this payload, verified, in the validator's verdict.
   */
  lemma AttachedPayloadArrives(lib: Library, st: ConnectionState, st': ConnectionState, role: Role,
                               req: Option<AuthenticatorRequest>, policy: Option<SpontaneousPolicy>, identity: Identity,
                               leafExtensions: seq<Extension>, at: nat, cmw: seq<byte>, random: Randomness,
                               verifier: Verifier, creatorUsed: Session.Contexts, validatorUsed: Session.Contexts)
    requires SameConnection(st, st') && verifier.chainOptions == None
    requires Create(creatorUsed, lib, st, role, req, policy, identity, leafExtensions, random).0.Ok?
    requires identity.key.Some? && GoodIdentity(lib, identity)
    requires at < |leafExtensions| && Cmw.DataExtension(cmw) == Ok(leafExtensions[at])
    requires forall j :: 0 <= j < at ==> leafExtensions[j].typ != Cmw.CMW_ATTESTATION
    requires Attached(lib, st, verifier, ContextFor(req, random), ChainOf(lib, identity.certificates)[0], cmw)
    requires Session.Unused(validatorUsed, ContextFor(req, random))
    ensures var bytes := Create(creatorUsed, lib, st, role, req, policy, identity, leafExtensions, random).0.value;
            var r := Validate(validatorUsed, lib, st', role, req, policy, verifier, bytes).0;
            && r.Ok? && r.value.cmw == Some(cmw) && r.value.attestation.Some?
            && r.value.attestation.value.payload == ParsePayload(verifier.decode, cmw).value
            && r.value.attestation.value.bindingVerified
  {
    Cmw.ExtractBuilt(leafExtensions, at, cmw);
    hide Create, Validate, Attached, Cmw.Extract, Cmw.DataExtension, SameConnection, GoodIdentity, ParsePayload;
    CreateThenValidate(lib, st, st', role, req, policy, identity, leafExtensions, random, verifier, creatorUsed,
                       validatorUsed);
    var bytes := Create(creatorUsed, lib, st, role, req, policy, identity, leafExtensions, random).0.value;
    AttestedVerdict(validatorUsed, lib, st', role, req, policy, verifier, bytes);
  }

  lemma GoodHasLeaf(lib: Library, identity: Identity)
    requires GoodIdentity(lib, identity)
    ensures forall i :: 0 <= i < |identity.certificates| ==> lib.parseCertificate(identity.certificates[i]).Ok?
    ensures ChainOf(lib, identity.certificates) != []
  {
  }

  // -------------------------------------------------------------------------- soundness

  /** What the messages of a non-empty verdict have in common with the request, the keys and the chain. */
  ghost predicate Proven(lib: Library, keys: Keys, part: RequestPart, req: Option<AuthenticatorRequest>,
                         policy: Option<SpontaneousPolicy>, chainOptions: Option<int>, m: Messages, chain: seq<X509>,
                         cmw: Option<seq<byte>>)
  {
    && m.cert.entries != [] && ParseChain(lib, m.cert.entries) == Ok(chain) && chain != []
    && (req.Some? ==> m.cert.context == req.value.context && m.cv.algorithm in part.offered)
    && VerifyTranscript(lib, chain[0].publicKey, m.cv.algorithm, TranscriptHash(lib, keys, part.bytes + m.certBytes),
                        m.cv.signature) == None
    && m.fin.verifyData == FinishedMac(lib, keys, part.bytes + m.certBytes + m.cvBytes)
    && (chainOptions.Some? ==> lib.chainOk(chain, chainOptions.value))
    && EntriesPermitted(m.cert.entries, req, policy)
    && Cmw.Placed(m.cert.entries) && Cmw.Extract(m.cert.entries[0].extensions) == Ok(cmw)
  }

  lemma CheckedIsProven(lib: Library, keys: Keys, part: RequestPart, req: Option<AuthenticatorRequest>,
                        policy: Option<SpontaneousPolicy>, chainOptions: Option<int>, m: Messages)
    requires PartOf(req) == Ok(part)
    requires CheckMessages(lib, keys, req, policy, part, chainOptions, m).Ok?
    requires CheckMessages(lib, keys, req, policy, part, chainOptions, m).value.AcceptedFull?
    ensures var a := CheckMessages(lib, keys, req, policy, part, chainOptions, m).value;
            && Proven(lib, keys, part, req, policy, chainOptions, m, a.chain, a.cmw)
            && a.context == m.cert.context && a.leaf == a.chain[0]
  {
    PartContext(req);
    hide PartOf, ParseChain, VerifyTranscript, FinishedMac, TranscriptHash, EntriesPermitted, Permits, Cmw.Placed;
  }

  /**
   * A non-empty verdict: the input is exactly three printed messages, the signature and the MAC cover those very
   * bytes, a given request offered the scheme and fixed the context, every entry's extensions were permitted,
   * and a payload sits on the first entry only.
   */
  lemma FullVerdictIsProven(used: Session.Contexts, lib: Library, st: ConnectionState, role: Role,
                            req: Option<AuthenticatorRequest>, policy: Option<SpontaneousPolicy>, verifier: Verifier,
                            bytes: seq<byte>) returns (m: Messages)
    requires Validate(used, lib, st, role, req, policy, verifier, bytes).0.Ok?
    requires !Validate(used, lib, st, role, req, policy, verifier, bytes).0.value.empty
    ensures m.Printed() && bytes == m.Bytes()
    ensures ExportKeys(st, role).Ok? && PartOf(req).Ok?
    ensures var v := Validate(used, lib, st, role, req, policy, verifier, bytes).0.value;
            && Proven(lib, ExportKeys(st, role).value, PartOf(req).value, req, policy, verifier.chainOptions, m,
                      v.chain, v.cmw)
            && v.context == m.cert.context
  {
    hide ExportKeys, PartOf, Handshake.Unmarshal, ParseMessages, CheckMessages;
    hide CheckFinishedOnly, VerifyPayload, ParsePayload, Proven;
    FinishedOnlyIsEmpty(lib, st, role, req, bytes);
    var (first, rest) := Handshake.Unmarshal(bytes).value;
    m := ParseMessages(first, rest).value;
    PrintParsed(bytes, m);
    CheckedIsProven(lib, ExportKeys(st, role).value, PartOf(req).value, req, policy, verifier.chainOptions, m);
  }

  lemma FinishedOnlyIsEmpty(lib: Library, st: ConnectionState, role: Role, req: Option<AuthenticatorRequest>,
                            bytes: seq<byte>)
    ensures ExportKeys(st, role).Ok? && PartOf(req).Ok? && Handshake.Unmarshal(bytes).Ok? ==>
              var r := CheckFinishedOnly(lib, ExportKeys(st, role).value, req.Some?, PartOf(req).value,
                                         Handshake.Unmarshal(bytes).value.0, Handshake.Unmarshal(bytes).value.1);
              r.Ok? ==> r.value.AcceptedEmpty?
  {
    hide ExportKeys, PartOf, Handshake.Unmarshal, FinishedMac, Certificate.Marshal, Finished.Unmarshal;
  }

  /** A payload in the verdict was bound to this connection and every statement in it accepted. */
  lemma AttestedVerdict(used: Session.Contexts, lib: Library, st: ConnectionState, role: Role,
                        req: Option<AuthenticatorRequest>, policy: Option<SpontaneousPolicy>, verifier: Verifier,
                        bytes: seq<byte>)
    requires Validate(used, lib, st, role, req, policy, verifier, bytes).0.Ok?
    requires Validate(used, lib, st, role, req, policy, verifier, bytes).0.value.cmw.Some?
    ensures var v := Validate(used, lib, st, role, req, policy, verifier, bytes).0.value;
            && v.chain != [] && v.attestation.Some?
            && Attached(lib, st, verifier, v.context, v.chain[0], v.cmw.value)
            && v.attestation.value.payload == ParsePayload(verifier.decode, v.cmw.value).value
            && v.attestation.value.bindingVerified
            && v.attestation.value.usedLabel == ATTESTATION_LABEL
            && Permits(req, policy, Cmw.CMW_ATTESTATION)
  {
    VerdictIsConcluded(used, lib, st, role, req, policy, verifier, bytes);
    var a := ValidateUnmarked(lib, st, role, req, policy, verifier.chainOptions, bytes).value;
    ConcludedIsAttached(lib, st, verifier, a);
    LeafIsFirst(lib, st, role, req, policy, verifier.chainOptions, bytes);
    var m := FullVerdictIsProven(used, lib, st, role, req, policy, verifier, bytes);
    hide Validate, ValidateUnmarked, Attached, ExportKeys, PartOf, ParseChain, VerifyTranscript, FinishedMac;
    hide TranscriptHash, Permits, ParsePayload, Cmw.Extract, EntriesPermitted, Cmw.Placed, VerifyPayload;
    CmwPermitted(m.cert.entries, req, policy);
  }

  lemma VerdictIsConcluded(used: Session.Contexts, lib: Library, st: ConnectionState, role: Role,
                           req: Option<AuthenticatorRequest>, policy: Option<SpontaneousPolicy>, verifier: Verifier,
                           bytes: seq<byte>)
    requires Validate(used, lib, st, role, req, policy, verifier, bytes).0.Ok?
    ensures ValidateUnmarked(lib, st, role, req, policy, verifier.chainOptions, bytes).Ok?
    ensures var a := ValidateUnmarked(lib, st, role, req, policy, verifier.chainOptions, bytes).value;
            && Validate(used, lib, st, role, req, policy, verifier, bytes).0 == Conclude(lib, st, verifier, a)
            && Session.Mark(used, a.context).Ok?
            && Conclude(lib, st, verifier, a).value.context == a.context
            && Conclude(lib, st, verifier, a).value.empty == a.AcceptedEmpty?
            && (a.AcceptedFull? ==>
                  Conclude(lib, st, verifier, a).value.chain == a.chain
                  && Conclude(lib, st, verifier, a).value.cmw == a.cmw)
            && (a.AcceptedEmpty? ==> Conclude(lib, st, verifier, a).value.cmw == None)
  {
    hide ValidateUnmarked, VerifyPayload, ParsePayload;
  }

  lemma ConcludedIsAttached(lib: Library, st: ConnectionState, verifier: Verifier, a: Accepted)
    requires Conclude(lib, st, verifier, a).Ok?
    ensures var v := Conclude(lib, st, verifier, a).value;
            v.cmw.Some? ==>
              && a.AcceptedFull? && v.attestation.Some?
              && Attached(lib, st, verifier, v.context, a.leaf, v.cmw.value)
              && v.attestation.value.payload == ParsePayload(verifier.decode, v.cmw.value).value
              && v.attestation.value.bindingVerified
              && v.attestation.value.usedLabel == ATTESTATION_LABEL
  {
    hide VerifyPayload, ParsePayload, Trustworthy;
    if a.AcceptedFull? && a.cmw.Some? {
      VerifiedIffTrustworthy(lib, st, ATTESTATION_LABEL, a.context, a.leaf,
                             ParsePayload(verifier.decode, a.cmw.value).value, PolicyOf(verifier));
    }
  }

  lemma LeafIsFirst(lib: Library, st: ConnectionState, role: Role, req: Option<AuthenticatorRequest>,
                    policy: Option<SpontaneousPolicy>, chainOptions: Option<int>, bytes: seq<byte>)
    requires ValidateUnmarked(lib, st, role, req, policy, chainOptions, bytes).Ok?
    requires ValidateUnmarked(lib, st, role, req, policy, chainOptions, bytes).value.AcceptedFull?
    ensures var a := ValidateUnmarked(lib, st, role, req, policy, chainOptions, bytes).value;
            a.chain != [] && a.leaf == a.chain[0]
  {
    hide ExportKeys, PartOf, Handshake.Unmarshal, ParseMessages, CheckFinishedOnly;
    hide CheckProofs, EntriesPermitted, Permits, Cmw.Placed, Cmw.Extract;
    FinishedOnlyIsEmpty(lib, st, role, req, bytes);
  }

  lemma CmwPermitted(entries: seq<CertificateEntry>, req: Option<AuthenticatorRequest>,
                     policy: Option<SpontaneousPolicy>)
    requires entries != [] && EntriesPermitted(entries, req, policy)
    requires Cmw.Extract(entries[0].extensions).Ok? && Cmw.Extract(entries[0].extensions).value.Some?
    ensures Permits(req, policy, Cmw.CMW_ATTESTATION)
  {
    var exts := entries[0].extensions;
    Cmw.ExtractFindsCarried(exts);
    hide Permits, Cmw.Extract;
    var k :| 0 <= k < |exts| && exts[k].typ == Cmw.CMW_ATTESTATION;
    assert AllPermitted(exts, req, policy);
    assert Permits(req, policy, exts[k].typ);
  }

  /** The converse: messages so proven, printed one after the other, pass every check before marking. */
  lemma ProvenIsAccepted(lib: Library, st: ConnectionState, role: Role, req: Option<AuthenticatorRequest>,
                         policy: Option<SpontaneousPolicy>, chainOptions: Option<int>, m: Messages, chain: seq<X509>,
                         cmw: Option<seq<byte>>)
    requires ExportKeys(st, role).Ok? && PartOf(req).Ok?
    requires m.Printed()
    requires Proven(lib, ExportKeys(st, role).value, PartOf(req).value, req, policy, chainOptions, m, chain, cmw)
    ensures ValidateUnmarked(lib, st, role, req, policy, chainOptions, m.Bytes())
            == Ok(AcceptedFull(m.cert.context, chain, chain[0], cmw))
  {
    var first := ParsePrinted(m);
    PartContext(req);
    TlsOnly(st, role);
    if cmw.Some? {
      CmwPermitted(m.cert.entries, req, policy);
    }
    hide ExportKeys, PartOf, Handshake.Unmarshal, ParseMessages, CheckFinishedOnly;
    hide VerifyTranscript, FinishedMac, TranscriptHash, EntriesPermitted, Permits, Cmw.Placed, Cmw.Extract, ParseChain;
  }

  lemma TlsOnly(st: ConnectionState, role: Role)
    requires ExportKeys(st, role).Ok?
    ensures st.version == TLS13
  {
  }

  /**
   * The schemes a spontaneous policy allows bind the creator only: a validator gives the same verdict under any
   * other list of them.
   */
  lemma ValidatorIgnoresAllowedSchemes(lib: Library, st: ConnectionState, role: Role, req: Option<AuthenticatorRequest>,
                                       policy: SpontaneousPolicy, schemes: seq<u16>, chainOptions: Option<int>,
                                       bytes: seq<byte>)
    ensures ValidateUnmarked(lib, st, role, req, Some(policy), chainOptions, bytes)
            == ValidateUnmarked(lib, st, role, req, Some(policy.(allowedSchemes := schemes)), chainOptions, bytes)
  {
    var other := policy.(allowedSchemes := schemes);
    hide ExportKeys, PartOf, Handshake.Unmarshal, ParseMessages, CheckFinishedOnly, CheckProofs, Cmw.Extract;
    hide ParseChain;
    forall exts: seq<Extension> ensures AllPermitted(exts, req, Some(policy)) == AllPermitted(exts, req, Some(other)) {
    }
  }
}
