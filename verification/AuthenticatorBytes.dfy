/**
 * What an authenticator proves, over raw bytes: which octets were signed, which bytes the MAC covers, and where the
 * keys for both come from. Nothing here is said through the functions that create and validate.
 */
module AuthenticatorBytes {
  import opened Wrappers
  import opened BigEndian
  import opened Handshake
  import opened Extensions
  import opened Certificate
  import opened Request
  import opened Policy
  import opened Crypto
  import opened Attestation
  import opened Authenticator
  import opened AuthenticatorTheorems
  import opened EmptyVerdicts
  import opened WireLayout
  import Cmw
  import CertVerify
  import Finished
  import Session

  // ------------------------------------------------------------------------------- keys

  /** The connection's own exported values: the handshake context and the finished key of the role. */
  predicate Exported(st: ConnectionState, role: Role, h: HashAlg, context: seq<byte>, key: seq<byte>) {
    && st.version == 0x0304
    && (|| (h == Sha256 && (st.cipherSuite == 0x1301 || st.cipherSuite == 0x1303))
        || (h == Sha384 && st.cipherSuite == 0x1302))
    && var n := if h == Sha256 then 32 else 48;
       if role == 2
       then st.exporter("EXPORTER-server authenticator handshake context", [], n) == Ok(context)
            && st.exporter("EXPORTER-server authenticator finished key", [], n) == Ok(key)
       else st.exporter("EXPORTER-client authenticator handshake context", [], n) == Ok(context)
            && st.exporter("EXPORTER-client authenticator finished key", [], n) == Ok(key)
  }

  lemma ExportedIff(st: ConnectionState, role: Role, keys: Keys)
    ensures ExportKeys(st, role) == Ok(keys) <==> Exported(st, role, keys.h, keys.context, keys.finishedKey)
  {
    assert keys == Keys(keys.context, keys.h, keys.finishedKey);
    LabelsAre(role);
    hide ContextLabel, FinishedKeyLabel;
  }

  lemma LabelsAre(role: Role)
    ensures ContextLabel(role) == if role == 2 then "EXPORTER-server authenticator handshake context"
                                  else "EXPORTER-client authenticator handshake context"
    ensures FinishedKeyLabel(role) == if role == 2 then "EXPORTER-server authenticator finished key"
                                      else "EXPORTER-client authenticator finished key"
  {
  }

  /** The request's own bytes, or none. */
  ghost predicate RequestBytes(req: Option<AuthenticatorRequest>, bytes: seq<byte>) {
    match req
    case None => bytes == []
    case Some(r) => IsRequest(bytes, r.typ, r.context, r.extensions)
  }

  /** Schemes the request offers in the first extension of type 13. */
  ghost predicate Offers(req: AuthenticatorRequest, schemes: seq<u16>) {
    exists k :: 0 <= k < |req.extensions| && req.extensions[k].typ == 13 && IsSchemes(req.extensions[k].data, schemes)
                && schemes != [] && forall j :: 0 <= j < k ==> req.extensions[j].typ != 13
  }

  lemma {:induction false} SchemesOffered(exts: seq<Extension>, typ: u16) returns (k: nat)
    requires SchemesOf(exts, typ).Some?
    ensures k < |exts| && exts[k].typ == typ && forall j :: 0 <= j < k ==> exts[j].typ != typ
    ensures ParseSchemes(exts[k].data) == SchemesOf(exts, typ)
  {
    if exts[0].typ == typ {
      k := 0;
    } else {
      k := SchemesOffered(exts[1..], typ);
      k := k + 1;
    }
  }

  lemma PartIs(req: Option<AuthenticatorRequest>)
    requires PartOf(req).Ok?
    ensures RequestBytes(req, PartOf(req).value.bytes)
    ensures req.None? ==> PartOf(req).value.offered == []
    ensures req.Some? ==> Offers(req.value, PartOf(req).value.offered) && PartOf(req).value.context == req.value.context
  {
    hide Request.Marshal, ParseSchemes, IsRequest, IsSchemes;
    if req.Some? {
      var part := PartOf(req).value;
      RequestLayout(req.value, part.bytes);
      var k := SchemesOffered(req.value.extensions, SIGNATURE_ALGORITHMS);
      var e := req.value.extensions[k];
      BuiltParsed(SIGNATURE_ALGORITHMS, e.data);
      SchemesLayout(SIGNATURE_ALGORITHMS, part.offered, e);
    }
  }

  // ------------------------------------------------------------------------- what is signed

  /** 64 spaces, the ASCII text, a zero, and the hash. */
  predicate IsSigned(octets: seq<byte>, hash: seq<byte>) {
    var text := "Exported Authenticator";
    && |octets| == 87 + |hash|
    && (forall i :: 0 <= i < 64 ==> octets[i] == 32)
    && (forall i :: 0 <= i < 22 ==> octets[64 + i] == text[i] as int)
    && octets[86] == 0 && octets[87..] == hash
  }

  lemma SignedLayout(octets: seq<byte>, hash: seq<byte>)
    ensures octets == CertVerify.SignedOctets(hash) <==> IsSigned(octets, hash)
  {
    var right := CertVerify.SignedOctets(hash);
    assert right[87..] == hash;
    ContextText();
    if IsSigned(octets, hash) {
      forall i | 0 <= i < |right| ensures octets[i] == right[i] {
        if i >= 87 {
          assert octets[87..][i - 87] == octets[i] && right[87..][i - 87] == right[i];
        } else if 64 <= i < 86 {
          assert octets[64 + (i - 64)] == CertVerify.CONTEXT_STRING[i - 64];
        }
      }
    }
    if octets == right {
      forall i | 0 <= i < 22 ensures octets[64 + i] == CertVerify.CONTEXT_STRING[i] {
      }
    }
  }

  lemma ContextText()
    ensures |CertVerify.CONTEXT_STRING| == 22
    ensures forall i :: 0 <= i < 22 ==> CertVerify.CONTEXT_STRING[i] == "Exported Authenticator"[i] as int
  {
  }

  /** The algorithm a scheme code stands for and the kind of key it needs. */
  predicate SchemeFor(scheme: u16, alg: SigAlg, kind: KeyKind) {
    || (scheme == 0x0403 && alg == EcdsaAlg && kind.Ecdsa?)
    || (scheme == 0x0804 && alg == RsaPssAlg && kind.Rsa?)
    || (scheme == 0x0807 && alg == Ed25519Alg && kind.Ed25519?)
  }

  lemma VerifiedIff(lib: Library, key: PublicKey, scheme: u16, hash: seq<byte>, signature: seq<byte>)
    ensures VerifyTranscript(lib, key, scheme, hash, signature) == None <==>
              exists alg, octets :: SchemeFor(scheme, alg, key.kind) && IsSigned(octets, hash)
                                    && lib.verify(key, alg, octets, signature)
  {
    hide CertVerify.SignedOctets, IsSigned;
    var octets := CertVerify.SignedOctets(hash);
    SignedLayout(octets, hash);
    forall o | IsSigned(o, hash) ensures o == octets {
      SignedLayout(o, hash);
    }
    if VerifyTranscript(lib, key, scheme, hash, signature) == None {
      assert SchemeFor(scheme, SchemeAlg(scheme).value, key.kind);
    }
  }

  lemma SignedIff(lib: Library, key: PrivateKey, scheme: u16, hash: seq<byte>, random: int, signature: seq<byte>)
    ensures SignTranscript(lib, key, scheme, hash, random) == Ok(signature) <==>
              exists alg, octets :: SchemeFor(scheme, alg, key.kind) && IsSigned(octets, hash)
                                    && lib.sign(key, alg, octets, random) == Ok(signature)
  {
    hide CertVerify.SignedOctets, IsSigned;
    var octets := CertVerify.SignedOctets(hash);
    SignedLayout(octets, hash);
    forall o | IsSigned(o, hash) ensures o == octets {
      SignedLayout(o, hash);
    }
    if SignTranscript(lib, key, scheme, hash, random) == Ok(signature) {
      assert SchemeFor(scheme, SchemeAlg(scheme).value, key.kind);
    }
  }

  // ------------------------------------------------------------------ full authenticators

  /** Three messages, one after the other, each with its own bytes. */
  ghost predicate IsFull(bytes: seq<byte>, m: Messages) {
    && bytes == m.certBytes + m.cvBytes + m.finBytes
    && IsCertificate(m.certBytes, m.cert.context, m.cert.entries)
    && IsCertVerify(m.cvBytes, m.cv.algorithm, m.cv.signature)
    && IsFinished(m.finBytes, m.fin.verifyData)
  }

  lemma FullLayout(m: Messages, bytes: seq<byte>)
    ensures m.Printed() && bytes == m.Bytes() <==> IsFull(bytes, m)
  {
    hide IsCertificate, IsCertVerify, IsFinished, Certificate.Marshal, CertVerify.Marshal, Finished.Marshal;
    CertificateLayout(m.cert, m.certBytes);
    CertVerifyLayout(m.cv, m.cvBytes);
    FinishedLayout(m.fin, m.finBytes);
  }

  /**
   * The library accepted the signature over 64 spaces, the text, a zero and the hash of the exported context, the
   * request and the Certificate message.
   */
  ghost predicate SignatureCovers(lib: Library, key: PublicKey, h: HashAlg, context: seq<byte>, request: seq<byte>,
                                  m: Messages)
  {
    exists alg, octets ::
      && SchemeFor(m.cv.algorithm, alg, key.kind)
      && IsSigned(octets, lib.hash(h, context + request + m.certBytes))
      && lib.verify(key, alg, octets, m.cv.signature)
  }

  /** The Finished message holds the MAC over the exported context, the request and both messages before it. */
  predicate MacCovers(lib: Library, h: HashAlg, context: seq<byte>, key: seq<byte>, request: seq<byte>, m: Messages) {
    m.fin.verifyData == lib.hmac(h, key, lib.hash(h, context + request + m.certBytes + m.cvBytes))
  }

  /** A request lists the type, or, without one, the policy does. */
  ghost predicate Permitted(req: Option<AuthenticatorRequest>, policy: Option<SpontaneousPolicy>, typ: u16) {
    if req.Some? then exists k :: 0 <= k < |req.value.extensions| && req.value.extensions[k].typ == typ
    else policy.Some? && typ in policy.value.allowedExtensions
  }

  /** What goes with the signature and the MAC: the certificates, their extensions, the scheme and the context. */
  ghost predicate ChainHolds(lib: Library, req: Option<AuthenticatorRequest>, policy: Option<SpontaneousPolicy>,
                             chainOptions: Option<int>, m: Messages, chain: seq<X509>)
  {
    var entries := m.cert.entries;
    && |chain| == |entries| > 0
    && (forall i :: 0 <= i < |entries| ==> lib.parseCertificate(entries[i].certDer) == Ok(chain[i]))
    && (chainOptions.Some? ==> lib.chainOk(chain, chainOptions.value))
    && (forall i, k :: 0 <= i < |entries| && 0 <= k < |entries[i].extensions| ==>
          Permitted(req, policy, entries[i].extensions[k].typ))
    && (forall i, k :: 0 < i < |entries| && 0 <= k < |entries[i].extensions| ==> entries[i].extensions[k].typ != 0xff00)
    && (req.Some? ==> m.cert.context == req.value.context
                      && exists schemes :: Offers(req.value, schemes) && m.cv.algorithm in schemes)
  }

  lemma {:induction false} ChainIs(lib: Library, entries: seq<CertificateEntry>, chain: seq<X509>)
    requires ParseChain(lib, entries) == Ok(chain)
    ensures |chain| == |entries|
    ensures forall i :: 0 <= i < |entries| ==> lib.parseCertificate(entries[i].certDer) == Ok(chain[i])
  {
    if entries != [] {
      ChainIs(lib, entries[1..], chain[1..]);
      forall i | 0 <= i < |entries| ensures lib.parseCertificate(entries[i].certDer) == Ok(chain[i]) {
        if i > 0 {
          assert entries[1..][i - 1] == entries[i] && chain[1..][i - 1] == chain[i];
        }
      }
    }
  }

  /** The payload in the first extension of type 0xff00, or none when there is no such extension. */
  ghost predicate CarriedPayload(exts: seq<Extension>, cmw: Option<seq<byte>>) {
    match cmw
    case None => forall k :: 0 <= k < |exts| ==> exts[k].typ != 0xff00
    case Some(p) =>
      exists k :: 0 <= k < |exts| && exts[k].typ == 0xff00 && (forall j :: 0 <= j < k ==> exts[j].typ != 0xff00)
                  && p != [] && |exts[k].data| == 2 + |p| && Read2(exts[k].data, 0) == |p| && exts[k].data[2..] == p
  }

  lemma {:induction false} ExtractedIs(exts: seq<Extension>, cmw: Option<seq<byte>>)
    requires Cmw.Extract(exts) == Ok(cmw)
    ensures CarriedPayload(exts, cmw)
  {
    hide Read2;
    if exts != [] && exts[0].typ != 0xff00 {
      ExtractedIs(exts[1..], cmw);
      if cmw.None? {
        forall k | 0 <= k < |exts| ensures exts[k].typ != 0xff00 {
          if k > 0 {
            assert exts[1..][k - 1] == exts[k];
          }
        }
      } else {
        var k :| 0 <= k < |exts[1..]| && exts[1..][k].typ == 0xff00
                 && (forall j :: 0 <= j < k ==> exts[1..][j].typ != 0xff00) && cmw.value != []
                 && |exts[1..][k].data| == 2 + |cmw.value| && Read2(exts[1..][k].data, 0) == |cmw.value|
                 && exts[1..][k].data[2..] == cmw.value;
        forall j | 0 <= j < k + 1 ensures exts[j].typ != 0xff00 {
          if j > 0 {
            assert exts[1..][j - 1] == exts[j];
          }
        }
        assert exts[k + 1] == exts[1..][k];
      }
    } else if exts != [] {
      Cmw.BuiltFromPayload(exts[0].data);
      PayloadLayout(cmw.value, exts[0]);
    }
  }

  lemma PermittedIs(req: Option<AuthenticatorRequest>, policy: Option<SpontaneousPolicy>, typ: u16)
    ensures Permits(req, policy, typ) <==> Permitted(req, policy, typ)
  {
  }

  lemma ProvenChain(lib: Library, keys: Keys, part: RequestPart, req: Option<AuthenticatorRequest>,
                    policy: Option<SpontaneousPolicy>, chainOptions: Option<int>, m: Messages, chain: seq<X509>,
                    cmw: Option<seq<byte>>)
    requires Proven(lib, keys, part, req, policy, chainOptions, m, chain, cmw) && PartOf(req) == Ok(part)
    ensures ChainHolds(lib, req, policy, chainOptions, m, chain) && CarriedPayload(m.cert.entries[0].extensions, cmw)
  {
    PartIs(req);
    ExtractedIs(m.cert.entries[0].extensions, cmw);
    hide CarriedPayload;
    ChainIs(lib, m.cert.entries, chain);
    hide VerifyTranscript, FinishedMac, TranscriptHash, ParseChain, Cmw.Extract, Offers, RequestBytes, PartOf;
    var entries := m.cert.entries;
    forall i, k | 0 <= i < |entries| && 0 <= k < |entries[i].extensions|
      ensures Permitted(req, policy, entries[i].extensions[k].typ)
    {
      assert AllPermitted(entries[i].extensions, req, policy);
      PermittedIs(req, policy, entries[i].extensions[k].typ);
    }
    forall i, k | 0 < i < |entries| && 0 <= k < |entries[i].extensions|
      ensures entries[i].extensions[k].typ != 0xff00
    {
      assert !Cmw.Carries(entries[i].extensions);
    }
  }

  /** Everything a non-empty verdict stands for, in the input's own bytes and the connection's own exported values. */
  lemma FullVerdictOverBytes(used: Session.Contexts, lib: Library, st: ConnectionState, role: Role,
                             req: Option<AuthenticatorRequest>, policy: Option<SpontaneousPolicy>, verifier: Verifier,
                             bytes: seq<byte>)
    returns (m: Messages, h: HashAlg, context: seq<byte>, key: seq<byte>, request: seq<byte>)
    requires Validate(used, lib, st, role, req, policy, verifier, bytes).0.Ok?
    requires !Validate(used, lib, st, role, req, policy, verifier, bytes).0.value.empty
    ensures Exported(st, role, h, context, key) && RequestBytes(req, request) && IsFull(bytes, m)
    ensures var v := Validate(used, lib, st, role, req, policy, verifier, bytes).0.value;
            && v.chain != [] && v.context == m.cert.context
            && SignatureCovers(lib, v.chain[0].publicKey, h, context, request, m)
            && MacCovers(lib, h, context, key, request, m)
            && ChainHolds(lib, req, policy, verifier.chainOptions, m, v.chain)
            && m.cert.entries != [] && CarriedPayload(m.cert.entries[0].extensions, v.cmw)
  {
    hide CarriedPayload, Validate, Exported, RequestBytes, IsFull, ChainHolds, ExportKeys, PartOf, Proven;
    hide SignatureCovers, MacCovers;
    m := FullVerdictIsProven(used, lib, st, role, req, policy, verifier, bytes);
    var v := Validate(used, lib, st, role, req, policy, verifier, bytes).0.value;
    var keys, part := ExportKeys(st, role).value, PartOf(req).value;
    ProvenChain(lib, keys, part, req, policy, verifier.chainOptions, m, v.chain, v.cmw);
    ProvenSignature(lib, keys, part, req, policy, verifier.chainOptions, m, v.chain, v.cmw);
    FullLayout(m, bytes);
    ExportedIff(st, role, keys);
    PartIs(req);
    h, context, key, request := keys.h, keys.context, keys.finishedKey, part.bytes;
  }

  lemma ProvenSignature(lib: Library, keys: Keys, part: RequestPart, req: Option<AuthenticatorRequest>,
                        policy: Option<SpontaneousPolicy>, chainOptions: Option<int>, m: Messages, chain: seq<X509>,
                        cmw: Option<seq<byte>>)
    requires Proven(lib, keys, part, req, policy, chainOptions, m, chain, cmw)
    ensures chain != [] && m.cert.entries != []
    ensures SignatureCovers(lib, chain[0].publicKey, keys.h, keys.context, part.bytes, m)
    ensures MacCovers(lib, keys.h, keys.context, keys.finishedKey, part.bytes, m)
  {
    hide VerifyTranscript, ParseChain, EntriesPermitted, Cmw.Placed, Cmw.Extract, IsSigned;
    MacIs(lib, keys, part.bytes, m);
    var signed := lib.hash(keys.h, keys.context + part.bytes + m.certBytes);
    assert keys.context + (part.bytes + m.certBytes) == keys.context + part.bytes + m.certBytes;
    VerifiedIff(lib, chain[0].publicKey, m.cv.algorithm, signed, m.cv.signature);
  }

  // ------------------------------------------------------------------------------ creating

  /** The library signed those octets, with the key of the identity and a scheme that fits it. */
  ghost predicate SignedOver(lib: Library, key: PrivateKey, h: HashAlg, context: seq<byte>, request: seq<byte>,
                             random: int, m: Messages)
  {
    exists alg, octets ::
      && SchemeFor(m.cv.algorithm, alg, key.kind)
      && IsSigned(octets, lib.hash(h, context + request + m.certBytes))
      && lib.sign(key, alg, octets, random) == Ok(m.cv.signature)
  }

  /** The entries are the identity's certificates in order; the first alone carries the extensions. */
  predicate CarriesIdentity(m: Messages, certificates: seq<seq<byte>>, leafExtensions: seq<Extension>) {
    && |m.cert.entries| == |certificates|
    && (forall i :: 0 <= i < |certificates| ==> m.cert.entries[i].certDer == certificates[i])
    && (certificates != [] ==> m.cert.entries[0].extensions == leafExtensions)
    && forall i :: 0 < i < |certificates| ==> m.cert.entries[i].extensions == []
  }

  /** What a creator puts into a full authenticator, in the same terms. */
  lemma CreatedOverBytes(used: Session.Contexts, lib: Library, st: ConnectionState, role: Role,
                         req: Option<AuthenticatorRequest>, policy: Option<SpontaneousPolicy>, identity: Identity,
                         leafExtensions: seq<Extension>, random: Randomness)
    returns (m: Messages, h: HashAlg, context: seq<byte>, key: seq<byte>, request: seq<byte>)
    requires Create(used, lib, st, role, req, policy, identity, leafExtensions, random).0.Ok? && identity.key.Some?
    ensures Exported(st, role, h, context, key) && RequestBytes(req, request)
    ensures IsFull(Create(used, lib, st, role, req, policy, identity, leafExtensions, random).0.value, m)
    ensures SignedOver(lib, identity.key.value, h, context, request, random.signing, m)
    ensures MacCovers(lib, h, context, key, request, m)
    ensures CarriesIdentity(m, identity.certificates, leafExtensions)
    ensures m.cert.context == ContextFor(req, random)
    ensures req.Some? ==> exists schemes :: Offers(req.value, schemes) && m.cv.algorithm in schemes
    ensures req.None? ==> role == 2 && PolicyPermitsScheme(policy, m.cv.algorithm)
  {
    hide Exported, RequestBytes, IsFull, SignedOver, MacCovers, CarriesIdentity, ExportKeys, PartOf, Offers, Create;
    hide PolicyPermitsScheme, FullAuthenticator;
    CreatedFrom(used, lib, st, role, req, policy, identity, leafExtensions, random);
    var keys, part := ExportKeys(st, role).value, PartOf(req).value;
    PartIs(req);
    ExportedIff(st, role, keys);
    var ctx := ContextFor(req, random);
    m := FullAuthenticator(lib, keys, part, policy, req.None?, identity, leafExtensions, ctx, random.signing).value;
    FullOverBytes(lib, keys, part, policy, req.None?, identity, leafExtensions, ctx, random.signing, m);
    h, context, key, request := keys.h, keys.context, keys.finishedKey, part.bytes;
    if req.Some? {
      OffersSomething(req.value, part.offered);
    }
  }

  lemma OffersSomething(req: AuthenticatorRequest, schemes: seq<u16>)
    requires Offers(req, schemes)
    ensures schemes != []
  {
  }

  lemma CreatedFrom(used: Session.Contexts, lib: Library, st: ConnectionState, role: Role,
                    req: Option<AuthenticatorRequest>, policy: Option<SpontaneousPolicy>, identity: Identity,
                    leafExtensions: seq<Extension>, random: Randomness)
    requires Create(used, lib, st, role, req, policy, identity, leafExtensions, random).0.Ok? && identity.key.Some?
    ensures ExportKeys(st, role).Ok? && PartOf(req).Ok? && (req.None? ==> role == 2)
    ensures var r := FullAuthenticator(lib, ExportKeys(st, role).value, PartOf(req).value, policy, req.None?, identity,
                                       leafExtensions, ContextFor(req, random), random.signing);
            r.Ok? && Create(used, lib, st, role, req, policy, identity, leafExtensions, random).0 == Ok(r.value.Bytes())
  {
    hide ExportKeys, PartOf, FullAuthenticator, AllPermitted;
    if PartOf(req).Ok? {
      PartContext(req);
    }
  }

  lemma FullOverBytes(lib: Library, keys: Keys, part: RequestPart, policy: Option<SpontaneousPolicy>, spontaneous: bool,
                      identity: Identity, leafExtensions: seq<Extension>, context: seq<byte>, random: int, m: Messages)
    requires identity.key.Some?
    requires FullAuthenticator(lib, keys, part, policy, spontaneous, identity, leafExtensions, context, random) == Ok(m)
    ensures IsFull(m.Bytes(), m) && m.cert.context == context
    ensures SignedOver(lib, identity.key.value, keys.h, keys.context, part.bytes, random, m)
    ensures MacCovers(lib, keys.h, keys.context, keys.finishedKey, part.bytes, m)
    ensures CarriesIdentity(m, identity.certificates, leafExtensions)
    ensures part.offered != [] ==> m.cv.algorithm in part.offered
    ensures spontaneous ==> PolicyPermitsScheme(policy, m.cv.algorithm)
  {
    hide FullAuthenticator, SignTranscript, PolicyPermitsScheme, IsFull, SignedOver, MacCovers, CarriesIdentity;
    hide FinishedMac, TranscriptHash, EntriesOf;
    FullIsPrinted(lib, keys, part, policy, spontaneous, identity, leafExtensions, context, random, m);
    SchemePermitted(lib, keys, part, policy, spontaneous, identity, leafExtensions, context, random);
    FullLayout(m, m.Bytes());
    EntriesCarry(m, context, identity.certificates, leafExtensions);
    MacIs(lib, keys, part.bytes, m);
    SignatureIs(lib, keys, part.bytes, identity.key.value, random, m);
  }

  lemma EntriesCarry(m: Messages, context: seq<byte>, certificates: seq<seq<byte>>, leafExtensions: seq<Extension>)
    requires m.cert == CertificateMessage(context, EntriesOf(certificates, leafExtensions))
    ensures CarriesIdentity(m, certificates, leafExtensions)
  {
  }

  lemma MacIs(lib: Library, keys: Keys, request: seq<byte>, m: Messages)
    requires FinishedMac(lib, keys, request + m.certBytes + m.cvBytes) == m.fin.verifyData
    ensures MacCovers(lib, keys.h, keys.context, keys.finishedKey, request, m)
  {
    assert keys.context + (request + m.certBytes + m.cvBytes) == keys.context + request + m.certBytes + m.cvBytes;
  }

  lemma SignatureIs(lib: Library, keys: Keys, request: seq<byte>, key: PrivateKey, random: int, m: Messages)
    requires SignTranscript(lib, key, m.cv.algorithm, TranscriptHash(lib, keys, request + m.certBytes), random)
             == Ok(m.cv.signature)
    ensures SignedOver(lib, key, keys.h, keys.context, request, random, m)
  {
    hide SignTranscript;
    assert keys.context + (request + m.certBytes) == keys.context + request + m.certBytes;
    SignedIff(lib, key, m.cv.algorithm, lib.hash(keys.h, keys.context + request + m.certBytes), random, m.cv.signature);
  }

  lemma SchemePermitted(lib: Library, keys: Keys, part: RequestPart, policy: Option<SpontaneousPolicy>,
                        spontaneous: bool, identity: Identity, leafExtensions: seq<Extension>, context: seq<byte>,
                        random: int)
    requires identity.key.Some?
    requires FullAuthenticator(lib, keys, part, policy, spontaneous, identity, leafExtensions, context, random).Ok?
    ensures spontaneous ==>
              var m := FullAuthenticator(lib, keys, part, policy, spontaneous, identity, leafExtensions, context,
                                         random);
              PolicyPermitsScheme(policy, m.value.cv.algorithm)
  {
    hide Certificate.Marshal, CertVerify.Marshal, Finished.Marshal, ChooseScheme, SignTranscript, EntriesOf;
    hide FinishedMac, TranscriptHash, PolicyPermitsScheme;
  }

  // ----------------------------------------------------------------------- empty authenticators

  /** A Certificate message with this context and no entries. */
  predicate IsEmptyCertificate(b: seq<byte>, context: seq<byte>) {
    var c := |context|;
    && |b| == 8 + c && b[0] == 11 && Read3(b, 1) == 4 + c
    && b[4] == c && b[5..5 + c] == context
    && b[5 + c] == b[6 + c] == b[7 + c] == 0
  }

  lemma EmptyCertificateLayout(context: seq<byte>, b: seq<byte>)
    ensures Certificate.Marshal(CertificateMessage(context, [])) == Ok(b) <==> IsEmptyCertificate(b, context)
  {
    hide Certificate.Marshal;
    CertificateLayout(CertificateMessage(context, []), b);
    var c := |context|;
    if |b| == 8 + c {
      assert b[8 + c..] == [];
    }
  }

  /** A Finished message whose MAC covers the exported context, the request and a Certificate message not sent. */
  ghost predicate IsEmptyAuthenticator(bytes: seq<byte>, lib: Library, h: HashAlg, exported: seq<byte>, key: seq<byte>,
                                       request: seq<byte>, context: seq<byte>)
  {
    exists cert :: IsEmptyCertificate(cert, context)
                   && IsFinished(bytes, lib.hmac(h, key, lib.hash(h, exported + request + cert)))
  }

  lemma EmptyLayout(lib: Library, keys: Keys, part: RequestPart, context: seq<byte>, bytes: seq<byte>)
    ensures EmptyAuthenticator(lib, keys, part, context) == Ok(bytes) <==>
              IsEmptyAuthenticator(bytes, lib, keys.h, keys.context, keys.finishedKey, part.bytes, context)
  {
    hide Certificate.Marshal, Finished.Marshal, IsEmptyCertificate, IsFinished;
    if EmptyAuthenticator(lib, keys, part, context).Ok? {
      EmptyCase(lib, keys, part, context, bytes, Certificate.Marshal(CertificateMessage(context, [])).value);
    }
    if IsEmptyAuthenticator(bytes, lib, keys.h, keys.context, keys.finishedKey, part.bytes, context) {
      var cert :| IsEmptyCertificate(cert, context)
                  && IsFinished(bytes, lib.hmac(keys.h, keys.finishedKey,
                                                lib.hash(keys.h, keys.context + part.bytes + cert)));
      EmptyCertificateLayout(context, cert);
      EmptyCase(lib, keys, part, context, bytes, cert);
    }
  }

  lemma EmptyCase(lib: Library, keys: Keys, part: RequestPart, context: seq<byte>, bytes: seq<byte>, cert: seq<byte>)
    requires Certificate.Marshal(CertificateMessage(context, [])) == Ok(cert)
    ensures IsEmptyCertificate(cert, context)
    ensures EmptyAuthenticator(lib, keys, part, context) == Ok(bytes) <==>
              IsFinished(bytes, lib.hmac(keys.h, keys.finishedKey, lib.hash(keys.h, keys.context + part.bytes + cert)))
  {
    hide Certificate.Marshal, Finished.Marshal, IsFinished, IsEmptyCertificate;
    EmptyCertificateLayout(context, cert);
    assert keys.context + (part.bytes + cert) == keys.context + part.bytes + cert;
    FinishedLayout(Finished.FinishedMessage(FinishedMac(lib, keys, part.bytes + cert)), bytes);
  }

  /** An input that starts with Finished gets a verdict exactly when it answers a request and its MAC is right. */
  lemma EmptyVerdictOverBytes(lib: Library, st: ConnectionState, role: Role, req: Option<AuthenticatorRequest>,
                              policy: Option<SpontaneousPolicy>, chainOptions: Option<int>, bytes: seq<byte>,
                              h: HashAlg, exported: seq<byte>, key: seq<byte>)
    requires Exported(st, role, h, exported, key) && PartOf(req).Ok? && bytes != [] && bytes[0] == 20
    ensures RequestBytes(req, PartOf(req).value.bytes)
    ensures ValidateUnmarked(lib, st, role, req, policy, chainOptions, bytes).Ok? <==>
              && req.Some?
              && IsEmptyAuthenticator(bytes, lib, h, exported, key, PartOf(req).value.bytes, req.value.context)
  {
    var keys, part := Keys(exported, h, key), PartOf(req).value;
    ExportedIff(st, role, keys);
    PartIs(req);
    hide ExportKeys, PartOf, RequestBytes, Exported, IsEmptyAuthenticator, EmptyAuthenticator;
    EmptyLayout(lib, keys, part, part.context, bytes);
    EmptyVerdictIff(lib, st, role, req, policy, chainOptions, bytes, part.context);
    if ValidateUnmarked(lib, st, role, req, policy, chainOptions, bytes).Ok? {
      FinishedVerdict(lib, st, role, req, policy, chainOptions, bytes, keys, part);
    }
    hide ValidateUnmarked;
    if ListsNothing(part, req.Some?, bytes, part.context) {
      ListsNothingStarts(part, req.Some?, bytes, part.context);
      FirstType(bytes);
      assert false;
    }
  }

  lemma FinishedVerdict(lib: Library, st: ConnectionState, role: Role, req: Option<AuthenticatorRequest>,
                        policy: Option<SpontaneousPolicy>, chainOptions: Option<int>, bytes: seq<byte>, keys: Keys,
                        part: RequestPart)
    requires ExportKeys(st, role) == Ok(keys) && PartOf(req) == Ok(part) && bytes != [] && bytes[0] == 20
    requires ValidateUnmarked(lib, st, role, req, policy, chainOptions, bytes).Ok?
    ensures ValidateUnmarked(lib, st, role, req, policy, chainOptions, bytes) == Ok(AcceptedEmpty(part.context))
  {
    hide ExportKeys, PartOf, Handshake.Unmarshal, ParseMessages, CheckMessages, FinishedMac, Certificate.Marshal;
    hide Finished.Unmarshal;
    TypeOfFirst(bytes);
  }

  lemma TypeOfFirst(bytes: seq<byte>)
    ensures Handshake.Unmarshal(bytes).Ok? ==> bytes != [] && Handshake.Unmarshal(bytes).value.0.typ == bytes[0]
  {
  }

  // ------------------------------------------------------------------------------- binding

  /** The payload's binder is made of the leaf's public key and the connection's export for this context. */
  predicate IsBoundTo(lib: Library, st: ConnectionState, context: seq<byte>, leaf: X509, binder: Binder) {
    && st.version == 0x0304 && st.cipherSuite in {0x1301, 0x1302, 0x1303}
    && var h := if st.cipherSuite == 0x1302 then Sha384 else Sha256;
       && st.exporter("Attestation", context, 32).Ok?
       && binder.aikPubHash == lib.hash(h, leaf.spki)
       && binder.binding == lib.hash(h, leaf.spki + st.exporter("Attestation", context, 32).value)
  }

  /** Every statement the payload makes was accepted, the evidence against the key and the context. */
  predicate StatementsAccepted(lib: Library, context: seq<byte>, leaf: X509, p: Payload, verifier: Verifier) {
    && (p.evidence != [] || p.results != [])
    && (p.evidence != [] ==>
          && verifier.attestation.Some? && verifier.attestation.value.evidence.Some?
          && verifier.attestation.value.evidence.value(p.evidence, lib.sha512(leaf.spki + context)) == None)
    && (p.results != [] ==>
          && verifier.attestation.Some? && verifier.attestation.value.results.Some?
          && verifier.attestation.value.results.value(p.results) == None)
  }

  lemma AttachedIff(lib: Library, st: ConnectionState, verifier: Verifier, context: seq<byte>, leaf: X509,
                    raw: seq<byte>)
    ensures Attached(lib, st, verifier, context, leaf, raw) <==>
              && raw != [] && verifier.decode(raw).Some?
              && var p := verifier.decode(raw).value;
                 && StatementsAccepted(lib, context, leaf, p, verifier)
                 && p.binder.aikPubHash != [] && p.binder.binding != []
                 && IsBoundTo(lib, st, context, leaf, p.binder)
  {
    if raw != [] && verifier.decode(raw).Some? {
      var p := verifier.decode(raw).value;
      BoundIff(lib, st, context, leaf, p.binder);
      hide ComputeBinding, IsBoundTo;
    }
  }

  lemma BoundIff(lib: Library, st: ConnectionState, context: seq<byte>, leaf: X509, binder: Binder)
    ensures ComputeBinding(lib, st, ATTESTATION_LABEL, context, leaf) == Ok(binder)
            <==> IsBoundTo(lib, st, context, leaf, binder)
  {
    assert binder == Binder(binder.aikPubHash, binder.binding);
  }

  /** A payload in the verdict: taken from the first entry's extension, decoded, accepted and bound, over raw bytes. */
  lemma AttestedOverBytes(used: Session.Contexts, lib: Library, st: ConnectionState, role: Role,
                          req: Option<AuthenticatorRequest>, policy: Option<SpontaneousPolicy>, verifier: Verifier,
                          bytes: seq<byte>)
    requires Validate(used, lib, st, role, req, policy, verifier, bytes).0.Ok?
    requires Validate(used, lib, st, role, req, policy, verifier, bytes).0.value.cmw.Some?
    ensures var v := Validate(used, lib, st, role, req, policy, verifier, bytes).0.value;
            && v.chain != [] && v.cmw.value != [] && verifier.decode(v.cmw.value).Some?
            && var p := verifier.decode(v.cmw.value).value;
               && StatementsAccepted(lib, v.context, v.chain[0], p, verifier)
               && IsBoundTo(lib, st, v.context, v.chain[0], p.binder)
               && Permitted(req, policy, 0xff00)
  {
    AttestedVerdict(used, lib, st, role, req, policy, verifier, bytes);
    hide Validate, Attached, StatementsAccepted, IsBoundTo, Permits, Permitted, ParsePayload;
    var v := Validate(used, lib, st, role, req, policy, verifier, bytes).0.value;
    AttachedIff(lib, st, verifier, v.context, v.chain[0], v.cmw.value);
    PermittedIs(req, policy, 0xff00);
  }

  // --------------------------------------------------------------- choosing a scheme

  /** A key signs under a scheme of its own kind; an elliptic-curve key only on the curve P-256. */
  predicate Fitting(key: PrivateKey, scheme: u16) {
    || (scheme == 0x0403 && key.kind == Ecdsa(true))
    || (scheme == 0x0804 && key.kind == Rsa)
    || (scheme == 0x0807 && key.kind == Ed25519)
  }

  lemma FittingIs(key: PrivateKey, scheme: u16)
    ensures Compatible(key, scheme) <==> Fitting(key, scheme)
  {
  }

  /** Among offered schemes the first that fits is chosen; with none offered, the one of the key's kind; or none. */
  lemma {:induction false} ChosenIsFirst(key: PrivateKey, offered: seq<u16>, k: nat)
    requires k <= |offered| && (forall j :: 0 <= j < k ==> !Fitting(key, offered[j]))
    requires k < |offered| ==> Fitting(key, offered[k])
    ensures FirstCompatible(key, offered) == if k < |offered| then Ok(offered[k]) else Err(UnsupportedSignatureScheme)
    decreases k
  {
    if offered != [] {
      FittingIs(key, offered[0]);
      hide Fitting, Compatible;
      if k > 0 {
        ChosenIsFirst(key, offered[1..], k - 1);
      }
    }
  }

  lemma DefaultIs(key: PrivateKey, scheme: u16)
    ensures DefaultScheme(key) == Ok(scheme) <==> Fitting(key, scheme)
    ensures ChooseScheme(key, []) == DefaultScheme(key)
    ensures forall offered :: offered != [] ==> ChooseScheme(key, offered) == FirstCompatible(key, offered)
  {
  }

  /** What has to hold for anything to be created. */
  lemma CreateDemands(used: Session.Contexts, lib: Library, st: ConnectionState, role: Role,
                      req: Option<AuthenticatorRequest>, policy: Option<SpontaneousPolicy>, identity: Identity,
                      leafExtensions: seq<Extension>, random: Randomness)
    requires Create(used, lib, st, role, req, policy, identity, leafExtensions, random).0.Ok?
    ensures st.version == 0x0304 && st.cipherSuite in {0x1301, 0x1302, 0x1303}
    ensures req.None? ==> role == 2 && identity.key.Some? && random.context.Ok?
    ensures (identity.certificates == []) <==> identity.key.None?
    ensures forall k :: 0 <= k < |leafExtensions| ==> Permitted(req, policy, leafExtensions[k].typ)
    ensures req.Some? ==> exists schemes :: Offers(req.value, schemes)
  {
    hide FullAuthenticator, EmptyAuthenticator, PartOf, Permits, Permitted, Offers, RequestBytes;
    PartIs(req);
    forall k | 0 <= k < |leafExtensions| ensures Permitted(req, policy, leafExtensions[k].typ) {
      PermittedIs(req, policy, leafExtensions[k].typ);
    }
  }

  /** The first checks of a creator and of a validator, with the error each returns. */
  lemma FirstRefusals(lib: Library, st: ConnectionState, role: Role, req: Option<AuthenticatorRequest>,
                      policy: Option<SpontaneousPolicy>, identity: Identity, leafExtensions: seq<Extension>,
                      random: Randomness, chainOptions: Option<int>, bytes: seq<byte>)
    ensures var r := CreateUnmarked(lib, st, role, req, policy, identity, leafExtensions, random);
            && (st.version != 0x0304 ==> r == Err(NotTls13))
            && (st.version == 0x0304 && req.None? && role != 2 ==> r == Err(InvalidRole))
            && (st.version == 0x0304 && (req.Some? || role == 2)
                && (exists k :: 0 <= k < |leafExtensions| && !Permitted(req, policy, leafExtensions[k].typ)) ==>
                  r == Err(BadRequest))
    ensures st.version != 0x0304 ==> ValidateUnmarked(lib, st, role, req, policy, chainOptions, bytes) == Err(NotTls13)
  {
    hide FullAuthenticator, EmptyAuthenticator, PartOf, Permits, Permitted, ExportKeys, ParseMessages;
    if k :| 0 <= k < |leafExtensions| && !Permitted(req, policy, leafExtensions[k].typ) {
      PermittedIs(req, policy, leafExtensions[k].typ);
    }
  }
}
