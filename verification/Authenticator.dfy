/** Creating and validating exported authenticators (sections 5 and 6 of RFC 9261). */
module Authenticator {
  import opened Wrappers
  import opened BigEndian
  import opened Handshake
  import opened Extensions
  import opened Certificate
  import opened Request
  import opened Policy
  import opened Crypto
  import opened Attestation
  import Cmw
  import CertVerify
  import Finished
  import Session

  datatype Identity = Identity(certificates: seq<seq<byte>>, key: Option<PrivateKey>)

  type Random32 = s: seq<byte> | |s| == 32 witness CertVerify.Spaces(32)

  /** What the creator draws: a fresh context when nobody sent one, and the signer's randomness. */
  datatype Randomness = Randomness(context: Result<Random32, Error>, signing: int)

  /** A request's own bytes, the schemes it offers and its context; all empty without a request. */
  datatype RequestPart = RequestPart(bytes: seq<byte>, offered: seq<u16>, context: seq<byte>)

  function PartOf(req: Option<AuthenticatorRequest>): Result<RequestPart, Error> {
    match req
    case None => Ok(RequestPart([], [], []))
    case Some(r) =>
      var bytes :- Request.Marshal(r);
      match SignatureSchemes(r)
      case None => Err(BadRequest)
      case Some(schemes) => Ok(RequestPart(bytes, schemes, r.context))
  }

  function TranscriptHash(lib: Library, keys: Keys, messages: seq<byte>): seq<byte> {
    lib.hash(keys.h, keys.context + messages)
  }

  function FinishedMac(lib: Library, keys: Keys, messages: seq<byte>): seq<byte> {
    lib.hmac(keys.h, keys.finishedKey, TranscriptHash(lib, keys, messages))
  }

  // ---------------------------------------------------------------------------- creating

  /** Only the leaf carries the caller's extensions. */
  function EntriesOf(certificates: seq<seq<byte>>, leafExtensions: seq<Extension>): (entries: seq<CertificateEntry>)
    ensures |entries| == |certificates|
  {
    seq(|certificates|, i requires 0 <= i < |certificates| =>
      CertificateEntry(certificates[i], if i == 0 then leafExtensions else []))
  }

  /** A Finished message alone, over an empty Certificate message that is not sent. */
  function EmptyAuthenticator(lib: Library, keys: Keys, part: RequestPart, context: seq<byte>)
    : Result<seq<byte>, Error>
  {
    var cert :- Certificate.Marshal(CertificateMessage(context, []));
    Finished.Marshal(Finished.FinishedMessage(FinishedMac(lib, keys, part.bytes + cert)))
  }

  /** The three messages of an authenticator and their bytes. */
  datatype Messages = Messages(
    cert: CertificateMessage, certBytes: seq<byte>,
    cv: CertVerify.CertificateVerifyMessage, cvBytes: seq<byte>,
    fin: Finished.FinishedMessage, finBytes: seq<byte>)
  {
    function Bytes(): seq<byte> {
      certBytes + cvBytes + finBytes
    }

    predicate Printed() {
      && Certificate.Marshal(cert) == Ok(certBytes)
      && CertVerify.Marshal(cv) == Ok(cvBytes)
      && Finished.Marshal(fin) == Ok(finBytes)
    }
  }

  function FullAuthenticator(lib: Library, keys: Keys, part: RequestPart, policy: Option<SpontaneousPolicy>,
                             spontaneous: bool, identity: Identity, leafExtensions: seq<Extension>,
                             context: seq<byte>, random: int): Result<Messages, Error>
    requires identity.key.Some?
  {
    var key := identity.key.value;
    var scheme :- ChooseScheme(key, part.offered);
    if spontaneous && !PolicyPermitsScheme(policy, scheme) then Err(UnsupportedSignatureScheme)
    else
      var cert := CertificateMessage(context, EntriesOf(identity.certificates, leafExtensions));
      var certBytes :- Certificate.Marshal(cert);
      var signature :- SignTranscript(lib, key, scheme, TranscriptHash(lib, keys, part.bytes + certBytes), random);
      var cv := CertVerify.CertificateVerifyMessage(scheme, signature);
      var cvBytes :- CertVerify.Marshal(cv);
      var fin := Finished.FinishedMessage(FinishedMac(lib, keys, part.bytes + certBytes + cvBytes));
      var finBytes :- Finished.Marshal(fin);
      Ok(Messages(cert, certBytes, cv, cvBytes, fin, finBytes))
  }

  /** Everything before the context is marked: the authenticator and its context. */
  function CreateUnmarked(lib: Library, st: ConnectionState, role: Role, req: Option<AuthenticatorRequest>,
                          policy: Option<SpontaneousPolicy>, identity: Identity, leafExtensions: seq<Extension>,
                          random: Randomness): Result<(seq<byte>, seq<byte>), Error>
  {
    if st.version != TLS13 then Err(NotTls13)
    else if req.None? && role != SERVER then Err(InvalidRole)
    else if !AllPermitted(leafExtensions, req, policy) then Err(BadRequest)
    else if (identity.certificates == []) != identity.key.None? then Err(BadRequest)
    else
      var part :- PartOf(req);
      var context :- if req.Some? then Ok(part.context) else random.context;
      var keys :- ExportKeys(st, role);
      if identity.key.None? then
        if req.None? then Err(BadRequest)
        else
          var fin :- EmptyAuthenticator(lib, keys, part, context);
          Ok((fin, context))
      else
        var m :- FullAuthenticator(lib, keys, part, policy, req.None?, identity, leafExtensions, context,
                                   random.signing);
        Ok((m.Bytes(), context))
  }

  /** The authenticator, if one is returned, and the contexts used up afterwards. */
  function Create(used: Session.Contexts, lib: Library, st: ConnectionState, role: Role,
                  req: Option<AuthenticatorRequest>, policy: Option<SpontaneousPolicy>, identity: Identity,
                  leafExtensions: seq<Extension>, random: Randomness): (Result<seq<byte>, Error>, Session.Contexts)
  {
    match CreateUnmarked(lib, st, role, req, policy, identity, leafExtensions, random)
    case Err(e) => (Err(e), used)
    case Ok((bytes, context)) =>
      match Session.Mark(used, context)
      case Err(e) => (Err(e), used)
      case Ok(used') => (Ok(bytes), used')
  }

  // -------------------------------------------------------------------------- validating

  /** Chain building is asked for with `chainOptions`, attestation verifiers come with `attestation`. */
  datatype Verifier = Verifier(
    chainOptions: Option<int>, attestation: Option<VerificationPolicy>, decode: seq<byte> -> Option<Payload>)

  datatype Accepted =
    | AcceptedEmpty(context: seq<byte>)
    | AcceptedFull(context: seq<byte>, chain: seq<X509>, leaf: X509, cmw: Option<seq<byte>>)

  datatype ValidationResult = ValidationResult(
    context: seq<byte>, chain: seq<X509>, cmw: Option<seq<byte>>, attestation: Option<VerifiedPayload>, empty: bool)

  /** An authenticator that starts with Finished must be an answer to a request, and be nothing else. */
  function CheckFinishedOnly(lib: Library, keys: Keys, requested: bool, part: RequestPart, first: HandshakeMessage,
                             rest: seq<byte>): Result<Accepted, Error>
  {
    if !requested || rest != [] then Err(UnsupportedHandshakeType)
    else
      var (fin, _) :- Finished.Unmarshal(Reprint(first));
      var cert :- Certificate.Marshal(CertificateMessage(part.context, []));
      if FinishedMac(lib, keys, part.bytes + cert) != fin.verifyData then Err(FinishedMismatch)
      else Ok(AcceptedEmpty(part.context))
  }

  /** The two messages that follow a Certificate message, with nothing after them. */
  function SplitRest(rest: seq<byte>): Result<(HandshakeMessage, HandshakeMessage), Error> {
    match Handshake.Unmarshal(rest)
    case Err(_) => Err(UnsupportedHandshakeType)
    case Ok((cvHm, rest1)) =>
      if cvHm.typ != CERTIFICATE_VERIFY then Err(UnsupportedHandshakeType)
      else
        match Handshake.Unmarshal(rest1)
        case Err(_) => Err(InvalidLength)
        case Ok((finHm, rest2)) =>
          if finHm.typ != FINISHED || rest2 != [] then Err(InvalidLength)
          else Ok((cvHm, finHm))
  }

  /** Each message is printed again and parsed from what was printed. */
  function ParseMessages(certHm: HandshakeMessage, rest: seq<byte>): Result<Messages, Error> {
    var (cvHm, finHm) :- SplitRest(rest);
    var (cert, _) :- Certificate.Unmarshal(Reprint(certHm));
    var (cv, _) :- CertVerify.Unmarshal(Reprint(cvHm));
    var (fin, _) :- Finished.Unmarshal(Reprint(finHm));
    Ok(Messages(cert, Reprint(certHm), cv, Reprint(cvHm), fin, Reprint(finHm)))
  }

  function ParseChain(lib: Library, entries: seq<CertificateEntry>): (chain: Result<seq<X509>, Error>)
    ensures chain.Ok? ==> |chain.value| == |entries|
  {
    if entries == [] then Ok([])
    else
      var c :- lib.parseCertificate(entries[0].certDer);
      var more :- ParseChain(lib, entries[1..]);
      Ok([c] + more)
  }

  /** Signature, MAC and chain, in that order; None when all hold. */
  function CheckProofs(lib: Library, keys: Keys, part: RequestPart, chainOptions: Option<int>, chain: seq<X509>,
                       leaf: X509, m: Messages): Option<Error>
  {
    var signature := VerifyTranscript(lib, leaf.publicKey, m.cv.algorithm,
                                      TranscriptHash(lib, keys, part.bytes + m.certBytes), m.cv.signature);
    if signature.Some? then signature
    else if FinishedMac(lib, keys, part.bytes + m.certBytes + m.cvBytes) != m.fin.verifyData then Some(FinishedMismatch)
    else if chainOptions.Some? && !lib.chainOk(chain, chainOptions.value) then Some(Foreign)
    else None
  }

  predicate EntriesPermitted(entries: seq<CertificateEntry>, req: Option<AuthenticatorRequest>,
                             policy: Option<SpontaneousPolicy>)
  {
    forall i :: 0 <= i < |entries| ==> AllPermitted(entries[i].extensions, req, policy)
  }

  function CheckMessages(lib: Library, keys: Keys, req: Option<AuthenticatorRequest>, policy: Option<SpontaneousPolicy>,
                         part: RequestPart, chainOptions: Option<int>, m: Messages): Result<Accepted, Error>
  {
    var entries := m.cert.entries;
    if req.Some? && m.cert.context != part.context then Err(ContextMismatch)
    else if entries == [] then Ok(AcceptedEmpty(m.cert.context))
    else if !Cmw.Placed(entries) || !EntriesPermitted(entries, req, policy) then Err(BadRequest)
    else
      var cmw :- Cmw.Extract(entries[0].extensions);
      if cmw.Some? && !Permits(req, policy, Cmw.CMW_ATTESTATION) then Err(BadRequest)
      else
        var chain :- ParseChain(lib, entries);
        if req.Some? && m.cv.algorithm !in part.offered then Err(UnsupportedSignatureScheme)
        else
          match CheckProofs(lib, keys, part, chainOptions, chain, chain[0], m)
          case Some(e) => Err(e)
          case None => Ok(AcceptedFull(m.cert.context, chain, chain[0], cmw))
  }

  /** Everything before the context is marked. */
  function ValidateUnmarked(lib: Library, st: ConnectionState, role: Role, req: Option<AuthenticatorRequest>,
                            policy: Option<SpontaneousPolicy>, chainOptions: Option<int>, bytes: seq<byte>)
    : Result<Accepted, Error>
  {
    if st.version != TLS13 then Err(NotTls13)
    else
      var keys :- ExportKeys(st, role);
      var part :- PartOf(req);
      var (first, rest) :- Handshake.Unmarshal(bytes);
      if first.typ == FINISHED then CheckFinishedOnly(lib, keys, req.Some?, part, first, rest)
      else if first.typ != CERTIFICATE then Err(UnsupportedHandshakeType)
      else
        var m :- ParseMessages(first, rest);
        CheckMessages(lib, keys, req, policy, part, chainOptions, m)
  }

  const NO_VERIFIERS := VerificationPolicy(None, None)

  /** The verdict on what was accepted: an attached payload is parsed and verified here. */
  function Conclude(lib: Library, st: ConnectionState, verifier: Verifier, a: Accepted)
    : Result<ValidationResult, Error>
  {
    match a
    case AcceptedEmpty(context) => Ok(ValidationResult(context, [], None, None, true))
    case AcceptedFull(context, chain, leaf, None) => Ok(ValidationResult(context, chain, None, None, false))
    case AcceptedFull(context, chain, leaf, Some(raw)) =>
      var payload :- ParsePayload(verifier.decode, raw);
      var policy := if verifier.attestation.Some? then verifier.attestation.value else NO_VERIFIERS;
      var verified :- VerifyPayload(lib, st, ATTESTATION_LABEL, context, leaf, payload, policy);
      Ok(ValidationResult(context, chain, Some(raw), Some(verified), false))
  }

  /** The verdict and the contexts used up afterwards; the context is marked before attestation is looked at. */
  function Validate(used: Session.Contexts, lib: Library, st: ConnectionState, role: Role,
                    req: Option<AuthenticatorRequest>, policy: Option<SpontaneousPolicy>, verifier: Verifier,
                    bytes: seq<byte>): (Result<ValidationResult, Error>, Session.Contexts)
  {
    match ValidateUnmarked(lib, st, role, req, policy, verifier.chainOptions, bytes)
    case Err(e) => (Err(e), used)
    case Ok(a) =>
      match Session.Mark(used, a.context)
      case Err(e) => (Err(e), used)
      case Ok(used') => (Conclude(lib, st, verifier, a), used')
  }
}
