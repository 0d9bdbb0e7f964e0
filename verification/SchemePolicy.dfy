/** Whether the signature schemes of a spontaneous-authenticator policy bind a validator. */
module SchemePolicy {
  import opened Wrappers
  import opened BigEndian
  import opened Handshake
  import opened Extensions
  import opened Certificate
  import opened Policy
  import opened Crypto
  import opened Attestation
  import opened Authenticator
  import opened AuthenticatorTheorems
  import Cmw
  import CertVerify
  import Finished
  import Session

  /** Validation without a request, under `policy`, gives these messages a non-empty verdict. */
  ghost predicate Accepts(used: Session.Contexts, lib: Library, st: ConnectionState, role: Role,
                          policy: Option<SpontaneousPolicy>, verifier: Verifier, m: Messages)
  {
    && m.Printed()
    && var v := Validate(used, lib, st, role, None, policy, verifier, m.Bytes()).0;
       v.Ok? && !v.value.empty
  }

  /** No messages under a scheme the policy forbids get a non-empty verdict, whoever validates them. */
  ghost predicate Honoured(policy: Option<SpontaneousPolicy>) {
    forall used, lib, st, role, verifier, m :: Accepts(used, lib, st, role, policy, verifier, m)
                                               ==> PolicyPermitsScheme(policy, m.cv.algorithm)
  }

  predicate PermitsSupported(policy: Option<SpontaneousPolicy>) {
    && PolicyPermitsScheme(policy, ECDSA_P256_SHA256)
    && PolicyPermitsScheme(policy, RSA_PSS_SHA256)
    && PolicyPermitsScheme(policy, ED25519)
  }

  /** An accepted scheme is a supported one; that is all the validator asks of it. */
  lemma AcceptedIsSupported(used: Session.Contexts, lib: Library, st: ConnectionState, role: Role,
                            policy: Option<SpontaneousPolicy>, verifier: Verifier, m: Messages)
    requires Accepts(used, lib, st, role, policy, verifier, m)
    ensures m.cv.algorithm in {ECDSA_P256_SHA256, RSA_PSS_SHA256, ED25519}
  {
    hide Validate, EntriesPermitted, Cmw.Placed, Cmw.Extract, TranscriptHash, FinishedMac, ExportKeys, PartOf;
    hide ParseChain;
    var m' := FullVerdictIsProven(used, lib, st, role, None, policy, verifier, m.Bytes());
    PrintedOnce(m, m');
  }

  /** The bytes determine the messages. */
  lemma PrintedOnce(m: Messages, m': Messages)
    requires m.Printed() && m'.Printed() && m.Bytes() == m'.Bytes()
    ensures m == m'
  {
    hide Handshake.Unmarshal, ParseMessages, Certificate.Marshal, CertVerify.Marshal, Finished.Marshal;
    var first := ParsePrinted(m);
    var first' := ParsePrinted(m');
  }

  /** What is created under one list of schemes is accepted under any other: the key alone decides the scheme. */
  lemma CreatedUnderOtherSchemes(lib: Library, st: ConnectionState, st': ConnectionState, policy: SpontaneousPolicy,
                                 schemes: seq<u16>, identity: Identity, random: Randomness, verifier: Verifier,
                                 creatorUsed: Session.Contexts, validatorUsed: Session.Contexts) returns (m: Messages)
    requires SameConnection(st, st') && verifier.chainOptions == None
    requires identity.key.Some? && GoodIdentity(lib, identity)
    requires Create(creatorUsed, lib, st, SERVER, None, Some(policy.(allowedSchemes := schemes)), identity, [],
                    random).0.Ok?
    requires Session.Unused(validatorUsed, ContextFor(None, random))
    ensures Accepts(validatorUsed, lib, st', SERVER, Some(policy), verifier, m)
    ensures DefaultScheme(identity.key.value) == Ok(m.cv.algorithm)
  {
    var other := Some(policy.(allowedSchemes := schemes));
    CreateThenValidate(lib, st, st', SERVER, None, other, identity, [], random, verifier, creatorUsed, validatorUsed);
    m := CreatedMessages(lib, st, other, identity, random, creatorUsed);
    ValidatorIgnoresAllowedSchemes(lib, st', SERVER, None, policy, schemes, None, m.Bytes());
    hide ValidateUnmarked, Create, SameConnection, GoodIdentity, Conclude;
  }

  lemma CreatedMessages(lib: Library, st: ConnectionState, policy: Option<SpontaneousPolicy>, identity: Identity,
                        random: Randomness, used: Session.Contexts) returns (m: Messages)
    requires identity.key.Some? && Create(used, lib, st, SERVER, None, policy, identity, [], random).0.Ok?
    ensures m.Printed() && Create(used, lib, st, SERVER, None, policy, identity, [], random).0 == Ok(m.Bytes())
    ensures DefaultScheme(identity.key.value) == Ok(m.cv.algorithm)
  {
    hide ExportKeys, FullAuthenticator, DefaultScheme;
    var part := PartOf(None).value;
    var keys := ExportKeys(st, SERVER).value;
    var context := random.context.value;
    m := FullAuthenticator(lib, keys, part, policy, true, identity, [], context, random.signing).value;
    FullIsPrinted(lib, keys, part, policy, true, identity, [], context, random.signing, m);
    SchemeIsDefault(lib, keys, part, policy, identity, context, random.signing);
  }

  lemma SchemeIsDefault(lib: Library, keys: Keys, part: RequestPart, policy: Option<SpontaneousPolicy>,
                        identity: Identity, context: seq<byte>, random: int)
    requires identity.key.Some? && part.offered == []
    requires FullAuthenticator(lib, keys, part, policy, true, identity, [], context, random).Ok?
    ensures DefaultScheme(identity.key.value)
            == Ok(FullAuthenticator(lib, keys, part, policy, true, identity, [], context, random).value.cv.algorithm)
  {
    hide Certificate.Marshal, CertVerify.Marshal, Finished.Marshal, SignTranscript, EntriesOf;
    hide FinishedMac, TranscriptHash, DefaultScheme;
  }

  // ---------------------------------------------------------------- an input for each scheme

  function KindOf(scheme: u16): (kind: KeyKind)
    requires scheme in {ECDSA_P256_SHA256, RSA_PSS_SHA256, ED25519}
    ensures forall id :: DefaultScheme(PrivateKey(kind, id)) == Ok(scheme)
  {
    if scheme == ECDSA_P256_SHA256 then Ecdsa(true) else if scheme == RSA_PSS_SHA256 then Rsa else Ed25519
  }

  /** A library in which every certificate holds the key of the given kind, and every signature is good. */
  function PlainLibrary(kind: KeyKind): Library {
    Library((h, b) => [], (h, k, b) => [0], (k, alg, b, r) => Ok([]), (k, alg, b, s) => true,
            der => Ok(X509(PublicKey(kind, 0), [], der)), (chain, options) => true, b => [])
  }

  const PLAIN_CONNECTION := ConnectionState(TLS13, AES_128_GCM_SHA256, (name, context, n) => Ok([]))
  const PLAIN_VERIFIER := Verifier(None, None, raw => None)
  const PLAIN_RANDOM := Randomness(Ok(CertVerify.Spaces(32)), 0)

  function PlainIdentity(kind: KeyKind): Identity {
    Identity([[1]], Some(PrivateKey(kind, 0)))
  }

  lemma PlainCertificate(context: seq<byte>)
    requires |context| == 32
    ensures Certificate.Marshal(CertificateMessage(context, EntriesOf([[1]], []))).Ok?
  {
    var e := CertificateEntry([1], []);
    var entries := EntriesOf([[1]], []);
    assert entries == [e] && entries[1..] == [];
    assert Extensions.Encode([]) == [];
    assert EncodeEntry(e).Ok? && |EncodeEntry(e).value| == 6;
    assert EncodeList(entries[1..]) == Ok([]);
    assert EncodeList(entries).Ok? && |EncodeList(entries).value| == 6;
  }

  lemma PlainMessages(scheme: u16, keys: Keys, policy: Option<SpontaneousPolicy>)
    requires scheme in {ECDSA_P256_SHA256, RSA_PSS_SHA256, ED25519}
    requires policy.Some? && policy.value.allowedSchemes == []
    ensures FullAuthenticator(PlainLibrary(KindOf(scheme)), keys, RequestPart([], [], []), policy, true,
                              PlainIdentity(KindOf(scheme)), [], PLAIN_RANDOM.context.value, 0).Ok?
  {
    PlainCertificate(PLAIN_RANDOM.context.value);
    hide Certificate.Marshal, TranscriptHash, EntriesOf;
  }

  lemma PlainCreates(scheme: u16, policy: Option<SpontaneousPolicy>)
    requires scheme in {ECDSA_P256_SHA256, RSA_PSS_SHA256, ED25519}
    requires policy.Some? && policy.value.allowedSchemes == []
    ensures var kind := KindOf(scheme);
            Create(None, PlainLibrary(kind), PLAIN_CONNECTION, SERVER, None, policy, PlainIdentity(kind), [],
                   PLAIN_RANDOM).0.Ok?
  {
    var keys := ExportKeys(PLAIN_CONNECTION, SERVER).value;
    PlainMessages(scheme, keys, policy);
    hide FullAuthenticator;
  }

  /** Messages under any supported scheme that a validator accepts, whatever schemes its policy lists. */
  lemma SupportedIsAccepted(scheme: u16, policy: SpontaneousPolicy) returns (m: Messages)
    requires scheme in {ECDSA_P256_SHA256, RSA_PSS_SHA256, ED25519}
    ensures Accepts(None, PlainLibrary(KindOf(scheme)), PLAIN_CONNECTION, SERVER, Some(policy), PLAIN_VERIFIER, m)
    ensures m.cv.algorithm == scheme
  {
    var kind := KindOf(scheme);
    PlainCreates(scheme, Some(policy.(allowedSchemes := [])));
    assert GoodIdentity(PlainLibrary(kind), PlainIdentity(kind));
    hide Create, PlainLibrary, GoodIdentity;
    m := CreatedUnderOtherSchemes(PlainLibrary(kind), PLAIN_CONNECTION, PLAIN_CONNECTION, policy, [],
                                  PlainIdentity(kind),
                                  PLAIN_RANDOM, PLAIN_VERIFIER, None, None);
  }

  /**
   * A policy's schemes are honoured by validators exactly when they exclude no supported scheme: a list that
   * would matter is one that is not looked at.
   */
  lemma HonouredIff(policy: Option<SpontaneousPolicy>)
    ensures Honoured(policy) <==> PermitsSupported(policy)
    ensures Honoured(policy) <==>
              || policy.None? || policy.value.allowedSchemes == []
              || (0x0403 in policy.value.allowedSchemes && 0x0804 in policy.value.allowedSchemes
                  && 0x0807 in policy.value.allowedSchemes)
  {
    hide Accepts;
    if PermitsSupported(policy) {
      forall used, lib, st, role, verifier, m | Accepts(used, lib, st, role, policy, verifier, m)
        ensures PolicyPermitsScheme(policy, m.cv.algorithm)
      {
        AcceptedIsSupported(used, lib, st, role, policy, verifier, m);
      }
    } else {
      var scheme := if !PolicyPermitsScheme(policy, ECDSA_P256_SHA256) then ECDSA_P256_SHA256
                    else if !PolicyPermitsScheme(policy, RSA_PSS_SHA256) then RSA_PSS_SHA256
                    else ED25519;
      var m := SupportedIsAccepted(scheme, policy.value);
      assert Accepts(None, PlainLibrary(KindOf(scheme)), PLAIN_CONNECTION, SERVER, policy, PLAIN_VERIFIER, m);
    }
  }
}
