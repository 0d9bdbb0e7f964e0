/** The foreign operations exported authenticators call, and the signature schemes they select among. */
module Crypto {
  import opened Wrappers
  import opened BigEndian
  import opened Handshake
  import CertVerify

  datatype HashAlg = Sha256 | Sha384

  datatype KeyKind = Ecdsa(p256: bool) | Rsa | Ed25519 | OtherKind

  /** `id` tells the keys of one kind apart. */
  datatype PrivateKey = PrivateKey(kind: KeyKind, id: int)
  datatype PublicKey = PublicKey(kind: KeyKind, id: int)

  datatype X509 = X509(publicKey: PublicKey, spki: seq<byte>, der: seq<byte>)

  datatype SigAlg = EcdsaAlg | RsaPssAlg | Ed25519Alg

  /**
   * Library calls, as functions of everything they depend on. `random` is the randomness a signer draws,
   * `chainOk` the chain building of x509 under the verifier's options.
   */
  datatype Library = Library(
    hash: (HashAlg, seq<byte>) -> seq<byte>,
    hmac: (HashAlg, seq<byte>, seq<byte>) -> seq<byte>,
    sign: (PrivateKey, SigAlg, seq<byte>, int) -> Result<seq<byte>, Error>,
    verify: (PublicKey, SigAlg, seq<byte>, seq<byte>) -> bool,
    parseCertificate: seq<byte> -> Result<X509, Error>,
    chainOk: (seq<X509>, int) -> bool,
    sha512: seq<byte> -> seq<byte>)

  const ECDSA_P256_SHA256: u16 := 0x0403
  const RSA_PSS_SHA256: u16 := 0x0804
  const ED25519: u16 := 0x0807

  function SchemeAlg(scheme: u16): Result<SigAlg, Error> {
    if scheme == ECDSA_P256_SHA256 then Ok(EcdsaAlg)
    else if scheme == RSA_PSS_SHA256 then Ok(RsaPssAlg)
    else if scheme == ED25519 then Ok(Ed25519Alg)
    else Err(UnsupportedSignatureScheme)
  }

  /** The type switch of signer and verifier; for ECDSA it does not look at the curve. */
  predicate KindFits(kind: KeyKind, alg: SigAlg) {
    match alg
    case EcdsaAlg => kind.Ecdsa?
    case RsaPssAlg => kind.Rsa?
    case Ed25519Alg => kind.Ed25519?
  }

  /** What the selection asks of a private key: the same, and the P-256 curve. */
  predicate Compatible(key: PrivateKey, scheme: u16) {
    match SchemeAlg(scheme)
    case Err(_) => false
    case Ok(alg) => KindFits(key.kind, alg) && (key.kind.Ecdsa? ==> key.kind.p256)
  }

  function FirstCompatible(key: PrivateKey, offered: seq<u16>): Result<u16, Error> {
    if offered == [] then Err(UnsupportedSignatureScheme)
    else if Compatible(key, offered[0]) then Ok(offered[0])
    else FirstCompatible(key, offered[1..])
  }

  function DefaultScheme(key: PrivateKey): Result<u16, Error> {
    match key.kind
    case Ecdsa(p256) => if p256 then Ok(ECDSA_P256_SHA256) else Err(UnsupportedSignatureScheme)
    case Rsa => Ok(RSA_PSS_SHA256)
    case Ed25519 => Ok(ED25519)
    case OtherKind => Err(UnsupportedSignatureScheme)
  }

  function ChooseScheme(key: PrivateKey, offered: seq<u16>): Result<u16, Error> {
    if |offered| > 0 then FirstCompatible(key, offered) else DefaultScheme(key)
  }

  function SignTranscript(lib: Library, key: PrivateKey, scheme: u16, hash: seq<byte>, random: int)
    : Result<seq<byte>, Error>
  {
    var alg :- SchemeAlg(scheme);
    if !KindFits(key.kind, alg) then Err(UnsupportedSignatureScheme)
    else lib.sign(key, alg, CertVerify.SignedOctets(hash), random)
  }

  /** None when the signature is accepted. */
  function VerifyTranscript(lib: Library, key: PublicKey, scheme: u16, hash: seq<byte>, signature: seq<byte>)
    : Option<Error>
  {
    match SchemeAlg(scheme)
    case Err(e) => Some(e)
    case Ok(alg) =>
      if !KindFits(key.kind, alg) then Some(UnsupportedSignatureScheme)
      else if !lib.verify(key, alg, CertVerify.SignedOctets(hash), signature) then Some(SignatureMismatch)
      else None
  }

  /** Correctness of signing: the public key is of the signer's kind and accepts all it signs. */
  ghost predicate KeyPair(lib: Library, priv: PrivateKey, pub: PublicKey) {
    && pub.kind == priv.kind
    && forall alg, msg, random | lib.sign(priv, alg, msg, random).Ok? ::
         lib.verify(pub, alg, msg, lib.sign(priv, alg, msg, random).value)
  }

  lemma {:induction false} FirstCompatibleOffered(key: PrivateKey, offered: seq<u16>)
    ensures match FirstCompatible(key, offered)
            case Ok(s) => s in offered && Compatible(key, s)
            case Err(_) => forall s :: s in offered ==> !Compatible(key, s)
  {
    if offered != [] {
      FirstCompatibleOffered(key, offered[1..]);
      assert offered == [offered[0]] + offered[1..];
    }
  }

  /** The chosen scheme fits the key and, when any were offered, is one of them. */
  lemma ChosenSchemeFits(key: PrivateKey, offered: seq<u16>)
    requires ChooseScheme(key, offered).Ok?
    ensures Compatible(key, ChooseScheme(key, offered).value)
    ensures offered != [] ==> ChooseScheme(key, offered).value in offered
  {
    FirstCompatibleOffered(key, offered);
  }

  /** What one side signs under a chosen scheme the other side accepts. */
  lemma SignedIsAccepted(lib: Library, priv: PrivateKey, pub: PublicKey, scheme: u16, hash: seq<byte>, random: int)
    requires KeyPair(lib, priv, pub)
    requires SignTranscript(lib, priv, scheme, hash, random).Ok?
    ensures VerifyTranscript(lib, pub, scheme, hash, SignTranscript(lib, priv, scheme, hash, random).value) == None
  {
    hide CertVerify.SignedOctets;
    var alg := SchemeAlg(scheme).value;
    var msg := CertVerify.SignedOctets(hash);
    assert lib.sign(priv, alg, msg, random).Ok?;
  }

  method ChooseSignatureScheme(key: PrivateKey, offered: seq<u16>) returns (r: Result<u16, Error>)
    ensures r == ChooseScheme(key, offered)
  {
    if |offered| > 0 {
      assert offered[0..] == offered;
      for i := 0 to |offered|
        invariant FirstCompatible(key, offered) == FirstCompatible(key, offered[i..])
      {
        assert offered[i..][1..] == offered[i + 1..];
        if Compatible(key, offered[i]) {
          return Ok(offered[i]);
        }
      }
      return Err(UnsupportedSignatureScheme);
    }
    r := DefaultScheme(key);
  }
}
