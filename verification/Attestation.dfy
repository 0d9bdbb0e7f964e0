/** What both ends export from one TLS 1.3 connection, and the attestation payload bound to it. */
module Attestation {
  import opened Wrappers
  import opened BigEndian
  import opened Handshake
  import opened Crypto

  const TLS13: u16 := 0x0304
  const AES_128_GCM_SHA256: u16 := 0x1301
  const AES_256_GCM_SHA384: u16 := 0x1302
  const CHACHA20_POLY1305_SHA256: u16 := 0x1303

  type Role = byte
  const CLIENT: Role := 1
  const SERVER: Role := 2

  /** `exporter` is the connection's keying-material exporter: exporterLabel, context, length. */
  datatype ConnectionState = ConnectionState(
    version: u16,
    cipherSuite: u16,
    exporter: (string, seq<byte>, nat) -> Result<seq<byte>, Error>)

  /** Two ends of one connection agree on all they can export. */
  ghost predicate SameConnection(a: ConnectionState, b: ConnectionState) {
    && a.version == b.version && a.cipherSuite == b.cipherSuite
    && forall name, context, n :: a.exporter(name, context, n) == b.exporter(name, context, n)
  }

  function SuiteHash(suite: u16): Result<HashAlg, Error> {
    if suite == AES_128_GCM_SHA256 || suite == CHACHA20_POLY1305_SHA256 then Ok(Sha256)
    else if suite == AES_256_GCM_SHA384 then Ok(Sha384)
    else Err(UnknownCipherSuite)
  }

  function HashSize(h: HashAlg): nat {
    match h
    case Sha256 => 32
    case Sha384 => 48
  }

  datatype Keys = Keys(context: seq<byte>, h: HashAlg, finishedKey: seq<byte>)

  function ContextLabel(role: Role): string {
    if role == SERVER then "EXPORTER-server authenticator handshake context"
    else "EXPORTER-client authenticator handshake context"
  }

  function FinishedKeyLabel(role: Role): string {
    if role == SERVER then "EXPORTER-server authenticator finished key"
    else "EXPORTER-client authenticator finished key"
  }

  /** Handshake context and finished key of a role; every role but the server takes the client's labels. */
  function ExportKeys(st: ConnectionState, role: Role): Result<Keys, Error> {
    if st.version != TLS13 then Err(NotTls13)
    else
      var h :- SuiteHash(st.cipherSuite);
      var context :- st.exporter(ContextLabel(role), [], HashSize(h));
      var key :- st.exporter(FinishedKeyLabel(role), [], HashSize(h));
      Ok(Keys(context, h, key))
  }

  // -------------------------------------------------------------------------- the payload

  const ATTESTATION_LABEL := "Attestation"
  const EXPORTED_VALUE_LEN := 32

  datatype Binder = Binder(aikPubHash: seq<byte>, binding: seq<byte>)

  datatype Payload = Payload(version: int, mediaType: string, evidence: seq<byte>, results: seq<byte>, binder: Binder)

  /** A verifier answers None when it accepts; evidence is judged against the expected report data. */
  datatype VerificationPolicy = VerificationPolicy(
    evidence: Option<(seq<byte>, seq<byte>) -> Option<Error>>,
    results: Option<seq<byte> -> Option<Error>>)

  datatype VerifiedPayload = VerifiedPayload(
    payload: Payload, usedLabel: string, evidenceVerified: bool, resultsVerified: bool, bindingVerified: bool)

  function ValidatePayload(p: Payload): Option<Error> {
    if |p.evidence| == 0 && |p.results| == 0 then Some(MissingStatement)
    else if |p.binder.aikPubHash| == 0 || |p.binder.binding| == 0 then Some(MissingBinder)
    else None
  }

  /** `decode` is the JSON decoder; its errors are not told apart. */
  function ParsePayload(decode: seq<byte> -> Option<Payload>, raw: seq<byte>): Result<Payload, Error> {
    if |raw| == 0 then Err(MalformedPayload)
    else match decode(raw)
      case None => Err(MalformedPayload)
      case Some(p) =>
        match ValidatePayload(p)
        case Some(e) => Err(e)
        case None => Ok(p)
  }

  function ReportData(lib: Library, context: seq<byte>, leaf: X509): seq<byte> {
    lib.sha512(leaf.spki + context)
  }

  /** The binder both ends compute from the connection, the context and the leaf's public key. */
  function ComputeBinding(lib: Library, st: ConnectionState, exporterLabel: string, context: seq<byte>, leaf: X509)
    : Result<Binder, Error>
  {
    if st.version != TLS13 then Err(NotTls13)
    else
      var h :- SuiteHash(st.cipherSuite);
      var exported :- st.exporter(exporterLabel, context, EXPORTED_VALUE_LEN);
      Ok(Binder(lib.hash(h, leaf.spki), lib.hash(h, leaf.spki + exported)))
  }

  predicate EvidenceAccepted(lib: Library, context: seq<byte>, leaf: X509, p: Payload, policy: VerificationPolicy) {
    && policy.evidence.Some?
    && policy.evidence.value(p.evidence, ReportData(lib, context, leaf)) == None
  }

  predicate ResultsAccepted(p: Payload, policy: VerificationPolicy) {
    policy.results.Some? && policy.results.value(p.results) == None
  }

  /** All a verified payload stands for. */
  predicate Trustworthy(lib: Library, st: ConnectionState, exporterLabel: string, context: seq<byte>, leaf: X509,
                        p: Payload, policy: VerificationPolicy)
  {
    && (p.evidence != [] || p.results != [])
    && (p.evidence != [] ==> EvidenceAccepted(lib, context, leaf, p, policy))
    && (p.results != [] ==> ResultsAccepted(p, policy))
    && p.binder.aikPubHash != [] && p.binder.binding != []
    && ComputeBinding(lib, st, exporterLabel, context, leaf) == Ok(p.binder)
  }

  method EqualBytes(a: seq<byte>, b: seq<byte>) returns (equal: bool)
    ensures equal == (a == b)
  {
    if |a| != |b| {
      return false;
    }
    for i := 0 to |a|
      invariant a[..i] == b[..i]
    {
      if a[i] != b[i] {
        return false;
      }
    }
    assert a[..|a|] == a && b[..|b|] == b;
    equal := true;
  }

  function VerifyBinder(lib: Library, st: ConnectionState, exporterLabel: string, context: seq<byte>, leaf: X509,
                        binder: Binder)
    : Option<Error>
  {
    match ComputeBinding(lib, st, exporterLabel, context, leaf)
    case Err(e) => Some(e)
    case Ok(expected) =>
      if expected.aikPubHash != binder.aikPubHash then Some(AikPubHashMismatch)
      else if expected.binding != binder.binding then Some(BindingMismatch)
      else None
  }

  /** Statements first, each with its own verifier, then the binder; the flags record what was checked. */
  function VerifyPayload(lib: Library, st: ConnectionState, exporterLabel: string, context: seq<byte>, leaf: X509,
                         p: Payload, policy: VerificationPolicy): Result<VerifiedPayload, Error>
  {
    if ValidatePayload(p).Some? then Err(ValidatePayload(p).value)
    else if |p.evidence| > 0 && policy.evidence.None? then Err(EvidenceVerifierMissing)
    else
      var evidence := if |p.evidence| > 0 then policy.evidence.value(p.evidence, ReportData(lib, context, leaf))
                      else None;
      if evidence.Some? then Err(evidence.value)
      else if |p.results| > 0 && policy.results.None? then Err(ResultsVerifierMissing)
      else
        var results := if |p.results| > 0 then policy.results.value(p.results) else None;
        if results.Some? then Err(results.value)
        else
          match VerifyBinder(lib, st, exporterLabel, context, leaf, p.binder)
          case Some(e) => Err(e)
          case None => Ok(VerifiedPayload(p, exporterLabel, |p.evidence| > 0, |p.results| > 0, true))
  }

  /**
   * A payload is verified exactly when every statement it makes was accepted, it makes at least one, and its
   * binder is this connection's; the label in the verdict is the verifier's own.
   */
  lemma VerifiedIffTrustworthy(lib: Library, st: ConnectionState, exporterLabel: string, context: seq<byte>, leaf: X509,
                               p: Payload, policy: VerificationPolicy)
    ensures var r := VerifyPayload(lib, st, exporterLabel, context, leaf, p, policy);
            && (r.Ok? <==> Trustworthy(lib, st, exporterLabel, context, leaf, p, policy))
            && (r.Ok? ==> r.value == VerifiedPayload(p, exporterLabel, p.evidence != [], p.results != [], true))
  {
    hide ComputeBinding, ReportData;
    assert p.binder == Binder(p.binder.aikPubHash, p.binder.binding);
    if ComputeBinding(lib, st, exporterLabel, context, leaf).Ok? {
      var expected := ComputeBinding(lib, st, exporterLabel, context, leaf).value;
      assert expected == Binder(expected.aikPubHash, expected.binding);
    }
  }

  /** Sets each flag of the verdict as its check passes. */
  method CheckPayload(lib: Library, st: ConnectionState, exporterLabel: string, context: seq<byte>, leaf: X509,
                      p: Payload, policy: VerificationPolicy) returns (r: Result<VerifiedPayload, Error>)
    ensures r == VerifyPayload(lib, st, exporterLabel, context, leaf, p, policy)
  {
    hide ComputeBinding, ReportData;
    if ValidatePayload(p).Some? {
      return Err(ValidatePayload(p).value);
    }
    var verified := VerifiedPayload(p, exporterLabel, false, false, false);
    if |p.evidence| > 0 && policy.evidence.Some? {
      var verdict := policy.evidence.value(p.evidence, ReportData(lib, context, leaf));
      if verdict.Some? {
        return Err(verdict.value);
      }
      verified := verified.(evidenceVerified := true);
    } else if |p.evidence| > 0 {
      return Err(EvidenceVerifierMissing);
    }
    if |p.results| > 0 && policy.results.Some? {
      var verdict := policy.results.value(p.results);
      if verdict.Some? {
        return Err(verdict.value);
      }
      verified := verified.(resultsVerified := true);
    } else if |p.results| > 0 {
      return Err(ResultsVerifierMissing);
    }
    var expected := ComputeBinding(lib, st, exporterLabel, context, leaf);
    if expected.Err? {
      return Err(expected.error);
    }
    var sameHash := EqualBytes(expected.value.aikPubHash, p.binder.aikPubHash);
    if !sameHash {
      return Err(AikPubHashMismatch);
    }
    var sameBinding := EqualBytes(expected.value.binding, p.binder.binding);
    if !sameBinding {
      return Err(BindingMismatch);
    }
    r := Ok(verified.(bindingVerified := true));
  }

  /** Both ends of a connection derive the same keys. */
  lemma SameKeys(a: ConnectionState, b: ConnectionState, role: Role)
    requires SameConnection(a, b)
    ensures ExportKeys(a, role) == ExportKeys(b, role)
  {
    hide ContextLabel, FinishedKeyLabel, HashSize;
    if SuiteHash(a.cipherSuite).Ok? {
      var n := HashSize(SuiteHash(a.cipherSuite).value);
      assert a.exporter(ContextLabel(role), [], n) == b.exporter(ContextLabel(role), [], n);
      assert a.exporter(FinishedKeyLabel(role), [], n) == b.exporter(FinishedKeyLabel(role), [], n);
    }
  }

  /** Both ends of a connection compute the same binder. */
  lemma SameBinding(lib: Library, a: ConnectionState, b: ConnectionState, exporterLabel: string, context: seq<byte>,
                    leaf: X509)
    requires SameConnection(a, b)
    ensures ComputeBinding(lib, a, exporterLabel, context, leaf) == ComputeBinding(lib, b, exporterLabel, context, leaf)
  {
    var n := EXPORTED_VALUE_LEN;
    assert a.exporter(exporterLabel, context, n) == b.exporter(exporterLabel, context, n);
  }
}
