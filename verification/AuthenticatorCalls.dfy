/** The routines behind create and validate: their loops, and the one place each marks the session. */
module AuthenticatorCalls {
  import opened Wrappers
  import opened BigEndian
  import opened Handshake
  import opened Extensions
  import opened Certificate
  import opened Request
  import opened Policy
  import opened Crypto
  import opened Attestation
  import opened Authenticator
  import Cmw
  import CertVerify
  import Finished
  import Session

  function Concat(chunks: seq<seq<byte>>): seq<byte> {
    if chunks == [] then [] else Concat(chunks[..|chunks| - 1]) + chunks[|chunks| - 1]
  }

  /** Feeds a hasher chunk by chunk, skipping the empty ones. */
  method HashConcat(lib: Library, h: HashAlg, chunks: seq<seq<byte>>) returns (digest: seq<byte>)
    ensures digest == lib.hash(h, Concat(chunks))
  {
    var written := [];
    for i := 0 to |chunks|
      invariant written == Concat(chunks[..i])
    {
      assert chunks[..i + 1][..i] == chunks[..i];
      if |chunks[i]| == 0 {
        assert written + chunks[i] == written;
        continue;
      }
      written := written + chunks[i];
    }
    assert chunks[..|chunks|] == chunks;
    digest := lib.hash(h, written);
  }

  lemma ConcatThree(a: seq<byte>, b: seq<byte>, c: seq<byte>)
    ensures Concat([a, b, c]) == a + (b + c)
  {
    assert [a, b, c][..2] == [a, b] && [a, b][..1] == [a] && [a][..0] == [];
    assert Concat([a]) == [] + a == a;
    assert Concat([a, b]) == a + b;
    assert (a + b) + c == a + (b + c);
  }

  /** The hash over context, request and Certificate message. */
  method HashTranscript(lib: Library, keys: Keys, reqBytes: seq<byte>, messages: seq<byte>) returns (th: seq<byte>)
    ensures th == TranscriptHash(lib, keys, reqBytes + messages)
    ensures th == lib.hash(keys.h, keys.context + reqBytes + messages)
  {
    th := HashConcat(lib, keys.h, [keys.context, reqBytes, messages]);
    ConcatThree(keys.context, reqBytes, messages);
    assert keys.context + (reqBytes + messages) == keys.context + reqBytes + messages;
  }

  method BuildEntries(certificates: seq<seq<byte>>, leafExtensions: seq<Extension>)
    returns (entries: seq<CertificateEntry>)
    ensures entries == EntriesOf(certificates, leafExtensions)
  {
    entries := [];
    for i := 0 to |certificates|
      invariant |entries| == i
      invariant forall k :: 0 <= k < i ==> entries[k] == EntriesOf(certificates, leafExtensions)[k]
    {
      var exts := [];
      if i == 0 && |leafExtensions| > 0 {
        exts := leafExtensions;
      }
      entries := entries + [CertificateEntry(certificates[i], exts)];
    }
  }

  method BuildFull(lib: Library, keys: Keys, part: RequestPart, policy: Option<SpontaneousPolicy>, spontaneous: bool,
                   identity: Identity, leafExtensions: seq<Extension>, context: seq<byte>, random: int)
    returns (r: Result<Messages, Error>)
    requires identity.key.Some?
    ensures r == FullAuthenticator(lib, keys, part, policy, spontaneous, identity, leafExtensions, context, random)
  {
    hide Certificate.Marshal, CertVerify.Marshal, Finished.Marshal, TranscriptHash, EntriesOf, SignTranscript;
    hide ChooseScheme;
    var scheme := ChooseSignatureScheme(identity.key.value, part.offered);
    if scheme.Err? {
      return Err(scheme.error);
    }
    if spontaneous && !PolicyPermitsScheme(policy, scheme.value) {
      return Err(UnsupportedSignatureScheme);
    }
    var entries := BuildEntries(identity.certificates, leafExtensions);
    var certBytes := MarshalCertificateMessage(CertificateMessage(context, entries));
    if certBytes.Err? {
      return Err(certBytes.error);
    }
    var th1 := HashTranscript(lib, keys, part.bytes, certBytes.value);
    var signature := SignTranscript(lib, identity.key.value, scheme.value, th1, random);
    if signature.Err? {
      return Err(signature.error);
    }
    var cv := CertVerify.CertificateVerifyMessage(scheme.value, signature.value);
    var cvBytes := CertVerify.MarshalCertificateVerify(cv);
    if cvBytes.Err? {
      return Err(cvBytes.error);
    }
    var th2 := HashTranscript(lib, keys, part.bytes, certBytes.value + cvBytes.value);
    assert part.bytes + (certBytes.value + cvBytes.value) == part.bytes + certBytes.value + cvBytes.value;
    var fin := Finished.FinishedMessage(lib.hmac(keys.h, keys.finishedKey, th2));
    var finBytes := Finished.Marshal(fin);
    if finBytes.Err? {
      return Err(finBytes.error);
    }
    r := Ok(Messages(CertificateMessage(context, entries), certBytes.value, cv, cvBytes.value, fin, finBytes.value));
  }

  /** All that is done before the session is asked. */
  method BuildUnmarked(lib: Library, st: ConnectionState, role: Role, req: Option<AuthenticatorRequest>,
                       policy: Option<SpontaneousPolicy>, identity: Identity, leafExtensions: seq<Extension>,
                       random: Randomness) returns (r: Result<(seq<byte>, seq<byte>), Error>)
    ensures r == CreateUnmarked(lib, st, role, req, policy, identity, leafExtensions, random)
  {
    hide ExportKeys, AllPermitted, FullAuthenticator, EmptyAuthenticator, PartOf;
    if st.version != TLS13 {
      return Err(NotTls13);
    }
    if req.None? && role != SERVER {
      return Err(InvalidRole);
    }
    var permitted := ValidateEntryExtensions(leafExtensions, req, policy);
    if !permitted {
      return Err(BadRequest);
    }
    var emptyAuthenticator := |identity.certificates| == 0 && identity.key.None?;
    if !emptyAuthenticator && (|identity.certificates| == 0 || identity.key.None?) {
      return Err(BadRequest);
    }
    var part := ReadRequest(req);
    if part.Err? {
      return Err(part.error);
    }
    var context := part.value.context;
    if req.None? {
      if random.context.Err? {
        return Err(random.context.error);
      }
      context := random.context.value;
    }
    var keys := ExportKeys(st, role);
    if keys.Err? {
      return Err(keys.error);
    }
    if emptyAuthenticator {
      if req.None? {
        return Err(BadRequest);
      }
      var fin := EmptyAuthenticator(lib, keys.value, part.value, context);
      if fin.Err? {
        return Err(fin.error);
      }
      return Ok((fin.value, context));
    }
    var m := BuildFull(lib, keys.value, part.value, policy, req.None?, identity, leafExtensions, context,
                       random.signing);
    if m.Err? {
      return Err(m.error);
    }
    r := Ok((m.value.Bytes(), context));
  }

  /** Prints a request and reads its schemes. */
  method ReadRequest(req: Option<AuthenticatorRequest>) returns (part: Result<RequestPart, Error>)
    ensures part == PartOf(req)
  {
    hide Request.Marshal;
    if req.None? {
      return Ok(RequestPart([], [], []));
    }
    var reqBytes := MarshalRequest(req.value);
    if reqBytes.Err? {
      return Err(reqBytes.error);
    }
    var schemes := ParseSchemesExtension(req.value.extensions, SIGNATURE_ALGORITHMS);
    if schemes.None? {
      return Err(BadRequest);
    }
    part := Ok(RequestPart(reqBytes.value, schemes.value, req.value.context));
  }

  method CreateAuthenticator(session: Session.Session?, lib: Library, st: ConnectionState, role: Role,
                             req: Option<AuthenticatorRequest>, policy: Option<SpontaneousPolicy>, identity: Identity,
                             leafExtensions: seq<Extension>, random: Randomness) returns (r: Result<seq<byte>, Error>)
    modifies session
    ensures (r, Session.UsedBy(session))
            == Create(old(Session.UsedBy(session)), lib, st, role, req, policy, identity, leafExtensions, random)
  {
    hide CreateUnmarked;
    var built := BuildUnmarked(lib, st, role, req, policy, identity, leafExtensions, random);
    if built.Err? {
      return Err(built.error);
    }
    var (bytes, context) := built.value;
    var reused := Session.MarkContextUsed(session, context);
    if reused.Some? {
      return Err(reused.value);
    }
    r := Ok(bytes);
  }

  // -------------------------------------------------------------------------- validating

  lemma {:induction false} ChainAppend(lib: Library, entries: seq<CertificateEntry>, e: CertificateEntry)
    ensures ParseChain(lib, entries + [e]) ==
            if ParseChain(lib, entries).Err? then ParseChain(lib, entries)
            else if lib.parseCertificate(e.certDer).Err? then Err(lib.parseCertificate(e.certDer).error)
            else Ok(ParseChain(lib, entries).value + [lib.parseCertificate(e.certDer).value])
  {
    if entries == [] {
      assert entries + [e] == [e] && [e][1..] == [];
      if lib.parseCertificate(e.certDer).Ok? {
        var c := lib.parseCertificate(e.certDer).value;
        var none: seq<X509> := [];
        assert [c] + none == none + [c];
      }
    } else {
      assert (entries + [e])[1..] == entries[1..] + [e];
      ChainAppend(lib, entries[1..], e);
      var c, more, last := lib.parseCertificate(entries[0].certDer), ParseChain(lib, entries[1..]),
                           lib.parseCertificate(e.certDer);
      if c.Ok? && more.Ok? && last.Ok? {
        assert [c.value] + (more.value + [last.value]) == ([c.value] + more.value) + [last.value];
      }
    }
  }

  lemma {:induction false} ChainPrefixFails(lib: Library, entries: seq<CertificateEntry>, i: nat)
    requires i <= |entries| && ParseChain(lib, entries[..i]).Err?
    ensures ParseChain(lib, entries) == ParseChain(lib, entries[..i])
    decreases |entries| - i
  {
    if i < |entries| {
      assert entries[..i + 1] == entries[..i] + [entries[i]];
      ChainAppend(lib, entries[..i], entries[i]);
      ChainPrefixFails(lib, entries, i + 1);
    } else {
      assert entries[..i] == entries;
    }
  }

  /** Parses every certificate, stopping at the first that does not parse. */
  method BuildChain(lib: Library, entries: seq<CertificateEntry>) returns (r: Result<seq<X509>, Error>)
    ensures r == ParseChain(lib, entries)
  {
    var chain := [];
    for i := 0 to |entries|
      invariant ParseChain(lib, entries[..i]) == Ok(chain)
    {
      assert entries[..i + 1] == entries[..i] + [entries[i]];
      ChainAppend(lib, entries[..i], entries[i]);
      var c := lib.parseCertificate(entries[i].certDer);
      if c.Err? {
        ChainPrefixFails(lib, entries, i + 1);
        return Err(c.error);
      }
      chain := chain + [c.value];
    }
    assert entries[..|entries|] == entries;
    r := Ok(chain);
  }

  method CheckEntries(entries: seq<CertificateEntry>, req: Option<AuthenticatorRequest>,
                      policy: Option<SpontaneousPolicy>)
    returns (ok: bool)
    ensures ok == EntriesPermitted(entries, req, policy)
  {
    for i := 0 to |entries|
      invariant forall k :: 0 <= k < i ==> AllPermitted(entries[k].extensions, req, policy)
    {
      var permitted := ValidateEntryExtensions(entries[i].extensions, req, policy);
      if !permitted {
        return false;
      }
    }
    ok := true;
  }

  method Offers(offered: seq<u16>, scheme: u16) returns (ok: bool)
    ensures ok == (scheme in offered)
  {
    ok := false;
    for i := 0 to |offered|
      invariant !ok && scheme !in offered[..i]
    {
      if offered[i] == scheme {
        ok := true;
        break;
      }
    }
  }

  method VerifyProofs(lib: Library, keys: Keys, part: RequestPart, chainOptions: Option<int>, chain: seq<X509>,
                      leaf: X509, m: Messages) returns (r: Option<Error>)
    ensures r == CheckProofs(lib, keys, part, chainOptions, chain, leaf, m)
  {
    hide TranscriptHash, VerifyTranscript;
    var th1 := HashTranscript(lib, keys, part.bytes, m.certBytes);
    var signature := VerifyTranscript(lib, leaf.publicKey, m.cv.algorithm, th1, m.cv.signature);
    if signature.Some? {
      return signature;
    }
    var th2 := HashTranscript(lib, keys, part.bytes, m.certBytes + m.cvBytes);
    assert part.bytes + (m.certBytes + m.cvBytes) == part.bytes + m.certBytes + m.cvBytes;
    if lib.hmac(keys.h, keys.finishedKey, th2) != m.fin.verifyData {
      return Some(FinishedMismatch);
    }
    if chainOptions.Some? && !lib.chainOk(chain, chainOptions.value) {
      return Some(Foreign);
    }
    r := None;
  }

  method JudgeMessages(lib: Library, keys: Keys, req: Option<AuthenticatorRequest>, policy: Option<SpontaneousPolicy>,
                       part: RequestPart, chainOptions: Option<int>, m: Messages) returns (r: Result<Accepted, Error>)
    ensures r == CheckMessages(lib, keys, req, policy, part, chainOptions, m)
  {
    hide Cmw.Extract, Cmw.Placed, EntriesPermitted, ParseChain, CheckProofs, RequestPermits, PolicyPermits;
    var entries := m.cert.entries;
    if req.Some? && m.cert.context != part.context {
      return Err(ContextMismatch);
    }
    if |entries| == 0 {
      return Ok(AcceptedEmpty(m.cert.context));
    }
    var placed := Cmw.ValidatePlacement(entries);
    if !placed {
      return Err(BadRequest);
    }
    var permitted := CheckEntries(entries, req, policy);
    if !permitted {
      return Err(BadRequest);
    }
    var cmw := Cmw.ExtractFromExtensions(entries[0].extensions);
    if cmw.Err? {
      return Err(cmw.error);
    }
    if cmw.value.Some? && req.Some? {
      var offered := RequestPermitsExtension(req, Cmw.CMW_ATTESTATION);
      if !offered {
        return Err(BadRequest);
      }
    }
    if cmw.value.Some? && req.None? {
      var allowed := PolicyPermitsExtension(policy, Cmw.CMW_ATTESTATION);
      if !allowed {
        return Err(BadRequest);
      }
    }
    var chain := BuildChain(lib, entries);
    if chain.Err? {
      return Err(chain.error);
    }
    var leaf := chain.value[0];
    if req.Some? {
      var ok := Offers(part.offered, m.cv.algorithm);
      if !ok {
        return Err(UnsupportedSignatureScheme);
      }
    }
    var wrong := VerifyProofs(lib, keys, part, chainOptions, chain.value, leaf, m);
    if wrong.Some? {
      return Err(wrong.value);
    }
    r := Ok(AcceptedFull(m.cert.context, chain.value, leaf, cmw.value));
  }

  /** All that is done before the session is asked. */
  method JudgeUnmarked(lib: Library, st: ConnectionState, role: Role, req: Option<AuthenticatorRequest>,
                       policy: Option<SpontaneousPolicy>, chainOptions: Option<int>, bytes: seq<byte>)
    returns (r: Result<Accepted, Error>)
    ensures r == ValidateUnmarked(lib, st, role, req, policy, chainOptions, bytes)
  {
    hide ExportKeys, PartOf, Handshake.Unmarshal, ParseMessages, CheckFinishedOnly, CheckMessages;
    if st.version != TLS13 {
      return Err(NotTls13);
    }
    var keys := ExportKeys(st, role);
    if keys.Err? {
      return Err(keys.error);
    }
    var part := ReadRequest(req);
    if part.Err? {
      return Err(part.error);
    }
    var firstRest := UnmarshalHandshakeMessage(bytes);
    if firstRest.Err? {
      return Err(firstRest.error);
    }
    var (first, rest) := firstRest.value;
    if first.typ == FINISHED {
      return CheckFinishedOnly(lib, keys.value, req.Some?, part.value, first, rest);
    }
    if first.typ != CERTIFICATE {
      return Err(UnsupportedHandshakeType);
    }
    var m := ParseMessages(first, rest);
    if m.Err? {
      return Err(m.error);
    }
    r := JudgeMessages(lib, keys.value, req, policy, part.value, chainOptions, m.value);
  }

  /** Marks the context first and looks at an attached payload afterwards. */
  method ValidateAuthenticator(session: Session.Session?, lib: Library, st: ConnectionState, role: Role,
                               req: Option<AuthenticatorRequest>, policy: Option<SpontaneousPolicy>, verifier: Verifier,
                               bytes: seq<byte>) returns (r: Result<ValidationResult, Error>)
    modifies session
    ensures (r, Session.UsedBy(session))
            == Validate(old(Session.UsedBy(session)), lib, st, role, req, policy, verifier, bytes)
  {
    hide ValidateUnmarked, VerifyPayload, ParsePayload;
    var a := JudgeUnmarked(lib, st, role, req, policy, verifier.chainOptions, bytes);
    if a.Err? {
      return Err(a.error);
    }
    var reused := Session.MarkContextUsed(session, a.value.context);
    if reused.Some? {
      return Err(reused.value);
    }
    if a.value.AcceptedEmpty? {
      return Ok(ValidationResult(a.value.context, [], None, None, true));
    }
    var res := ValidationResult(a.value.context, a.value.chain, None, None, false);
    if a.value.cmw.Some? {
      res := res.(cmw := a.value.cmw);
      var parsed := ParsePayload(verifier.decode, a.value.cmw.value);
      if parsed.Err? {
        return Err(parsed.error);
      }
      var verifierPolicy := NO_VERIFIERS;
      if verifier.attestation.Some? {
        verifierPolicy := verifier.attestation.value;
      }
      var verified := CheckPayload(lib, st, ATTESTATION_LABEL, a.value.context, a.value.leaf, parsed.value,
                                   verifierPolicy);
      if verified.Err? {
        return Err(verified.error);
      }
      res := res.(attestation := Some(verified.value));
    }
    r := Ok(res);
  }
}
