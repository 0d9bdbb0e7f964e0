/** Which extensions and signature schemes a request or a spontaneous-authenticator policy permits. */
module Policy {
  import opened Wrappers
  import opened Handshake
  import opened Extensions
  import opened Request

  datatype SpontaneousPolicy = SpontaneousPolicy(allowedSchemes: seq<u16>, allowedExtensions: seq<u16>)

  predicate RequestPermits(req: Option<AuthenticatorRequest>, typ: u16) {
    req.Some? && exists k :: 0 <= k < |req.value.extensions| && req.value.extensions[k].typ == typ
  }

  predicate PolicyPermits(policy: Option<SpontaneousPolicy>, typ: u16) {
    policy.Some? && typ in policy.value.allowedExtensions
  }

  /** No policy, or a policy without schemes, permits every scheme. */
  predicate PolicyPermitsScheme(policy: Option<SpontaneousPolicy>, scheme: u16) {
    policy.None? || policy.value.allowedSchemes == [] || scheme in policy.value.allowedSchemes
  }

  /** A request alone decides when there is one; otherwise the policy does. */
  predicate Permits(req: Option<AuthenticatorRequest>, policy: Option<SpontaneousPolicy>, typ: u16) {
    if req.Some? then RequestPermits(req, typ) else PolicyPermits(policy, typ)
  }

  predicate AllPermitted(exts: seq<Extension>, req: Option<AuthenticatorRequest>, policy: Option<SpontaneousPolicy>) {
    forall k :: 0 <= k < |exts| ==> Permits(req, policy, exts[k].typ)
  }

  method RequestPermitsExtension(req: Option<AuthenticatorRequest>, typ: u16) returns (ok: bool)
    ensures ok == RequestPermits(req, typ)
    ensures ok <==> req.Some? && exists k :: 0 <= k < |req.value.extensions| && req.value.extensions[k].typ == typ
  {
    if req.None? {
      return false;
    }
    for i := 0 to |req.value.extensions|
      invariant forall k :: 0 <= k < i ==> req.value.extensions[k].typ != typ
    {
      if req.value.extensions[i].typ == typ {
        return true;
      }
    }
    ok := false;
  }

  method PolicyPermitsExtension(policy: Option<SpontaneousPolicy>, typ: u16) returns (ok: bool)
    ensures ok == PolicyPermits(policy, typ)
    ensures ok <==> policy.Some? && typ in policy.value.allowedExtensions
  {
    if policy.None? {
      return false;
    }
    for i := 0 to |policy.value.allowedExtensions|
      invariant typ !in policy.value.allowedExtensions[..i]
    {
      if policy.value.allowedExtensions[i] == typ {
        return true;
      }
    }
    ok := false;
  }

  /** The types of a list of extensions. */
  ghost function Types(exts: seq<Extension>): set<u16> {
    set e | e in exts :: e.typ
  }

  /** With a request every type has to be one it lists; without one, one of the policy's. */
  lemma AllPermittedIff(exts: seq<Extension>, req: Option<AuthenticatorRequest>, policy: Option<SpontaneousPolicy>)
    ensures AllPermitted(exts, req, policy) <==>
              match req
              case Some(r) => Types(exts) <= Types(r.extensions)
              case None => exts == [] || (policy.Some? && Types(exts) <= set t | t in policy.value.allowedExtensions)
  {
    forall t: u16 ensures Permits(req, policy, t) <==>
                            match req
                            case Some(r) => t in Types(r.extensions)
                            case None => policy.Some? && t in policy.value.allowedExtensions
    {
      PermitsIs(req, policy, t);
    }
    hide Permits;
    forall k | 0 <= k < |exts| ensures exts[k].typ in Types(exts) {
    }
    forall t | t in Types(exts) ensures exists k :: 0 <= k < |exts| && exts[k].typ == t {
      var e :| e in exts && e.typ == t;
      var k :| 0 <= k < |exts| && exts[k] == e;
    }
    hide Types;
    if exts != [] && AllPermitted(exts, req, policy) {
      assert Permits(req, policy, exts[0].typ);
    }
  }

  lemma PermitsIs(req: Option<AuthenticatorRequest>, policy: Option<SpontaneousPolicy>, typ: u16)
    ensures Permits(req, policy, typ) <==>
              match req
              case Some(r) => typ in Types(r.extensions)
              case None => policy.Some? && typ in policy.value.allowedExtensions
  {
    if req.Some? && typ in Types(req.value.extensions) {
      var e :| e in req.value.extensions && e.typ == typ;
      var k :| 0 <= k < |req.value.extensions| && req.value.extensions[k] == e;
    }
  }

  method ValidateEntryExtensions(exts: seq<Extension>, req: Option<AuthenticatorRequest>,
                                 policy: Option<SpontaneousPolicy>) returns (ok: bool)
    ensures ok == AllPermitted(exts, req, policy)
    ensures ok <==>
              match req
              case Some(r) => Types(exts) <= Types(r.extensions)
              case None => exts == [] || (policy.Some? && Types(exts) <= set t | t in policy.value.allowedExtensions)
  {
    AllPermittedIff(exts, req, policy);
    for i := 0 to |exts|
      invariant forall k :: 0 <= k < i ==> Permits(req, policy, exts[k].typ)
    {
      if req.Some? {
        var permitted := RequestPermitsExtension(req, exts[i].typ);
        if !permitted {
          return false;
        }
      } else {
        var permitted := PolicyPermitsExtension(policy, exts[i].typ);
        if !permitted {
          return false;
        }
      }
    }
    ok := true;
  }

  /** A scheme is permitted unless a policy lists schemes and it is not among them. */
  lemma SchemePermittedIff(policy: Option<SpontaneousPolicy>, scheme: u16)
    ensures PolicyPermitsScheme(policy, scheme) <==>
              !(policy.Some? && |policy.value.allowedSchemes| > 0 && scheme !in policy.value.allowedSchemes)
  {
  }
}
