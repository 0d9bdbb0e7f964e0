/** Single use: what a sequence of creates and validates on one session does to its contexts. */
module SessionTheorems {
  import opened Wrappers
  import opened BigEndian
  import opened Extensions
  import opened Request
  import opened Policy
  import opened Crypto
  import opened Attestation
  import opened Authenticator
  import Session

  datatype Call =
    | CreateCall(lib: Library, st: ConnectionState, role: Role, req: Option<AuthenticatorRequest>,
                 policy: Option<SpontaneousPolicy>, identity: Identity, leafExtensions: seq<Extension>,
                 random: Randomness)
    | ValidateCall(lib: Library, st: ConnectionState, role: Role, req: Option<AuthenticatorRequest>,
                   policy: Option<SpontaneousPolicy>, verifier: Verifier, bytes: seq<byte>)

  /** The context a call wants to mark, when it gets that far. */
  function Wants(c: Call): Option<seq<byte>> {
    match c
    case CreateCall(lib, st, role, req, policy, identity, leafExtensions, random) =>
      var r := CreateUnmarked(lib, st, role, req, policy, identity, leafExtensions, random);
      if r.Ok? then Some(r.value.1) else None
    case ValidateCall(lib, st, role, req, policy, verifier, bytes) =>
      var r := ValidateUnmarked(lib, st, role, req, policy, verifier.chainOptions, bytes);
      if r.Ok? then Some(r.value.context) else None
  }

  function Succeeds(used: Session.Contexts, c: Call): bool {
    match c
    case CreateCall(lib, st, role, req, policy, identity, leafExtensions, random) =>
      Create(used, lib, st, role, req, policy, identity, leafExtensions, random).0.Ok?
    case ValidateCall(lib, st, role, req, policy, verifier, bytes) =>
      Validate(used, lib, st, role, req, policy, verifier, bytes).0.Ok?
  }

  function After(used: Session.Contexts, c: Call): Session.Contexts {
    match c
    case CreateCall(lib, st, role, req, policy, identity, leafExtensions, random) =>
      Create(used, lib, st, role, req, policy, identity, leafExtensions, random).1
    case ValidateCall(lib, st, role, req, policy, verifier, bytes) =>
      Validate(used, lib, st, role, req, policy, verifier, bytes).1
  }

  /** The call fails after marking: only a validation whose attached payload is not accepted does. */
  function FailsLate(c: Call): bool {
    && c.ValidateCall?
    && var r := ValidateUnmarked(c.lib, c.st, c.role, c.req, c.policy, c.verifier.chainOptions, c.bytes);
       r.Ok? && Conclude(c.lib, c.st, c.verifier, r.value).Err?
  }

  /**
   * One call: it marks its context exactly when it wants one that the session, if there is one, has not used; it
   * succeeds exactly when it marks and does not fail late; and otherwise the session is as before. Without a session
   * nothing is remembered, and nothing refused for being used.
   */
  lemma OneCall(used: Session.Contexts, c: Call)
    ensures var marks := Wants(c).Some? && Session.Unused(used, Wants(c).value);
            && After(used, c) == (if marks then Session.Using(used, Wants(c).value) else used)
            && (Succeeds(used, c) <==> marks && !FailsLate(c))
  {
    hide CreateUnmarked, ValidateUnmarked, Conclude;
  }

  /** The contexts of a session, which stays one, after a call. */
  function Next(used: set<seq<byte>>, c: Call): set<seq<byte>> {
    match After(Some(used), c)
    case Some(next) => next
    case None => used
  }

  /** The session after all the calls. */
  function AfterAll(used: set<seq<byte>>, calls: seq<Call>): set<seq<byte>>
    decreases |calls|
  {
    if calls == [] then used else AfterAll(Next(used, calls[0]), calls[1..])
  }

  /** Whether call `i` of the sequence succeeds. */
  predicate SucceedsAt(used: set<seq<byte>>, calls: seq<Call>, i: nat)
    requires i < |calls|
  {
    Succeeds(Some(AfterAll(used, calls[..i])), calls[i])
  }

  lemma {:induction false} AfterOneMore(used: set<seq<byte>>, calls: seq<Call>, i: nat)
    requires i < |calls|
    ensures AfterAll(used, calls[..i + 1]) == Next(AfterAll(used, calls[..i]), calls[i])
    decreases i
  {
    hide Next;
    if i == 0 {
      assert calls[..1][1..] == [];
    } else {
      assert calls[..i + 1][1..] == calls[1..][..i] && calls[..i][1..] == calls[1..][..i - 1];
      AfterOneMore(Next(used, calls[0]), calls[1..], i - 1);
    }
  }

  /** The contexts in use only grow. */
  lemma {:induction false} UsedOnlyGrows(used: set<seq<byte>>, calls: seq<Call>, i: nat, j: nat)
    requires i <= j <= |calls|
    ensures used <= AfterAll(used, calls[..i]) <= AfterAll(used, calls[..j])
    decreases i + j
  {
    hide After, Succeeds, Wants, FailsLate;
    if i < j {
      UsedOnlyGrows(used, calls, i, j - 1);
      AfterOneMore(used, calls, j - 1);
      OneCall(Some(AfterAll(used, calls[..j - 1])), calls[j - 1]);
    } else if i > 0 {
      UsedOnlyGrows(used, calls, i - 1, i - 1);
      AfterOneMore(used, calls, i - 1);
      OneCall(Some(AfterAll(used, calls[..i - 1])), calls[i - 1]);
    }
  }

  /** Single use: no two successful calls have the same context, whatever was called in between. */
  lemma SuccessfulContextsDiffer(used: set<seq<byte>>, calls: seq<Call>, i: nat, j: nat)
    requires i < j < |calls| && SucceedsAt(used, calls, i) && SucceedsAt(used, calls, j)
    ensures Wants(calls[i]).Some? && Wants(calls[j]).Some? && Wants(calls[i]) != Wants(calls[j])
  {
    hide After, Succeeds, Wants, FailsLate;
    OneCall(Some(AfterAll(used, calls[..i])), calls[i]);
    OneCall(Some(AfterAll(used, calls[..j])), calls[j]);
    AfterOneMore(used, calls, i);
    UsedOnlyGrows(used, calls, i + 1, j);
  }

  /** A validation that fails over its attestation still consumes its context: no later call can succeed with it. */
  lemma LateFailureConsumes(used: set<seq<byte>>, calls: seq<Call>, i: nat, j: nat)
    requires i < j < |calls| && FailsLate(calls[i]) && Wants(calls[i]) == Wants(calls[j])
    ensures !SucceedsAt(used, calls, i) && !SucceedsAt(used, calls, j)
  {
    hide After, Succeeds, Wants;
    OneCall(Some(AfterAll(used, calls[..i])), calls[i]);
    OneCall(Some(AfterAll(used, calls[..j])), calls[j]);
    AfterOneMore(used, calls, i);
    UsedOnlyGrows(used, calls, i + 1, j);
    LateWants(calls[i]);
  }

  lemma LateWants(c: Call)
    requires FailsLate(c)
    ensures Wants(c).Some?
  {
  }
}
