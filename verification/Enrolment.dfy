/** The master's enrolment loop: every accepting and rejecting way out of a pass closes the scope it opened. */
module Enrolment {
  import opened Wrappers
  import opened Deadline
  import opened Rendezvous

  const MAX_REPORT_LEN := 16384

  /**
   * What one connecting worker and the libraries do in a pass: the evidence length it announces, the verdicts of the
   * checks, and whether each message goes through, in the order they are exchanged.
   */
  datatype Peer = Peer(
    evidenceLen: nat, payloadOk: bool, snpOk: bool, signs: bool, sessionKeys: bool, confirms: bool,
    delivered: nat -> bool)

  /** One pass of the loop: the library's answers during the rendezvous, and the worker that turns up. */
  datatype Round = Round(answer: Call -> int, peer: Peer)

  // -------------------------------------------------------------------- what decides a pass

  /** The attestation verdict; a build that skips attestation overrules every check but the length. */
  predicate Attested(p: Peer, skip: bool) {
    skip || (p.payloadOk && p.evidenceLen > 0 && p.snpOk)
  }

  /** Everything that has to succeed for a worker to be enrolled. */
  predicate Admitted(p: Peer, skip: bool) {
    p.evidenceLen <= MAX_REPORT_LEN && Attested(p, skip) && p.signs && p.sessionKeys && p.confirms
  }

  /** How many messages a pass exchanges before it ends. */
  function Exchanges(p: Peer, skip: bool): nat {
    if p.evidenceLen > MAX_REPORT_LEN then 2
    else
      var evidence := if p.evidenceLen > 0 then 1 else 0;
      if !Attested(p, skip) || !p.signs then 3 + evidence
      else if !p.sessionKeys then 4 + evidence
      else if !p.confirms then 5 + evidence
      else 6 + evidence
  }

  predicate AllDelivered(p: Peer, n: nat) {
    forall k :: 0 <= k < n ==> p.delivered(k)
  }

  /** The rendezvous succeeds: the service name is usable and no call fails. */
  predicate Meets(answer: Call -> int, serviceName: Option<string>) {
    Service(serviceName).Some? && FirstError(AcceptMade(answer)) == SUCCESS
  }

  /** The process survives a pass that starts after `alarms` alarm calls. */
  predicate Survives(env: Environment, alarms: nat, r: Round, serviceName: Option<string>, skip: bool) {
    && Limits(env).Some? && env.host(alarms).LetsBegin() && env.host(alarms + 1).LetsEnd()
    && Meets(r.answer, serviceName) && AllDelivered(r.peer, Exchanges(r.peer, skip))
  }

  function Enrolments(rounds: seq<Round>, skip: bool): nat {
    if rounds == [] then 0
    else Enrolments(rounds[..|rounds| - 1], skip) + if Admitted(rounds[|rounds| - 1].peer, skip) then 1 else 0
  }

  /** Outside any scope: nothing open, nothing armed. */
  ghost predicate Outside(d: Timeouts)
    reads d
  {
    d.Valid() && !d.exited && d.waitDepth == 0 && d.timer.None? && !d.deadlineActive
  }

  /** A whole pass in scopes: begun and ended once, if the host lets us. */
  lemma PassScope(env: Environment, s: Scopes)
    requires !s.exited && s.depth == 0 && (s.limits.Some? ==> s.limits == Limits(env))
    ensures AroundScope(env, s, true, ENROLLMENT).exited <==>
              !(Limits(env).Some? && env.host(|s.alarms|).LetsBegin() && env.host(|s.alarms| + 1).LetsEnd())
    ensures !Apply(env, s, Begin(ENROLLMENT)).exited ==> Apply(env, s, Begin(ENROLLMENT)).depth == 1
    ensures !AroundScope(env, s, true, ENROLLMENT).exited ==>
              var t := AroundScope(env, s, true, ENROLLMENT);
              |t.alarms| == |s.alarms| + 2 && t.depth == 0 && t.timer == None && !t.active
  {
    PositiveLimits(env);
  }

  // ---------------------------------------------------------------------- the C routines

  /** Reports the error inside a shutdown scope and aborts the job. */
  method Die(d: Timeouts)
    requires d.Valid() && !d.exited && 0 < d.waitDepth as int < MAX_DEPTH
    modifies d
    ensures d.Valid() && d.exited
  {
    d.WaitBegin(SHUTDOWN);
    d.exited := true;
  }

  /** One send or receive in a scope of its own; a failing one aborts the job. */
  method Exchange(d: Timeouts, delivered: bool)
    requires d.Valid() && !d.exited && 0 < d.waitDepth as int < MAX_DEPTH - 1
    modifies d
    ensures d.Valid() && (d.exited <==> !delivered)
    ensures delivered ==> d.State() == old(d.State())
  {
    d.WaitBegin(IO);
    if !delivered {
      Die(d);
      return;
    }
    d.WaitEnd();
  }

  /** Lets go of the connection in a shutdown scope; the result is not looked at. */
  method DisconnectPeer(d: Timeouts, mpi: Runtime)
    requires d.Valid() && !d.exited && 0 < d.waitDepth as int < MAX_DEPTH
    modifies d, mpi
    ensures d.Valid() && !d.exited && d.State() == old(d.State())
    ensures !mpi.connected && mpi.Released() == old(mpi.Released())
  {
    d.WaitBegin(SHUTDOWN);
    var r := mpi.Do(Disconnect);
    d.WaitEnd();
  }

  /** The request, the header and the evidence; `n` counts the messages exchanged. */
  method ReceiveEvidence(d: Timeouts, p: Peer) returns (tooLarge: bool, n: nat)
    requires d.Valid() && !d.exited && 0 < d.waitDepth as int < MAX_DEPTH - 1
    modifies d
    ensures d.Valid() && tooLarge == (p.evidenceLen > MAX_REPORT_LEN)
    ensures n == if !tooLarge && p.evidenceLen > 0 then 3 else 2
    ensures d.exited <==> !AllDelivered(p, n)
    ensures !d.exited ==> d.State() == old(d.State())
  {
    tooLarge := p.evidenceLen > MAX_REPORT_LEN;
    n := if !tooLarge && p.evidenceLen > 0 then 3 else 2;
    Exchange(d, p.delivered(0));
    if d.exited {
      return;
    }
    Exchange(d, p.delivered(1));
    if d.exited {
      return;
    }
    if tooLarge {
      return;
    }
    if p.evidenceLen > 0 {
      Exchange(d, p.delivered(2));
    }
  }

  /** The attestation verdict, check by check. */
  method Attest(p: Peer, skip: bool) returns (attestOk: bool)
    ensures attestOk == Attested(p, skip)
    ensures attestOk <==> skip || (p.payloadOk && p.evidenceLen > 0 && p.snpOk)
  {
    attestOk := true;
    if !p.payloadOk {
      attestOk := false;
    }
    if attestOk && p.evidenceLen > 0 {
      if !p.snpOk {
        attestOk := false;
      }
    }
    if !skip {
      if p.evidenceLen == 0 {
        attestOk := false;
      }
    }
    if skip {
      attestOk := true;
    }
  }

  /** Messages up to and including the attestation verdict. */
  function VetExchanges(p: Peer): nat {
    if p.evidenceLen > MAX_REPORT_LEN then 2 else if p.evidenceLen > 0 then 4 else 3
  }

  /** Messages of the key exchange. */
  function KeyExchanges(p: Peer): nat {
    if !p.signs then 0 else if !p.sessionKeys then 1 else if !p.confirms then 2 else 3
  }

  predicate DeliveredFrom(p: Peer, from: nat, n: nat) {
    forall k :: from <= k < from + n ==> p.delivered(k)
  }

  /**
   * The first half of a pass, up to the attestation verdict. Both rejections disconnect the worker and close the
   * pass's scope before going on with the next pass; otherwise the scope is left as it is.
   */
  method Vet(d: Timeouts, mpi: Runtime, p: Peer, skip: bool) returns (rejected: bool)
    requires d.Valid() && !d.exited && d.waitDepth == 1
    modifies d, mpi
    ensures d.Valid() && mpi.Released() == old(mpi.Released())
    ensures !AllDelivered(p, VetExchanges(p)) ==> d.exited
    ensures AllDelivered(p, VetExchanges(p)) ==>
              && rejected == (p.evidenceLen > MAX_REPORT_LEN || !Attested(p, skip))
              && d.State() == (if rejected then Apply(d.env, old(d.State()), End) else old(d.State()))
              && mpi.connected == (!rejected && old(mpi.connected))
  {
    hide Apply, Attested;
    rejected := false;
    var tooLarge, n := ReceiveEvidence(d, p);
    if d.exited {
      return;
    }
    if tooLarge {
      DisconnectPeer(d, mpi);
      d.WaitEnd();
      rejected := true;
      return;
    }
    var attestOk := Attest(p, skip);
    Exchange(d, p.delivered(n));
    if d.exited {
      return;
    }
    if !attestOk {
      DisconnectPeer(d, mpi);
      d.WaitEnd();
      rejected := true;
      return;
    }
  }

  /** The second half, the key exchange, with its three rejections; `n` messages have gone before. */
  method AgreeKeys(d: Timeouts, mpi: Runtime, p: Peer, n: nat) returns (rejected: bool)
    requires d.Valid() && !d.exited && d.waitDepth == 1
    modifies d, mpi
    ensures d.Valid() && mpi.Released() == old(mpi.Released())
    ensures !DeliveredFrom(p, n, KeyExchanges(p)) ==> d.exited
    ensures DeliveredFrom(p, n, KeyExchanges(p)) ==>
              && rejected == !(p.signs && p.sessionKeys && p.confirms)
              && d.State() == (if rejected then Apply(d.env, old(d.State()), End) else old(d.State()))
              && mpi.connected == (!rejected && old(mpi.connected))
  {
    hide Apply;
    rejected := false;
    if !p.signs {
      DisconnectPeer(d, mpi);
      d.WaitEnd();
      rejected := true;
      return;
    }
    Exchange(d, p.delivered(n));
    if d.exited {
      return;
    }
    if !p.sessionKeys {
      DisconnectPeer(d, mpi);
      d.WaitEnd();
      rejected := true;
      return;
    }
    Exchange(d, p.delivered(n + 1));
    if d.exited {
      return;
    }
    if !p.confirms {
      DisconnectPeer(d, mpi);
      d.WaitEnd();
      rejected := true;
      return;
    }
    Exchange(d, p.delivered(n + 2));
  }

  lemma ExchangesSplit(p: Peer, skip: bool)
    ensures var vetted := p.evidenceLen <= MAX_REPORT_LEN && Attested(p, skip);
            AllDelivered(p, Exchanges(p, skip)) <==>
              && AllDelivered(p, VetExchanges(p))
              && (vetted ==> DeliveredFrom(p, VetExchanges(p), KeyExchanges(p)))
  {
  }

  /** A pass once the worker is connected: the scope it runs in is closed on each of its six ways out. */
  method Enrol(d: Timeouts, mpi: Runtime, p: Peer, skip: bool) returns (enrolled: bool)
    requires d.Valid() && !d.exited && d.waitDepth == 1 && mpi.connected
    modifies d, mpi
    ensures d.Valid() && mpi.Released() == old(mpi.Released())
    ensures !AllDelivered(p, Exchanges(p, skip)) ==> d.exited
    ensures AllDelivered(p, Exchanges(p, skip)) ==>
              && d.State() == Apply(d.env, old(d.State()), End)
              && enrolled == Admitted(p, skip) == mpi.connected
  {
    enrolled := false;
    ExchangesSplit(p, skip);
    hide Apply, AllDelivered, DeliveredFrom, Exchanges, VetExchanges, KeyExchanges, Attested;
    var rejected := Vet(d, mpi, p, skip);
    if d.exited || rejected {
      return;
    }
    rejected := AgreeKeys(d, mpi, p, VetExchanges(p));
    if d.exited || rejected {
      return;
    }
    enrolled := true;
    d.WaitEnd();
  }

  /** An inner scope leaves everything as it is. */
  lemma InnerScope(env: Environment, s: Scopes)
    requires !s.exited && s.depth == 1
    ensures AroundScope(env, s, true, ENROLLMENT) == s
  {
  }

  /** One pass: the scope is opened, the worker met, and enrolled or sent away. */
  method EnrolOne(d: Timeouts, mpi: Runtime, serviceName: Option<string>, p: Peer, skip: bool) returns (enrolled: bool)
    requires Outside(d) && mpi.Released() && mpi.made == []
    modifies d, mpi
    ensures d.Valid()
    ensures d.exited <==> !old(Survives(d.env, |d.alarms|, Round(mpi.answer, p), serviceName, skip))
    ensures !d.exited ==> d.State() == AroundScope(d.env, old(d.State()), true, ENROLLMENT)
    ensures !d.exited ==> (enrolled <==> Admitted(p, skip))
    ensures !d.exited ==>
              (enrolled <==>
                 && p.evidenceLen <= 16384 && (skip || (p.payloadOk && p.evidenceLen > 0 && p.snpOk))
                 && p.signs && p.sessionKeys && p.confirms)
    ensures !d.exited ==> mpi.Released() && (mpi.connected <==> enrolled)
  {
    enrolled := false;
    AdmittedIff(p, skip);
    PassScope(d.env, d.State());
    hide Apply, AllDelivered, Exchanges, Admitted, FirstError, AcceptMade, Limits;
    d.WaitBegin(ENROLLMENT);
    if d.exited {
      return;
    }
    InnerScope(d.env, d.State());
    var rc := AcceptWorker(d, mpi, true, serviceName);
    if rc != SUCCESS {
      Die(d);
      return;
    }
    enrolled := Enrol(d, mpi, p, skip);
  }

  /**
   * The loop. It goes on exactly while every pass survives; whatever the passes did, the depth is then where the loop
   * started, the timer is disarmed, and the workers are those that were admitted.
   */
  method EnrolAll(d: Timeouts, rounds: seq<Round>, serviceName: Option<string>, skip: bool) returns (workers: nat)
    requires Outside(d)
    modifies d
    ensures d.exited <==>
              !forall i :: 0 <= i < |rounds| ==> Survives(d.env, |old(d.alarms)| + 2 * i, rounds[i], serviceName, skip)
    ensures !d.exited ==> Outside(d) && |d.alarms| == |old(d.alarms)| + 2 * |rounds|
    ensures !d.exited ==> workers == Enrolments(rounds, skip)
  {
    hide Survives, Admitted;
    workers := 0;
    for i := 0 to |rounds|
      invariant Outside(d) && |d.alarms| == |old(d.alarms)| + 2 * i
      invariant forall k :: 0 <= k < i ==> Survives(d.env, |old(d.alarms)| + 2 * k, rounds[k], serviceName, skip)
      invariant workers == Enrolments(rounds[..i], skip)
    {
      assert rounds[..i + 1][..i] == rounds[..i];
      var mpi := new Runtime(rounds[i].answer);
      PassScope(d.env, d.State());
      assert Round(mpi.answer, rounds[i].peer) == rounds[i];
      var enrolled := EnrolOne(d, mpi, serviceName, rounds[i].peer, skip);
      if d.exited {
        return;
      }
      if enrolled {
        workers := workers + 1;
      }
    }
    assert rounds[..|rounds|] == rounds;
  }

  /** Every check has to succeed. */
  lemma AdmittedIff(p: Peer, skip: bool)
    ensures Admitted(p, skip) <==>
              && p.evidenceLen <= 16384 && (skip || (p.payloadOk && p.evidenceLen > 0 && p.snpOk))
              && p.signs && p.sessionKeys && p.confirms
  {
  }

  /** The passes in which that is so. */
  ghost function AdmittedIn(rounds: seq<Round>, skip: bool): set<nat> {
    set i: nat | i < |rounds| && Admitted(rounds[i].peer, skip)
  }

  lemma {:induction false} EnrolmentsAre(rounds: seq<Round>, skip: bool)
    ensures Enrolments(rounds, skip) == |AdmittedIn(rounds, skip)|
    decreases |rounds|
  {
    hide Admitted;
    if rounds == [] {
      assert AdmittedIn(rounds, skip) == {};
    } else {
      var last := |rounds| - 1;
      EnrolmentsAre(rounds[..last], skip);
      if Admitted(rounds[last].peer, skip) {
        assert AdmittedIn(rounds, skip) == AdmittedIn(rounds[..last], skip) + {last};
      } else {
        assert AdmittedIn(rounds, skip) == AdmittedIn(rounds[..last], skip);
      }
    }
  }

  /**
   * The messages of a pass in order: request, header, evidence when there is some, verdict, signed key, confirmation
   * and its answer. A rejection ends the pass before the next of them.
   */
  lemma MessagesOfPass(p: Peer, skip: bool)
    ensures var evidence := if p.evidenceLen > 0 then 1 else 0;
            && (Admitted(p, skip) ==> Exchanges(p, skip) == 6 + evidence)
            && (p.evidenceLen > 16384 ==> Exchanges(p, skip) == 2)
            && (p.evidenceLen <= 16384 && !Attested(p, skip) ==> Exchanges(p, skip) == 3 + evidence)
            && (p.evidenceLen <= 16384 && Attested(p, skip) && !p.signs ==> Exchanges(p, skip) == 3 + evidence)
            && (p.evidenceLen <= 16384 && Attested(p, skip) && p.signs && !p.sessionKeys ==>
                  Exchanges(p, skip) == 4 + evidence)
            && (p.evidenceLen <= 16384 && Attested(p, skip) && p.signs && p.sessionKeys && !p.confirms ==>
                  Exchanges(p, skip) == 5 + evidence)
  {
  }

  /** When a pass survives: settings, host, rendezvous and messages, each in its own terms. */
  lemma SurvivesIff(env: Environment, alarms: nat, r: Round, serviceName: Option<string>, skip: bool)
    ensures Survives(env, alarms, r, serviceName, skip) <==>
              && Setting(env.enrollment, 300).Some? && Setting(env.io, 600).Some? && Setting(env.shutdown, 60).Some?
              && (var host := env.host(alarms);
                  && host.blocks && !host.wasBlocked && host.inspects && !host.handler.Foreign? && host.timerFree
                  && host.installs && host.restores)
              && env.host(alarms + 1).blocks && env.host(alarms + 1).restores
              && Service(serviceName).Some?
              && (forall c :: c in ACCEPT_CALLS ==> r.answer(c) == 0)
              && forall k :: 0 <= k < Exchanges(r.peer, skip) ==> r.peer.delivered(k)
  {
    AcceptSucceedsIff(r.answer);
    hide FirstError, AcceptMade, Exchanges;
  }
}
