/** Accepting, connecting and enrolling workers: scopes closed on every path, cleanup always, the first error kept. */
module Rendezvous {
  import opened Wrappers
  import opened Deadline

  // Values of Open MPI, the library the programs are built against.
  const SUCCESS := 0
  const ERR_ARG := 13
  const ERR_PORT := 38
  const DEFAULT_SERVICE := "ppdpc-enroll"
  const MAX_PORT_NAME := 1024

  datatype Call =
    | GetHandler | SetHandler | OpenPort | PublishName | LookupName | Accept | Connect | SetInterHandler | Barrier
    | UnpublishName | ClosePort | RestoreHandler | FreeHandler | Disconnect

  /** A call that was made and what it returned. */
  type Made = (Call, int)

  /** One lookup: its result, what classifying a failure answers, and whether a found port is well formed. */
  datatype Lookup = Lookup(result: int, classResult: int, notYet: bool, portOk: bool)

  function KeepFirst(result: int, cleanup: int): int {
    if result == SUCCESS then cleanup else result
  }

  /** The first failure among the calls made, or success. */
  function FirstError(made: seq<Made>): int {
    if made == [] then SUCCESS else KeepFirst(FirstError(made[..|made| - 1]), made[|made| - 1].1)
  }

  lemma FirstErrorAppend(made: seq<Made>, m: Made)
    ensures FirstError(made + [m]) == KeepFirst(FirstError(made), m.1)
  {
    assert (made + [m])[..|made|] == made;
  }

  /** Success means every call succeeded; a failure is the earliest one. */
  lemma {:induction false} FirstErrorIsFirst(made: seq<Made>)
    ensures FirstError(made) == SUCCESS <==> forall k :: 0 <= k < |made| ==> made[k].1 == SUCCESS
    ensures FirstError(made) != SUCCESS ==>
              exists k :: 0 <= k < |made| && made[k].1 == FirstError(made)
                          && forall j :: 0 <= j < k ==> made[j].1 == SUCCESS
  {
    if made != [] {
      var front := made[..|made| - 1];
      FirstErrorIsFirst(front);
      assert forall k :: 0 <= k < |front| ==> front[k] == made[k];
    }
  }

  /** The message-passing library: what it answers, what it holds for us, and the calls made. */
  class Runtime {
    const answer: Call -> int
    var portOpen: bool
    var namePublished: bool
    var handlerHeld: bool
    var connected: bool
    var made: seq<Made>

    constructor (answer: Call -> int)
      ensures this.answer == answer && Released() && !connected && made == []
    {
      this.answer := answer;
      portOpen, namePublished, handlerHeld, connected, made := false, false, false, false, [];
    }

    predicate Released()
      reads this
    {
      !portOpen && !namePublished && !handlerHeld
    }

    /** Acquiring needs success; a release is one attempt, whatever it answers. */
    method Do(c: Call) returns (r: int)
      modifies this
      ensures r == answer(c) && made == old(made) + [(c, r)]
      ensures portOpen == if c == OpenPort then r == SUCCESS else c != ClosePort && old(portOpen)
      ensures namePublished == if c == PublishName then r == SUCCESS else c != UnpublishName && old(namePublished)
      ensures handlerHeld == if c == GetHandler then r == SUCCESS else c != FreeHandler && old(handlerHeld)
      ensures connected == if c == Accept || c == Connect then r == SUCCESS else c != Disconnect && old(connected)
      ensures FirstError(made) == KeepFirst(old(FirstError(made)), r)
    {
      r := answer(c);
      FirstErrorAppend(made, (c, r));
      made := made + [(c, r)];
      match c
      case OpenPort => portOpen := r == SUCCESS;
      case ClosePort => portOpen := false;
      case PublishName => namePublished := r == SUCCESS;
      case UnpublishName => namePublished := false;
      case GetHandler => handlerHeld := r == SUCCESS;
      case FreeHandler => handlerHeld := false;
      case Accept => connected := r == SUCCESS;
      case Connect => connected := r == SUCCESS;
      case Disconnect => connected := false;
      case _ =>
    }

    /** Records the outcome of the lookups, which are answered one after the other. */
    method NoteLookup(r: int)
      modifies this`made
      ensures made == old(made) + [(LookupName, r)] && FirstError(made) == KeepFirst(old(FirstError(made)), r)
    {
      FirstErrorAppend(made, (LookupName, r));
      made := made + [(LookupName, r)];
    }
  }

  function Service(name: Option<string>): Option<string> {
    var s := if name.Some? then name.value else DEFAULT_SERVICE;
    if s == "" || |s| >= MAX_PORT_NAME then None else Some(s)
  }

  // --------------------------------------------------------------------- the calls made

  function At(answer: Call -> int, c: Call): Made {
    (c, answer(c))
  }

  /** Accepting or connecting, and then the new connection's handler and barrier, until one fails. */
  function MeetMade(answer: Call -> int, c: Call): seq<Made> {
    if answer(c) != SUCCESS then [At(answer, c)]
    else if answer(SetInterHandler) != SUCCESS then [At(answer, c), At(answer, SetInterHandler)]
    else [At(answer, c), At(answer, SetInterHandler), At(answer, Barrier)]
  }

  function HandlerBack(answer: Call -> int): seq<Made> {
    [At(answer, RestoreHandler), At(answer, FreeHandler)]
  }

  /** Every call of the accepting side: up to the first failure, then the cleanup of what was acquired. */
  function AcceptMade(answer: Call -> int): seq<Made> {
    var get, set_ := At(answer, GetHandler), At(answer, SetHandler);
    var open, publish := At(answer, OpenPort), At(answer, PublishName);
    if get.1 != SUCCESS then [get]
    else if set_.1 != SUCCESS then [get, set_] + HandlerBack(answer)
    else if open.1 != SUCCESS then [get, set_, open] + HandlerBack(answer)
    else if publish.1 != SUCCESS then [get, set_, open, publish] + [At(answer, ClosePort)] + HandlerBack(answer)
    else
      [get, set_, open, publish] + MeetMade(answer, Accept)
      + [At(answer, UnpublishName), At(answer, ClosePort)] + HandlerBack(answer)
  }

  /** Every call of the connecting side once its lookups have an outcome, which counts as one call. */
  function ConnectMade(answer: Call -> int, lookups: seq<Lookup>): seq<Made> {
    var found := if Resolved(lookups).Some? then Resolved(lookups).value else SUCCESS;
    var get, set_, name := At(answer, GetHandler), At(answer, SetHandler), (LookupName, found);
    if get.1 != SUCCESS then [get]
    else if set_.1 != SUCCESS then [get, set_] + HandlerBack(answer)
    else if found != SUCCESS then [get, set_, name] + HandlerBack(answer)
    else [get, set_, name] + MeetMade(answer, Connect) + HandlerBack(answer)
  }

  // --------------------------------------------------------------------------- accepting

  method RestoreSelfHandler(mpi: Runtime, saved: bool, before: int) returns (result: int)
    requires before == FirstError(mpi.made) && saved == mpi.handlerHeld
    modifies mpi
    ensures result == FirstError(mpi.made) && !mpi.handlerHeld
    ensures mpi.portOpen == old(mpi.portOpen) && mpi.namePublished == old(mpi.namePublished)
    ensures mpi.connected == old(mpi.connected)
    ensures mpi.made == old(mpi.made) + if saved then HandlerBack(mpi.answer) else []
    ensures result == SUCCESS ==> before == SUCCESS
  {
    result := before;
    if saved {
      var r := mpi.Do(RestoreHandler);
      result := KeepFirst(result, r);
      r := mpi.Do(FreeHandler);
      result := KeepFirst(result, r);
    }
  }

  /** Accepting or connecting, then the error handler and the barrier of the new connection. */
  method Meet(mpi: Runtime, c: Call) returns (result: int)
    requires FirstError(mpi.made) == SUCCESS && (c == Accept || c == Connect)
    modifies mpi
    ensures result == FirstError(mpi.made)
    ensures mpi.portOpen == old(mpi.portOpen) && mpi.namePublished == old(mpi.namePublished)
    ensures mpi.handlerHeld == old(mpi.handlerHeld)
    ensures mpi.made == old(mpi.made) + MeetMade(mpi.answer, c)
    ensures result == SUCCESS ==> mpi.connected
  {
    hide FirstError;
    result := mpi.Do(c);
    if result == SUCCESS {
      result := mpi.Do(SetInterHandler);
    }
    if result == SUCCESS {
      result := mpi.Do(Barrier);
    }
  }

  /** The calls of `AcceptMade` before its cleanup. */
  function AcceptTried(answer: Call -> int): seq<Made> {
    var get, set_ := At(answer, GetHandler), At(answer, SetHandler);
    var open, publish := At(answer, OpenPort), At(answer, PublishName);
    if get.1 != SUCCESS then [get]
    else if set_.1 != SUCCESS then [get, set_]
    else if open.1 != SUCCESS then [get, set_, open]
    else if publish.1 != SUCCESS then [get, set_, open, publish]
    else [get, set_, open, publish] + MeetMade(answer, Accept)
  }

  /** Returns at the first failure, as the jumps to cleanup do. */
  method AcceptSteps(mpi: Runtime) returns (result: int, portOpened: bool, published: bool, saved: bool)
    requires mpi.Released() && FirstError(mpi.made) == SUCCESS
    modifies mpi
    ensures result == FirstError(mpi.made)
    ensures portOpened == mpi.portOpen && published == mpi.namePublished && saved == mpi.handlerHeld
    ensures mpi.made == old(mpi.made) + AcceptTried(mpi.answer)
    ensures saved == (mpi.answer(GetHandler) == SUCCESS)
    ensures portOpened == (saved && mpi.answer(SetHandler) == SUCCESS && mpi.answer(OpenPort) == SUCCESS)
    ensures published == (portOpened && mpi.answer(PublishName) == SUCCESS)
    ensures result == SUCCESS ==> mpi.connected
  {
    hide FirstError, MeetMade;
    portOpened, published, saved := false, false, false;
    result := mpi.Do(GetHandler);
    if result != SUCCESS { return; }
    saved := true;
    result := mpi.Do(SetHandler);
    if result != SUCCESS { return; }
    result := mpi.Do(OpenPort);
    if result != SUCCESS { return; }
    portOpened := true;
    result := mpi.Do(PublishName);
    if result != SUCCESS { return; }
    published := true;
    result := Meet(mpi, Accept);
  }

  lemma AcceptTriedThenCleaned(answer: Call -> int)
    ensures var saved := answer(GetHandler) == SUCCESS;
            var opened' := saved && answer(SetHandler) == SUCCESS && answer(OpenPort) == SUCCESS;
            var published := opened' && answer(PublishName) == SUCCESS;
            AcceptMade(answer) ==
            AcceptTried(answer) + (if published then [At(answer, UnpublishName)] else [])
            + (if opened' then [At(answer, ClosePort)] else []) + (if saved then HandlerBack(answer) else [])
  {
    hide MeetMade, HandlerBack;
  }

  /**
   * The master's side. Unless the process ends over its settings, the scope depth, the timer and its calls are
   * balanced on every path; port, name and handler are released; the calls are the specified ones, and the result is
   * the first error among them.
   */
  method AcceptWorker(d: Timeouts, mpi: Runtime, hasOut: bool, serviceName: Option<string>) returns (result: int)
    requires d.Valid() && !d.exited && mpi.Released() && mpi.made == []
    modifies d, mpi
    ensures d.Valid()
    ensures d.State() == AroundScope(d.env, old(d.State()), hasOut && Service(serviceName).Some?, ENROLLMENT)
    ensures !d.exited ==> mpi.Released()
    ensures !d.exited ==>
              if hasOut && Service(serviceName).Some?
              then mpi.made == AcceptMade(mpi.answer) && result == FirstError(mpi.made)
              else mpi.made == [] && result == ERR_ARG
    ensures !d.exited && result == SUCCESS ==> mpi.connected
  {
    hide FirstError, Apply, AcceptMade, AcceptTried, HandlerBack;
    if !hasOut {
      return ERR_ARG;
    }
    var service := Service(serviceName);
    if service.None? {
      return ERR_ARG;
    }
    NoErrors();
    d.WaitBegin(ENROLLMENT);
    if d.exited {
      return ERR_ARG;
    }
    result := AcceptAndClean(mpi);
    d.WaitEnd();
  }

  lemma NoErrors()
    ensures FirstError([]) == SUCCESS
  {
  }

  /** Releases what was acquired, in reverse order. */
  method CleanUp(mpi: Runtime, published: bool, portOpened: bool, saved: bool, before: int) returns (result: int)
    requires before == FirstError(mpi.made)
    requires published == mpi.namePublished && portOpened == mpi.portOpen && saved == mpi.handlerHeld
    modifies mpi
    ensures mpi.Released() && result == FirstError(mpi.made)
    ensures mpi.made == old(mpi.made) + (if published then [At(mpi.answer, UnpublishName)] else [])
                        + (if portOpened then [At(mpi.answer, ClosePort)] else [])
                        + (if saved then HandlerBack(mpi.answer) else [])
    ensures result == SUCCESS ==> before == SUCCESS
    ensures mpi.connected == old(mpi.connected)
  {
    hide FirstError, HandlerBack;
    result := before;
    if published {
      var r := mpi.Do(UnpublishName);
      result := KeepFirst(result, r);
    }
    if portOpened {
      var r := mpi.Do(ClosePort);
      result := KeepFirst(result, r);
    }
    result := RestoreSelfHandler(mpi, saved, result);
  }

  /** Everything inside the scope. */
  method AcceptAndClean(mpi: Runtime) returns (result: int)
    requires mpi.Released() && mpi.made == []
    modifies mpi
    ensures mpi.Released() && mpi.made == AcceptMade(mpi.answer) && result == FirstError(mpi.made)
    ensures result == SUCCESS ==> mpi.connected
  {
    NoErrors();
    hide FirstError, AcceptMade, AcceptTried, HandlerBack, At;
    var portOpened, published, saved;
    result, portOpened, published, saved := AcceptSteps(mpi);
    assert mpi.made == AcceptTried(mpi.answer);
    AcceptTriedThenCleaned(mpi.answer);
    result := CleanUp(mpi, published, portOpened, saved, result);
  }

  /** The scopes after one begin and its end, if the call gets as far as beginning. */
  function AroundScope(env: Environment, s: Scopes, reached: bool, kind: int): Scopes {
    if !reached then s
    else
      var inside := Apply(env, s, Begin(kind));
      if inside.exited then inside else Apply(env, inside, End)
  }

  /** What a scope leaves: the same depth and the same timer; the alarm is touched only from outside any scope. */
  lemma ScopeIsBalanced(env: Environment, s: Scopes, reached: bool, kind: int)
    requires !s.exited && s.depth >= 0 && (s.timer.Some? <==> s.depth > 0) && (s.active <==> s.depth > 0)
    requires !AroundScope(env, s, reached, kind).exited
    ensures var t := AroundScope(env, s, reached, kind);
            && t.depth == s.depth && t.timer == s.timer && t.active == s.active
            && (s.depth > 0 ==> t == s)
            && (s.depth == 0 && reached ==> |t.alarms| == |s.alarms| + 2 && s.alarms <= t.alarms)
  {
  }

  // -------------------------------------------------------------------------- connecting

  /** The name is not there yet, and that is all that is wrong. */
  predicate NotYet(l: Lookup) {
    l.result != SUCCESS && l.classResult == SUCCESS && l.notYet
  }

  /** What a decisive lookup decides. */
  function Outcome(l: Lookup): int {
    if l.result == SUCCESS then if l.portOk then SUCCESS else ERR_PORT
    else if l.classResult != SUCCESS then l.classResult
    else l.result
  }

  /** Lookup `k` is the first decisive one. */
  ghost predicate Decides(lookups: seq<Lookup>, k: int) {
    0 <= k < |lookups| && !NotYet(lookups[k]) && forall j :: 0 <= j < k ==> NotYet(lookups[j])
  }

  /** No answer while every lookup says "not yet"; otherwise the outcome of the first that does not. */
  ghost predicate Resolves(lookups: seq<Lookup>, r: Option<int>) {
    match r
    case None => forall j :: 0 <= j < |lookups| ==> NotYet(lookups[j])
    case Some(v) => exists k :: Decides(lookups, k) && v == Outcome(lookups[k])
  }

  /** The answer there is. */
  function Resolved(lookups: seq<Lookup>): Option<int> {
    if lookups == [] then None
    else if NotYet(lookups[0]) then Resolved(lookups[1..])
    else Some(Outcome(lookups[0]))
  }

  lemma {:induction false} ResolvedResolves(lookups: seq<Lookup>)
    ensures Resolves(lookups, Resolved(lookups))
  {
    if lookups != [] {
      if NotYet(lookups[0]) {
        ResolvedResolves(lookups[1..]);
        if Resolved(lookups).Some? {
          var k :| Decides(lookups[1..], k) && Resolved(lookups).value == Outcome(lookups[1..][k]);
          assert Decides(lookups, k + 1);
        }
      } else {
        assert Decides(lookups, 0);
      }
    }
  }

  /** There is one answer only. */
  lemma ResolvesOnce(lookups: seq<Lookup>, r: Option<int>)
    requires Resolves(lookups, r)
    ensures r == Resolved(lookups)
  {
    ResolvedResolves(lookups);
    var r' := Resolved(lookups);
    if r.Some? && r'.Some? {
      var k :| Decides(lookups, k) && r.value == Outcome(lookups[k]);
      var k' :| Decides(lookups, k') && r'.value == Outcome(lookups[k']);
      assert !(k < k') && !(k' < k);
    }
  }

  /** What a lookup says: wait, a port, a malformed port, a failing classification, or its own error. */
  lemma LookupSays(l: Lookup)
    ensures NotYet(l) <==> l.result != 0 && l.classResult == 0 && l.notYet
    ensures l.result == 0 ==> Outcome(l) == if l.portOk then 0 else 38
    ensures l.result != 0 ==> Outcome(l) == if l.classResult != 0 then l.classResult else l.result
  {
  }

  /** Retries while the name is not there yet. */
  method LookUp(lookups: seq<Lookup>) returns (r: Option<int>)
    ensures Resolves(lookups, r)
  {
    for i := 0 to |lookups|
      invariant forall j :: 0 <= j < i ==> NotYet(lookups[j])
    {
      var l := lookups[i];
      if l.result == SUCCESS {
        assert Decides(lookups, i);
        if !l.portOk {
          return Some(ERR_PORT);
        }
        return Some(SUCCESS);
      }
      if l.classResult != SUCCESS {
        assert Decides(lookups, i);
        return Some(l.classResult);
      }
      if !l.notYet {
        assert Decides(lookups, i);
        return Some(l.result);
      }
    }
    r := None;
  }

  /** Returns at the first failure, as the jumps to cleanup do; None while still waiting for the name. */
  method ConnectSteps(mpi: Runtime, lookups: seq<Lookup>) returns (result: Option<int>, saved: bool)
    requires mpi.Released() && mpi.made == []
    modifies mpi
    ensures saved == mpi.handlerHeld == (mpi.answer(GetHandler) == SUCCESS) && !mpi.portOpen && !mpi.namePublished
    ensures result.None? <==> Waits(mpi.answer, lookups)
    ensures result.Some? ==>
              && result.value == FirstError(mpi.made)
              && mpi.made + (if saved then HandlerBack(mpi.answer) else []) == ConnectMade(mpi.answer, lookups)
  {
    NoErrors();
    hide FirstError, MeetMade, HandlerBack, Resolves, Resolved;
    saved := false;
    var r := mpi.Do(GetHandler);
    if r != SUCCESS { return Some(r), saved; }
    saved := true;
    r := mpi.Do(SetHandler);
    if r != SUCCESS { return Some(r), saved; }
    var name := LookUp(lookups);
    ResolvesOnce(lookups, name);
    if name.None? { return None, saved; }
    mpi.NoteLookup(name.value);
    if name.value != SUCCESS { return name, saved; }
    r := Meet(mpi, Connect);
    result := Some(r);
  }

  /** The call gets as far as looking the name up, and no lookup decides. */
  predicate Waits(answer: Call -> int, lookups: seq<Lookup>) {
    answer(GetHandler) == SUCCESS && answer(SetHandler) == SUCCESS && Resolved(lookups).None?
  }

  /** The worker's side, with the same guarantees; it returns at all only once a lookup is decisive. */
  method ConnectWorker(d: Timeouts, mpi: Runtime, hasOut: bool, serviceName: Option<string>, lookups: seq<Lookup>)
    returns (result: Option<int>)
    requires d.Valid() && !d.exited && mpi.Released() && mpi.made == []
    modifies d, mpi
    ensures d.Valid()
    ensures var reached := hasOut && Service(serviceName).Some?;
            if reached && Waits(mpi.answer, lookups) && !Apply(d.env, old(d.State()), Begin(ENROLLMENT)).exited
            then result.None? && d.State() == Apply(d.env, old(d.State()), Begin(ENROLLMENT))
            else d.State() == AroundScope(d.env, old(d.State()), reached, ENROLLMENT)
    ensures !d.exited ==> (result.None? <==> hasOut && Service(serviceName).Some? && Waits(mpi.answer, lookups))
    ensures !d.exited && result.Some? ==> mpi.Released()
    ensures !d.exited && result.Some? ==>
              if hasOut && Service(serviceName).Some?
              then mpi.made == ConnectMade(mpi.answer, lookups) && result.value == FirstError(mpi.made)
              else mpi.made == [] && result.value == ERR_ARG
  {
    hide FirstError, Apply, ConnectMade, HandlerBack, Waits;
    if !hasOut {
      return Some(ERR_ARG);
    }
    var service := Service(serviceName);
    if service.None? {
      return Some(ERR_ARG);
    }
    d.WaitBegin(ENROLLMENT);
    if d.exited {
      return None;
    }
    var saved;
    result, saved := ConnectSteps(mpi, lookups);
    if result.None? {
      return;
    }
    var r := RestoreSelfHandler(mpi, saved, result.value);
    d.WaitEnd();
    result := Some(r);
  }

  // ------------------------------------------------------------------- the calls, in order

  /** The calls without their answers. */
  function Calls(made: seq<Made>): seq<Call> {
    seq(|made|, k requires 0 <= k < |made| => made[k].0)
  }

  /**
   * The accepting side, call by call: after the first failure only what releases what was acquired, in reverse order.
   * Every entry of the trace carries the library's answer to that call.
   */
  lemma AcceptCalls(answer: Call -> int)
    ensures forall k :: 0 <= k < |AcceptMade(answer)| ==> AcceptMade(answer)[k].1 == answer(AcceptMade(answer)[k].0)
    ensures Calls(AcceptMade(answer)) ==
            if answer(GetHandler) != 0 then [GetHandler]
            else if answer(SetHandler) != 0 then [GetHandler, SetHandler, RestoreHandler, FreeHandler]
            else if answer(OpenPort) != 0 then [GetHandler, SetHandler, OpenPort, RestoreHandler, FreeHandler]
            else if answer(PublishName) != 0 then
              [GetHandler, SetHandler, OpenPort, PublishName, ClosePort, RestoreHandler, FreeHandler]
            else if answer(Accept) != 0 then
              [GetHandler, SetHandler, OpenPort, PublishName, Accept, UnpublishName, ClosePort, RestoreHandler,
               FreeHandler]
            else if answer(SetInterHandler) != 0 then
              [GetHandler, SetHandler, OpenPort, PublishName, Accept, SetInterHandler, UnpublishName, ClosePort,
               RestoreHandler, FreeHandler]
            else
              [GetHandler, SetHandler, OpenPort, PublishName, Accept, SetInterHandler, Barrier, UnpublishName,
               ClosePort, RestoreHandler, FreeHandler]
  {
  }

  /** The connecting side likewise; the lookups count as one call, with their outcome as its answer. */
  lemma ConnectCalls(answer: Call -> int, lookups: seq<Lookup>, name: int)
    requires Resolves(lookups, Some(name))
    ensures forall k :: 0 <= k < |ConnectMade(answer, lookups)| ==>
              var m := ConnectMade(answer, lookups)[k]; m.1 == if m.0 == LookupName then name else answer(m.0)
    ensures Calls(ConnectMade(answer, lookups)) ==
            if answer(GetHandler) != 0 then [GetHandler]
            else if answer(SetHandler) != 0 then [GetHandler, SetHandler, RestoreHandler, FreeHandler]
            else if name != 0 then [GetHandler, SetHandler, LookupName, RestoreHandler, FreeHandler]
            else if answer(Connect) != 0 then
              [GetHandler, SetHandler, LookupName, Connect, RestoreHandler, FreeHandler]
            else if answer(SetInterHandler) != 0 then
              [GetHandler, SetHandler, LookupName, Connect, SetInterHandler, RestoreHandler, FreeHandler]
            else
              [GetHandler, SetHandler, LookupName, Connect, SetInterHandler, Barrier, RestoreHandler, FreeHandler]
  {
    ResolvesOnce(lookups, Some(name));
    hide Resolved, Resolves;
  }

  /** All calls the accepting side makes when nothing fails. */
  const ACCEPT_CALLS: set<Call> :=
    {GetHandler, SetHandler, OpenPort, PublishName, Accept, SetInterHandler, Barrier, UnpublishName, ClosePort,
     RestoreHandler, FreeHandler}

  /** Accepting succeeds exactly when every one of its calls does. */
  lemma AcceptSucceedsIff(answer: Call -> int)
    ensures FirstError(AcceptMade(answer)) == SUCCESS <==>
              forall c :: c in ACCEPT_CALLS ==> answer(c) == 0
  {
    var made := AcceptMade(answer);
    FirstErrorIsFirst(made);
    AcceptCalls(answer);
    hide FirstError, AcceptMade;
    var calls := Calls(made);
    if FirstError(made) == SUCCESS {
      forall k | 0 <= k < |calls| ensures answer(calls[k]) == 0 {
        assert made[k].1 == SUCCESS;
      }
      AllOfThem(answer, calls);
    } else {
      var k :| 0 <= k < |made| && made[k].1 != SUCCESS;
      assert answer(calls[k]) != 0;
    }
  }

  lemma AllOfThem(answer: Call -> int, calls: seq<Call>)
    requires forall k :: 0 <= k < |calls| ==> answer(calls[k]) == 0
    requires calls == Calls(AcceptMade(answer))
    ensures calls == [GetHandler, SetHandler, OpenPort, PublishName, Accept, SetInterHandler, Barrier, UnpublishName,
                      ClosePort, RestoreHandler, FreeHandler]
    ensures forall c :: c in ACCEPT_CALLS ==> answer(c) == 0
  {
    AcceptCalls(answer);
    hide AcceptMade;
    assert answer(calls[0]) == 0;
    assert |calls| > 1 ==> answer(calls[1]) == 0;
    assert |calls| > 2 ==> answer(calls[2]) == 0;
    assert |calls| > 3 ==> answer(calls[3]) == 0;
    assert |calls| > 4 ==> answer(calls[4]) == 0;
    assert |calls| > 5 ==> answer(calls[5]) == 0;
    assert |calls| > 10 ==>
        answer(calls[6]) == answer(calls[7]) == answer(calls[8]) == answer(calls[9]) == answer(calls[10]) == 0;
  }

  /** The service name is the variable's, or the default; empty or too long it is refused. */
  lemma ServiceIs(name: Option<string>)
    ensures Service(name) == match name
                             case None => Some("ppdpc-enroll")
                             case Some(s) => if 1 <= |s| < 1024 then Some(s) else None
  {
  }
}
