/**
 The task queue cannot deadlock, and it finishes under every fair scheduling.

 A potential counts the work left. No step raises it, and a step that leaves it alone changes
 nothing but the position of the polling sweep. A round in which every worker moves at least once
 and the master at least once more than there are workers lowers it, unless the workload is over.
 */
module TaskqProgress {
  import opened TaskqData
  import opened TaskqSystem
  import opened TaskqLinks
  import opened TaskqInvariant
  import opened TaskqSteps
  import opened TaskqTheorems
  import opened Protocol

  // ------------------------------------------------------------------------ one session

  function Pending(w: Worker): nat {
    match w.pc
    case SendRefusal => 1
    case SendReady => 1
    case SendResult(_) => 2
    case SendOutput(_) => 1
    case _ => 0
  }

  function LinkCost(l: Link): nat {
    5 * |l.down| + 2 * Pending(l.worker) + |l.up|
  }

  /** The worker has something to read or something to send. */
  predicate Enabled(l: Link) {
    l.down != [] || Pending(l.worker) > 0
  }

  lemma WorkerSpends(p: Params, v: View, l: Link, elapsed: Elapsed)
    requires p.config.bytes > 0 && LinkOk(p, v, l) && l.sendCtr <= U64_MAX
    ensures Enabled(l) ==> LinkCost(WorkerStep(l, elapsed)) < LinkCost(l)
    ensures !Enabled(l) ==> WorkerStep(l, elapsed) == l
  {
    if l.down != [] {
      NotAbsorbingFailure(p, v, l);
      ReceiveIsAbsorb(l, elapsed);
      HeadIsTaken(l.worker, l.down);
    }
  }

  lemma NotAbsorbingFailure(p: Params, v: View, l: Link)
    requires p.config.bytes > 0 && LinkOk(p, v, l)
    ensures !Absorbs(l.worker, l.down).pc.WorkerFailed?
  {
  }

  // -------------------------------------------------------------------------- potential

  function Cost(links: seq<Link>): nat {
    if links == [] then 0 else Cost(links[..|links| - 1]) + LinkCost(links[|links| - 1])
  }

  lemma {:induction false} CostUpdate(links: seq<Link>, k: nat, l: Link)
    requires k < |links|
    ensures Cost(links[k := l]) == Cost(links) - LinkCost(links[k]) + LinkCost(l)
  {
    var last := |links| - 1;
    if k == last {
      assert links[k := l][..last] == links[..last];
    } else {
      assert links[k := l][..last] == links[..last][k := l];
      CostUpdate(links[..last], k, l);
    }
  }

  function RankOfRuns(p: Params, run: nat): nat
    decreases p.config.runs - run
  {
    if run >= p.config.runs then 0 else p.workers + 4 + RankOfRuns(p, run + 1)
  }

  /** Bounds the moves of the master that neither send nor receive. */
  function Rank(p: Params, m: Master): int {
    RankOfRuns(p, m.run) +
    match m.pc
    case SendControl(_) => p.workers + 3
    case Initial(k) => p.workers - k + 2
    case InitialInput(k) => p.workers - k + 2
    case Poll(_) => 1
    case AwaitOutput(_, _) => 1
    case Reassign(_) => 1
    case ReassignInput(_) => 1
    case _ => 0
  }

  function Potential(p: Params, s: System): int {
    6 * Remaining(p, s.m) + Rank(p, s.m) + Cost(s.links)
  }

  lemma PotentialNonNegative(p: Params, s: System)
    requires Inv(p, s)
    ensures Potential(p, s) >= 0
  {
  }

  /** The master can send, or the message it waits for is there. */
  predicate Ready(p: Params, s: System)
    requires Shaped(p, s)
  {
    match s.m.pc
    case AwaitReady(k) => k < p.workers && s.links[k].up != []
    case AwaitOutput(k, _) => k < p.workers && s.links[k].up != []
    case Poll(k) => k < p.workers && s.m.plan.busy[k] && s.links[k].up != []
    case Finished => false
    case _ => true
  }

  /** The master would look at worker `k`, or start the sweep over, without finding anything. */
  predicate Sweeping(p: Params, s: System)
    requires Shaped(p, s)
  {
    s.m.pc.Poll? && !Ready(p, s) && (s.m.pc.k < p.workers || s.m.plan.completed < p.config.count)
  }

  function SweepOn(p: Params, s: System): System
    requires s.m.pc.Poll?
  {
    s.(m := s.m.(pc := if s.m.pc.k < p.workers then Poll(s.m.pc.k + 1) else Poll(0)))
  }

  lemma PushSpends(p: Params, s: System, s': System, k: nat)
    requires Pushed(s, s', k) && Remaining(p, s'.m) == Remaining(p, s.m) - 1 && Rank(p, s'.m) <= Rank(p, s.m)
    ensures Potential(p, s') < Potential(p, s)
  {
    CostUpdate(s.links, k, s'.links[k]);
  }

  lemma PullSpends(p: Params, s: System, s': System, k: nat)
    requires Pulled(s, s', k) && Remaining(p, s'.m) == Remaining(p, s.m) && Rank(p, s'.m) <= Rank(p, s.m)
    ensures Potential(p, s') < Potential(p, s)
  {
    CostUpdate(s.links, k, s'.links[k]);
  }

  lemma RankAtRun(p: Params, m: Master, run: nat)
    requires 1 <= run
    ensures run <= p.config.runs ==> Rank(p, MasterAtRun(p, m, run)) < RankOfRuns(p, run - 1)
    ensures run > p.config.runs ==> Rank(p, MasterAtRun(p, m, run)) == 0
  {
  }

  /** Setting up a run: commands, ready messages, controls and the initial distribution. */
  lemma SetupSpends(p: Params, s: System)
    requires p.Valid() && p.Fits() && Inv(p, s) && Ready(p, s)
    requires s.m.pc.SendCmd? || s.m.pc.AwaitReady? || s.m.pc.SendControl?
    ensures Potential(p, MasterStep(p, s)) < Potential(p, s)
  {
    hide LinkOk;
    var k, s' := s.m.pc.k, MasterStep(p, s);
    match s.m.pc
    case SendCmd(_) => StepSendCmd(p, s); PushSpends(p, s, s', k);
    case AwaitReady(_) => StepAwaitReadyOk(p, s); RankAtRun(p, s.m, 1); PullSpends(p, s, s', k);
    case SendControl(_) => StepSendControl(p, s); PushSpends(p, s, s', k);
  }

  lemma InitialSpends(p: Params, s: System)
    requires p.Valid() && p.Fits() && Inv(p, s) && Ready(p, s)
    requires s.m.pc.Initial? || s.m.pc.InitialInput?
    ensures Potential(p, MasterStep(p, s)) < Potential(p, s)
  {
    hide LinkOk;
    var k, s' := s.m.pc.k, MasterStep(p, s);
    match s.m.pc
    case Initial(_) =>
      if k == p.workers || s.m.plan.next >= p.config.count {
        StepInitialSkip(p, s);
      } else {
        StepInitial(p, s);
        PushSpends(p, s, s', k);
      }
    case InitialInput(_) => StepInitialInput(p, s); PushSpends(p, s, s', k);
  }

  lemma ResultSpends(p: Params, s: System)
    requires p.Valid() && p.Fits() && Inv(p, s) && Ready(p, s) && s.m.pc.Poll?
    ensures Potential(p, MasterStep(p, s)) < Potential(p, s)
  {
    hide LinkOk;
    StepPollTake(p, s);
    PullSpends(p, s, MasterStep(p, s), s.m.pc.k);
  }

  lemma OutputSpends(p: Params, s: System)
    requires p.Valid() && p.Fits() && Inv(p, s) && Ready(p, s) && s.m.pc.AwaitOutput?
    ensures Potential(p, MasterStep(p, s)) < Potential(p, s)
  {
    hide LinkOk;
    StepAwaitOutputTake(p, s);
    PullSpends(p, s, MasterStep(p, s), s.m.pc.k);
  }

  lemma ReassignSpends(p: Params, s: System)
    requires p.Valid() && p.Fits() && Inv(p, s) && Ready(p, s)
    requires s.m.pc.Reassign? || s.m.pc.ReassignInput?
    ensures Potential(p, MasterStep(p, s)) < Potential(p, s)
  {
    hide LinkOk;
    var k, s' := s.m.pc.k, MasterStep(p, s);
    if s.m.pc.Reassign? {
      StepReassign(p, s);
    } else {
      StepReassignInput(p, s);
    }
    PushSpends(p, s, s', k);
  }

  lemma EndSpends(p: Params, s: System)
    requires p.Valid() && p.Fits() && Inv(p, s) && s.m.pc.SendEnd?
    ensures Potential(p, MasterStep(p, s)) < Potential(p, s)
  {
    hide LinkOk;
    StepSendEnd(p, s);
    RankAtRun(p, s.m, s.m.run + 1);
    PushSpends(p, s, MasterStep(p, s), s.m.pc.k);
  }

  lemma SweepStep(p: Params, s: System)
    requires p.Valid() && Inv(p, s) && s.m.pc.Poll? && !Ready(p, s)
    ensures Sweeping(p, s) ==> MasterStep(p, s) == SweepOn(p, s)
    ensures !Sweeping(p, s) ==> Potential(p, MasterStep(p, s)) < Potential(p, s)
  {
    hide LinkOk;
    StepPollSkip(p, s);
  }

  /** A ready master lowers the potential; a sweeping one moves on; otherwise it stays put. */
  lemma MasterSpends(p: Params, s: System)
    requires p.Valid() && p.Fits() && Inv(p, s)
    ensures Ready(p, s) ==> Potential(p, MasterStep(p, s)) < Potential(p, s)
    ensures Sweeping(p, s) ==> MasterStep(p, s) == SweepOn(p, s) && Potential(p, MasterStep(p, s)) == Potential(p, s)
    ensures !Ready(p, s) && !Sweeping(p, s) && s.m.pc.Poll? ==> Potential(p, MasterStep(p, s)) < Potential(p, s)
    ensures !Ready(p, s) && !Sweeping(p, s) && !s.m.pc.Poll? ==> MasterStep(p, s) == s
  {
    hide LinkOk;
    if Ready(p, s) {
      if s.m.pc.SendCmd? || s.m.pc.AwaitReady? || s.m.pc.SendControl? {
        SetupSpends(p, s);
      } else if s.m.pc.Initial? || s.m.pc.InitialInput? {
        InitialSpends(p, s);
      } else if s.m.pc.Poll? {
        ResultSpends(p, s);
      } else if s.m.pc.AwaitOutput? {
        OutputSpends(p, s);
      } else if s.m.pc.SendEnd? {
        EndSpends(p, s);
      } else {
        ReassignSpends(p, s);
      }
    } else if s.m.pc.Poll? {
      SweepStep(p, s);
    } else if s.m.pc.AwaitReady? {
      StepAwaitReadyOk(p, s);
    }
  }

  lemma RemoteSpends(p: Params, s: System, k: nat, elapsed: Elapsed, held: bool)
    requires p.Valid() && p.Fits() && Inv(p, s) && k < p.workers
    ensures var s' := Step(p, s, Remote(k, elapsed, held));
            if Enabled(s.links[k]) && !(held && WorkerWaits(s.links[k])) then Potential(p, s') < Potential(p, s)
            else s' == s
  {
    assert s.links[k].sendCtr + Remaining(p, s.m) <= p.Total();
    assert LinkOk(p, ViewOf(s.m, k), s.links[k]);
    WorkerSpends(p, ViewOf(s.m, k), s.links[k], elapsed);
    CostUpdate(s.links, k, WorkerStep(s.links[k], elapsed));
    hide LinkOk, WorkerStep, Enabled;
  }

  /** A step that spends nothing changes at most the position of the sweep. */
  predicate SameButSweep(s: System, s': System) {
    && s'.links == s.links
    && s'.m.run == s.m.run && s'.m.plan == s.m.plan
    && (s'.m.pc == s.m.pc || (s.m.pc.Poll? && s'.m.pc.Poll?))
  }

  lemma StepSpends(p: Params, s: System, c: Choice)
    requires p.Valid() && p.Fits() && Inv(p, s)
    ensures Potential(p, Step(p, s, c)) <= Potential(p, s)
    ensures Potential(p, Step(p, s, c)) == Potential(p, s) ==> SameButSweep(s, Step(p, s, c))
    ensures Potential(p, Step(p, s, c)) == Potential(p, s) && c.Remote? ==> Step(p, s, c) == s
  {
    hide LinkOk, MasterWaits;
    match c
    case Central(_) => MasterSpends(p, s);
    case Remote(k, elapsed, held) => if k < p.workers { RemoteSpends(p, s, k, elapsed, held); }
  }

  lemma {:induction false} RunSpends(p: Params, s: System, choices: seq<Choice>)
    requires p.Valid() && p.Fits() && Inv(p, s)
    ensures Potential(p, Run(p, s, choices)) <= Potential(p, s)
    decreases |choices|
  {
    hide LinkOk;
    if choices != [] {
      StepKeepsInv(p, s, choices[0]);
      StepSpends(p, s, choices[0]);
      RunSpends(p, Step(p, s, choices[0]), choices[1..]);
    }
  }

  // ------------------------------------------------------------------- somebody can move

  function Centrals(round: seq<Choice>): nat {
    if round == [] then 0 else (if round[0].Central? then 1 else 0) + Centrals(round[1..])
  }

  predicate Moves(round: seq<Choice>, k: nat) {
    exists i :: 0 <= i < |round| && round[i].Remote? && round[i].k == k
  }

  /** If worker `k` can move, is not held back, and gets to, the potential falls within the round. */
  lemma {:induction false} EnabledWorkerSpends(p: Params, s: System, round: seq<Choice>, k: nat)
    requires p.Valid() && p.Fits() && Inv(p, s) && k < p.workers
    requires Enabled(s.links[k]) && !WorkerWaits(s.links[k]) && Moves(round, k)
    ensures Potential(p, Run(p, s, round)) < Potential(p, s)
    decreases |round|
  {
    hide LinkOk;
    var c, s' := round[0], Step(p, s, round[0]);
    StepKeepsInv(p, s, c);
    StepSpends(p, s, c);
    if Potential(p, s') < Potential(p, s) {
      RunSpends(p, s', round[1..]);
    } else {
      if c.Remote? && c.k == k {
        RemoteSpends(p, s, k, c.elapsed, c.held);
      }
      var i :| 0 <= i < |round| && round[i].Remote? && round[i].k == k;
      assert round[1..][i - 1] == round[i];
      EnabledWorkerSpends(p, s', round[1..], k);
    }
  }

  /** If the master can move, is not held back, and gets to, the potential falls within the round. */
  lemma {:induction false} ReadyMasterSpends(p: Params, s: System, round: seq<Choice>)
    requires p.Valid() && p.Fits() && Inv(p, s)
    requires Ready(p, s) && !MasterWaits(s) && Centrals(round) > 0
    ensures Potential(p, Run(p, s, round)) < Potential(p, s)
    decreases |round|
  {
    hide LinkOk, MasterWaits;
    var c, s' := round[0], Step(p, s, round[0]);
    StepKeepsInv(p, s, c);
    StepSpends(p, s, c);
    if Potential(p, s') < Potential(p, s) {
      RunSpends(p, s', round[1..]);
    } else {
      SameLinksWait(s, s');
      MasterSpends(p, s);
      ReadyMasterSpends(p, s', round[1..]);
    }
  }

  lemma SameLinksWait(s: System, s': System)
    requires s'.links == s.links
    ensures MasterWaits(s') == MasterWaits(s)
  {
  }

  /** Polls needed to get from position `j` of the sweep to worker `k`. */
  function Distance(workers: nat, j: nat, k: nat): int {
    if j <= k then k - j else workers - j + 1 + k
  }

  /** If a busy worker's result is waiting, enough polls find it. */
  lemma {:induction false} PollingSpends(p: Params, s: System, round: seq<Choice>, k: nat)
    requires p.Valid() && p.Fits() && Inv(p, s) && s.m.pc.Poll?
    requires k < p.workers && s.m.plan.busy[k] && s.links[k].up != [] && !MasterWaits(s)
    requires Centrals(round) > Distance(p.workers, s.m.pc.k, k)
    ensures Potential(p, Run(p, s, round)) < Potential(p, s)
    decreases |round|
  {
    hide LinkOk, MasterWaits;
    var c, s' := round[0], Step(p, s, round[0]);
    StepKeepsInv(p, s, c);
    StepSpends(p, s, c);
    if Potential(p, s') < Potential(p, s) {
      RunSpends(p, s', round[1..]);
    } else {
      SameLinksWait(s, s');
      MasterSpends(p, s);
      PollingSpends(p, s', round[1..], k);
    }
  }

  /** If every task is complete, enough polls end the sweep. */
  lemma {:induction false} SweepEndSpends(p: Params, s: System, round: seq<Choice>)
    requires p.Valid() && p.Fits() && Inv(p, s) && s.m.pc.Poll? && !MasterWaits(s)
    requires s.m.plan.completed == p.config.count && Centrals(round) > p.workers - s.m.pc.k
    ensures Potential(p, Run(p, s, round)) < Potential(p, s)
    decreases |round|
  {
    hide LinkOk, MasterWaits;
    var c, s' := round[0], Step(p, s, round[0]);
    StepKeepsInv(p, s, c);
    StepSpends(p, s, c);
    if Potential(p, s') < Potential(p, s) {
      RunSpends(p, s', round[1..]);
    } else {
      SameLinksWait(s, s');
      MasterSpends(p, s);
      SweepEndSpends(p, s', round[1..]);
    }
  }

  /** Whoever has something to read has nothing on its way to the master. */
  lemma ReaderIsFree(p: Params, v: View, l: Link)
    requires p.config.bytes > 0 && LinkOk(p, v, l) && l.down != []
    ensures Enabled(l) && !WorkerWaits(l)
  {
  }

  lemma WaitingWorkerIsEnabled(p: Params, v: View, l: Link)
    requires p.config.bytes > 0 && LinkOk(p, v, l) && l.up == []
    requires v.Booting? || v.Working? || v.OutputDue?
    ensures Enabled(l)
  {
  }

  lemma {:induction false} BusyWitness(busy: seq<bool>) returns (k: nat)
    requires BusyCount(busy) > 0
    ensures k < |busy| && busy[k]
  {
    k := |busy| - 1;
    if !busy[k] {
      k := BusyWitness(busy[..k]);
    }
  }

  /** While a run has open tasks, some worker is busy. */
  lemma SomeoneIsBusy(p: Params, plan: Schedule) returns (k: nat)
    requires Scheduled(p, plan) && p.workers > 0
    requires plan.next < p.config.count ==> AllBusy(plan)
    requires plan.completed < p.config.count
    ensures k < p.workers && plan.busy[k]
  {
    if plan.next < p.config.count {
      BusyCountAll(plan.busy, true);
    }
    k := BusyWitness(plan.busy);
  }

  /** A round in which everybody moves, the master once more than there are workers. */
  ghost predicate FairRound(p: Params, round: seq<Choice>) {
    (forall k :: 0 <= k < p.workers ==> Moves(round, k)) && Centrals(round) > p.workers
  }

  /**
   * No deadlock: unless the workload is over, a fair round gets something done, whichever sends hold their sender
   * back until the message is received.
   */
  lemma RoundSpends(p: Params, s: System, round: seq<Choice>)
    requires p.Valid() && p.Fits() && Inv(p, s) && !Final(s) && FairRound(p, round)
    ensures Potential(p, Run(p, s, round)) < Potential(p, s)
  {
    hide LinkOk;
    if MasterWaits(s) {
      var k :| 0 <= k < |s.links| && s.links[k].down != [];
      assert LinkOk(p, ViewOf(s.m, k), s.links[k]);
      ReaderIsFree(p, ViewOf(s.m, k), s.links[k]);
      EnabledWorkerSpends(p, s, round, k);
    } else if Ready(p, s) {
      ReadyMasterSpends(p, s, round);
    } else {
      assert !s.m.pc.Finished?;
      match s.m.pc
      case AwaitReady(k) => AwaitedWorkerSpends(p, s, round, k);
      case AwaitOutput(k, _) => AwaitedWorkerSpends(p, s, round, k);
      case Poll(_) => PollRoundSpends(p, s, round);
    }
  }

  /** A worker the master is waiting for, with nothing on its way yet. */
  lemma AwaitedWorkerSpends(p: Params, s: System, round: seq<Choice>, k: nat)
    requires p.Valid() && p.Fits() && Inv(p, s) && k < p.workers && s.links[k].up == [] && Moves(round, k)
    requires var v := ViewOf(s.m, k); v.Booting? || v.Working? || v.OutputDue?
    ensures Potential(p, Run(p, s, round)) < Potential(p, s)
  {
    hide LinkOk;
    assert LinkOk(p, ViewOf(s.m, k), s.links[k]);
    WaitingWorkerIsEnabled(p, ViewOf(s.m, k), s.links[k]);
    EnabledWorkerSpends(p, s, round, k);
  }

  lemma PollRoundSpends(p: Params, s: System, round: seq<Choice>)
    requires p.Valid() && p.Fits() && Inv(p, s) && s.m.pc.Poll? && !MasterWaits(s) && FairRound(p, round)
    ensures Potential(p, Run(p, s, round)) < Potential(p, s)
  {
    hide LinkOk, MasterWaits;
    if s.m.plan.completed == p.config.count {
      SweepEndSpends(p, s, round);
    } else {
      var k := SomeoneIsBusy(p, s.m.plan);
      if s.links[k].up != [] {
        PollingSpends(p, s, round, k);
      } else {
        AwaitedWorkerSpends(p, s, round, k);
      }
    }
  }

  // ------------------------------------------------------------------ fair runs finish

  function RunRounds(p: Params, s: System, rounds: seq<seq<Choice>>): (s': System)
    requires Shaped(p, s)
    ensures Shaped(p, s')
    decreases |rounds|
  {
    if rounds == [] then s else RunRounds(p, Run(p, s, rounds[0]), rounds[1..])
  }

  /** A final state is never left. */
  lemma {:induction false} FinalStays(p: Params, s: System, choices: seq<Choice>)
    requires p.Valid() && p.Fits() && Inv(p, s) && Final(s)
    ensures Run(p, s, choices) == s
    decreases |choices|
  {
    if choices != [] {
      var c := choices[0];
      if c.Remote? && c.k < p.workers {
        assert LinkOk(p, ViewOf(s.m, c.k), s.links[c.k]);
        assert s.links[c.k].worker.pc == Done;
        RemoteSpends(p, s, c.k, c.elapsed, c.held);
      }
      FinalStays(p, s, choices[1..]);
    }
  }

  lemma {:induction false} FairRunFinishesFrom(p: Params, s: System, rounds: seq<seq<Choice>>)
    requires p.Valid() && p.Fits() && Inv(p, s)
    requires forall i :: 0 <= i < |rounds| ==> FairRound(p, rounds[i])
    requires |rounds| > Potential(p, s) || Final(s)
    ensures Final(RunRounds(p, s, rounds))
    decreases |rounds|
  {
    hide LinkOk;
    PotentialNonNegative(p, s);
    if rounds != [] {
      var s' := Run(p, s, rounds[0]);
      RunKeepsInv(p, s, rounds[0]);
      if Final(s) {
        FinalStays(p, s, rounds[0]);
      } else {
        RoundSpends(p, s, rounds[0]);
      }
      forall i | 0 <= i < |rounds[1..]| ensures FairRound(p, rounds[1..][i]) {
        assert rounds[1..][i] == rounds[i + 1];
      }
      FairRunFinishesFrom(p, s', rounds[1..]);
    }
  }

  /**
   * Every fair scheduling completes the workload within a number of rounds known beforehand, whichever sends hold
   * their sender back.
   */
  lemma FairRunFinishes(p: Params, rounds: seq<seq<Choice>>)
    requires p.Valid() && p.Fits()
    requires forall i :: 0 <= i < |rounds| ==> FairRound(p, rounds[i])
    requires |rounds| > Potential(p, Init(p))
    ensures Final(RunRounds(p, Init(p), rounds))
  {
    InitInv(p);
    FairRunFinishesFrom(p, Init(p), rounds);
  }
}
