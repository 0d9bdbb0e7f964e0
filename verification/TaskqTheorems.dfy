/** What the invariant gives over every interleaving from the start of the workload. */
module TaskqTheorems {
  import opened TaskqData
  import opened TaskqSystem
  import opened TaskqLinks
  import opened TaskqInvariant
  import opened TaskqSteps

  lemma {:induction false} RunKeepsInv(p: Params, s: System, choices: seq<Choice>)
    requires p.Valid() && p.Fits() && Inv(p, s)
    ensures Inv(p, Run(p, s, choices))
    decreases |choices|
  {
    if choices != [] {
      StepKeepsInv(p, s, choices[0]);
      RunKeepsInv(p, Step(p, s, choices[0]), choices[1..]);
    }
  }

  /** The state after an arbitrary interleaving of one whole workload. */
  function Reached(p: Params, choices: seq<Choice>): System
    requires p.workers > 0 && p.config.bytes > 0 && |p.jump| == 64
  {
    Run(p, Init(p), choices)
  }

  lemma ReachedInv(p: Params, choices: seq<Choice>)
    requires p.Valid() && p.Fits()
    ensures Inv(p, Reached(p, choices))
  {
    InitInv(p);
    RunKeepsInv(p, Init(p), choices);
  }

  lemma NotYetFailed(w: Worker, q: seq<Frame>)
    requires !Absorbs(w, q).pc.WorkerFailed?
    ensures !w.pc.WorkerFailed?
  {
    if w.pc.WorkerFailed? {
      FailureIsAbsorbed(w, q);
    }
  }

  /**
   No check ever fails: no counter, tag, length, run, task-id, payload, timing or token check of
   the master or of any worker rejects anything, in any interleaving.
   */
  lemma NoCheckFails(p: Params, choices: seq<Choice>, k: nat)
    requires p.Valid() && p.Fits() && k < p.workers
    ensures !Reached(p, choices).m.pc.MasterFailed?
    ensures !Reached(p, choices).links[k].worker.pc.WorkerFailed?
  {
    ReachedInv(p, choices);
    var s := Reached(p, choices);
    assert LinkOk(p, ViewOf(s.m, k), s.links[k]);
    NotYetFailed(s.links[k].worker, s.links[k].down);
  }

  function Min(a: int, b: int): int { if a <= b then a else b }

  /** At every point of the polling loop the busy workers are as many as the open tasks allow. */
  lemma PollingKeepsWorkersBusy(p: Params, choices: seq<Choice>)
    requires p.Valid() && p.Fits() && Reached(p, choices).m.pc.Poll?
    ensures var plan := Reached(p, choices).m.plan;
            && Partition(plan)
            && plan.completed == |plan.done|
            && BusyCount(plan.busy) == Min(p.workers, p.config.count - plan.completed)
  {
    ReachedInv(p, choices);
    var plan := Reached(p, choices).m.plan;
    if plan.next < p.config.count {
      BusyCountAll(plan.busy, true);
    }
  }

  /** When the master starts sending END, every task of the run has been completed exactly once. */
  lemma EveryTaskOnce(p: Params, choices: seq<Choice>)
    requires p.Valid() && p.Fits()
    requires Reached(p, choices).m.pc.SendEnd? || Reached(p, choices).m.pc.Finished?
    ensures var plan := Reached(p, choices).m.plan;
            && |plan.done| == plan.completed == p.config.count
            && (forall i, j :: 0 <= i < j < |plan.done| ==> plan.done[i] != plan.done[j])
            && (forall id: nat :: id in plan.done <==> id < p.config.count)
            && NoneBusy(plan)
  {
    ReachedInv(p, choices);
    var plan := Reached(p, choices).m.plan;
    assert forall id: nat :: !Held(plan, id);
  }

  /** At every moment the counters of both ends differ by exactly the frames in flight, in each direction. */
  lemma CountersDifferByFlight(p: Params, choices: seq<Choice>, k: nat)
    requires p.Valid() && p.Fits() && k < p.workers
    ensures var l := Reached(p, choices).links[k];
            && l.sendCtr == l.worker.recvCtr + |l.down|
            && l.worker.sendCtr == l.recvCtr + |l.up|
  {
    ReachedInv(p, choices);
    var s := Reached(p, choices);
    assert LinkOk(p, ViewOf(s.m, k), s.links[k]);
  }

  /**
   * Between two runs, and after the last: no reply is pending, and a worker that has consumed what was sent to it,
   * the END of the run included, waits for the next run, or is done, with equal counters in both directions.
   */
  lemma RunEndAgrees(p: Params, choices: seq<Choice>, k: nat)
    requires p.Valid() && p.Fits() && k < p.workers
    requires Reached(p, choices).m.pc == SendControl(0) || Reached(p, choices).m.pc.Finished?
    ensures var s, l := Reached(p, choices), Reached(p, choices).links[k];
            && l.up == []
            && (l.down == [] ==>
                  && l.worker.pc == (if s.m.pc.Finished? then Done else AwaitControl)
                  && l.worker.run == s.m.run
                  && l.worker.recvCtr == l.sendCtr
                  && l.worker.sendCtr == l.recvCtr)
  {
    ReachedInv(p, choices);
    var s := Reached(p, choices);
    assert LinkOk(p, ViewOf(s.m, k), s.links[k]);
  }

  /** The workload is over: the master has sent every END and nothing is in flight to a worker. */
  ghost predicate Final(s: System) {
    s.m.pc.Finished? && forall k :: 0 <= k < |s.links| ==> s.links[k].down == []
  }

  /** In a final state every worker has consumed its last END and both ends agree on both counters. */
  lemma FinalAgrees(p: Params, choices: seq<Choice>, k: nat)
    requires p.Valid() && p.Fits() && k < p.workers && Final(Reached(p, choices))
    ensures var l := Reached(p, choices).links[k];
            && l.worker.pc == Done
            && l.worker.run == p.config.runs + 1
            && l.up == []
            && l.worker.recvCtr == l.sendCtr
            && l.worker.sendCtr == l.recvCtr
  {
    ReachedInv(p, choices);
    var s := Reached(p, choices);
    assert LinkOk(p, ViewOf(s.m, k), s.links[k]);
  }
}
