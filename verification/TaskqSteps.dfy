/** Every step of the master, and every step of a worker, keeps the invariant of the task queue. */
module TaskqSteps {
  import opened TaskqData
  import opened TaskqSystem
  import opened TaskqLinks
  import opened TaskqInvariant
  import opened Protocol

  /** The step appended one frame to worker `k`'s channel. */
  ghost predicate Pushed(s: System, s': System, k: nat) {
    && k < |s.links| == |s'.links|
    && s'.links == s.links[k := s'.links[k]]
    && s'.links[k].worker == s.links[k].worker
    && |s'.links[k].down| == |s.links[k].down| + 1
    && s'.links[k].up == s.links[k].up
  }

  /** The step consumed one frame from worker `k`. */
  ghost predicate Pulled(s: System, s': System, k: nat) {
    && k < |s.links| == |s'.links|
    && s'.links == s.links[k := s'.links[k]]
    && s'.links[k].worker == s.links[k].worker
    && s'.links[k].down == s.links[k].down
    && |s'.links[k].up| + 1 == |s.links[k].up|
  }

  /** A send to worker `k` keeps the invariant if the session and the master's bookkeeping fit the new view. */
  lemma PushKeepsInv(p: Params, s: System, k: nat, tag: int, b: Body, m': Master)
    requires p.Fits() && Inv(p, s) && k < p.workers
    requires |m'.plan.busy| == |m'.plan.assignedTask| == p.workers && Scheduled(p, m'.plan) && AtPc(p, m')
    requires 0 <= Remaining(p, m') == Remaining(p, s.m) - 1
    requires LinkOk(p, ViewOf(m', k), Push(s.links[k], tag, b))
    requires forall j :: 0 <= j < p.workers && j != k ==> ViewOf(m', j) == ViewOf(s.m, j)
    ensures var s' := SendTo(s, k, tag, b, m');
            && s' == WithLink(s, k, Push(s.links[k], tag, b), m')
            && Inv(p, s') && Pushed(s, s', k)
  {
    hide LinkOk;
    assert s.links[k].sendCtr + Remaining(p, s.m) <= p.Total();
    OneLinkChanged(p, s, WithLink(s, k, Push(s.links[k], tag, b), m'), k);
  }

  /** Likewise for a message taken from worker `k`. */
  lemma PullKeepsInv(p: Params, s: System, k: nat, m': Master)
    requires Inv(p, s) && k < p.workers && s.links[k].up != []
    requires |m'.plan.busy| == |m'.plan.assignedTask| == p.workers && Scheduled(p, m'.plan) && AtPc(p, m')
    requires Remaining(p, m') == Remaining(p, s.m)
    requires LinkOk(p, ViewOf(m', k), Pull(s.links[k], s.links[k].up[1..]))
    requires forall j :: 0 <= j < p.workers && j != k ==> ViewOf(m', j) == ViewOf(s.m, j)
    ensures var s' := WithLink(s, k, Pull(s.links[k], s.links[k].up[1..]), m');
            Inv(p, s') && Pulled(s, s', k)
  {
    hide LinkOk;
    OneLinkChanged(p, s, WithLink(s, k, Pull(s.links[k], s.links[k].up[1..]), m'), k);
  }

  lemma StepSendCmd(p: Params, s: System)
    requires p.Valid() && p.Fits() && Inv(p, s) && s.m.pc.SendCmd?
    ensures var s' := MasterStep(p, s);
            Inv(p, s') && Pushed(s, s', s.m.pc.k) && Remaining(p, s'.m) == Remaining(p, s.m) - 1
  {
    hide LinkOk;
    var k := s.m.pc.k;
    var m' := s.m.(pc := if k + 1 < p.workers then SendCmd(k + 1) else AwaitReady(0));
    PushCmd(p, s.links[k]);
    PushKeepsInv(p, s, k, TAG_NPB_CMD, Cmd(p.config), m');
  }

  /** Starting a run resets the schedule. */
  lemma RunStarts(p: Params, m: Master, run: nat)
    requires p.Valid() && 1 <= run <= p.config.runs
    ensures var m' := MasterAtRun(p, m, run);
            Scheduled(p, m'.plan) && AtPc(p, m')
  {
    BusyCountAll(seq(p.workers, i => false), false);
  }

  lemma StepAwaitReadyOk(p: Params, s: System)
    requires p.Valid() && p.Fits() && Inv(p, s) && s.m.pc.AwaitReady?
    ensures Inv(p, MasterStep(p, s))
    ensures s.links[s.m.pc.k].up == [] ==> MasterStep(p, s) == s
    ensures s.links[s.m.pc.k].up != [] ==> Pulled(s, MasterStep(p, s), s.m.pc.k)
    ensures Remaining(p, MasterStep(p, s).m) == Remaining(p, s.m)
  {
    hide LinkOk;
    var k := s.m.pc.k;
    if s.links[k].up != [] {
      PullReady(p, s.links[k]);
      RunStarts(p, s.m, 1);
      assert RunsLeft(p, 0) == p.PerRun() + RunsLeft(p, 1);
      assert s.links[k].up[1..] == [];
      PullKeepsInv(p, s, k, if k + 1 < p.workers then s.m.(pc := AwaitReady(k + 1)) else MasterAtRun(p, s.m, 1));
    }
  }

  lemma StepSendControl(p: Params, s: System)
    requires p.Valid() && p.Fits() && Inv(p, s) && s.m.pc.SendControl?
    ensures var s' := MasterStep(p, s);
            Inv(p, s') && Pushed(s, s', s.m.pc.k) && Remaining(p, s'.m) == Remaining(p, s.m) - 1
  {
    hide LinkOk;
    var k := s.m.pc.k;
    var m' := s.m.(pc := if k + 1 < p.workers then SendControl(k + 1) else Initial(0));
    PushControl(p, s.links[k], s.m.run);
    PushKeepsInv(p, s, k, TAG_TASKQ_CONTROL, Control(TASKQ_CONTROL_START, s.m.run), m');
  }

  lemma StepInitialSkip(p: Params, s: System)
    requires p.Valid() && Inv(p, s) && s.m.pc.Initial?
    requires s.m.pc.k == p.workers || s.m.plan.next >= p.config.count
    ensures Inv(p, MasterStep(p, s)) && MasterStep(p, s).links == s.links
    ensures Remaining(p, MasterStep(p, s).m) == Remaining(p, s.m)
  {
    var s' := MasterStep(p, s);
    forall j | 0 <= j < p.workers ensures ViewOf(s'.m, j) == ViewOf(s.m, j) {
    }
  }

  lemma StepInitial(p: Params, s: System)
    requires p.Valid() && p.Fits() && Inv(p, s) && s.m.pc.Initial?
    requires s.m.pc.k < p.workers && s.m.plan.next < p.config.count
    ensures var s' := MasterStep(p, s);
            Inv(p, s') && Pushed(s, s', s.m.pc.k) && Remaining(p, s'.m) == Remaining(p, s.m) - 1
  {
    hide LinkOk;
    var k := s.m.pc.k;
    var m' := s.m.(pc := InitialInput(k));
    PushWork(p, s.links[k], s.m.run, s.m.plan.next);
    PushKeepsInv(p, s, k, TAG_TASKQ_TASK, WorkBody(p, s.m.run, s.m.plan.next), m');
  }

  lemma StepInitialInput(p: Params, s: System)
    requires p.Valid() && p.Fits() && Inv(p, s) && s.m.pc.InitialInput?
    ensures var s' := MasterStep(p, s);
            Inv(p, s') && Pushed(s, s', s.m.pc.k) && Remaining(p, s'.m) == Remaining(p, s.m) - 1
  {
    hide LinkOk, Partition;
    var k := s.m.pc.k;
    var m' := Master(Initial(k + 1), s.m.run, Assign(s.m.plan, k));
    AssignKeepsSchedule(p, s.m.plan, k);
    PushInput(p, s.links[k], s.m.run, s.m.plan.next);
    PushKeepsInv(p, s, k, TAG_TASKQ_INPUT, Payload(InputBytes(s.m.plan.next, s.m.run, p.config.bytes)), m');
  }

  lemma StepReassign(p: Params, s: System)
    requires p.Valid() && p.Fits() && Inv(p, s) && s.m.pc.Reassign?
    ensures var s' := MasterStep(p, s);
            Inv(p, s') && Pushed(s, s', s.m.pc.k) && Remaining(p, s'.m) == Remaining(p, s.m) - 1
  {
    hide LinkOk;
    var k := s.m.pc.k;
    var m' := s.m.(pc := ReassignInput(k));
    PushWork(p, s.links[k], s.m.run, s.m.plan.next);
    PushKeepsInv(p, s, k, TAG_TASKQ_TASK, WorkBody(p, s.m.run, s.m.plan.next), m');
  }

  lemma StepReassignInput(p: Params, s: System)
    requires p.Valid() && p.Fits() && Inv(p, s) && s.m.pc.ReassignInput?
    ensures var s' := MasterStep(p, s);
            Inv(p, s') && Pushed(s, s', s.m.pc.k) && Remaining(p, s'.m) == Remaining(p, s.m) - 1
  {
    hide LinkOk, Partition;
    var k := s.m.pc.k;
    var m' := Master(Poll(k + 1), s.m.run, Assign(s.m.plan, k));
    AssignKeepsSchedule(p, s.m.plan, k);
    PushInput(p, s.links[k], s.m.run, s.m.plan.next);
    PushKeepsInv(p, s, k, TAG_TASKQ_INPUT, Payload(InputBytes(s.m.plan.next, s.m.run, p.config.bytes)), m');
  }

  /** The sweep ends only when every issued id has been completed. */
  lemma SweepOver(p: Params, plan: Schedule)
    requires Scheduled(p, plan) && (plan.next < p.config.count ==> AllBusy(plan)) && p.workers > 0
    requires plan.completed >= p.config.count
    ensures plan.completed == plan.next == p.config.count && NoneBusy(plan)
  {
    forall j | 0 <= j < |plan.busy| ensures !plan.busy[j] {
      BusyCountUpdate(plan.busy, j, false);
    }
  }

  /** The outcome of one look at worker `k`, given that the look is legitimate. */
  lemma StepPollSkip(p: Params, s: System)
    requires p.Valid() && Inv(p, s) && s.m.pc.Poll?
    requires s.m.pc.k == p.workers || !s.m.plan.busy[s.m.pc.k] || s.links[s.m.pc.k].up == []
    ensures Inv(p, MasterStep(p, s)) && MasterStep(p, s).links == s.links
    ensures Remaining(p, MasterStep(p, s).m) <= Remaining(p, s.m)
    ensures MasterStep(p, s).m.pc ==
              if s.m.pc.k < p.workers then Poll(s.m.pc.k + 1)
              else if s.m.plan.completed < p.config.count then Poll(0) else SendEnd(0)
    ensures MasterStep(p, s) == s.(m := s.m.(pc := MasterStep(p, s).m.pc))
  {
    var s' := MasterStep(p, s);
    if s.m.pc.k == p.workers && s.m.plan.completed >= p.config.count {
      SweepOver(p, s.m.plan);
    }
    forall j | 0 <= j < p.workers ensures ViewOf(s'.m, j) == ViewOf(s.m, j) {
    }
  }

  lemma StepPollTake(p: Params, s: System)
    requires p.Valid() && Inv(p, s) && s.m.pc.Poll?
    requires s.m.pc.k < p.workers && s.m.plan.busy[s.m.pc.k] && s.links[s.m.pc.k].up != []
    ensures Inv(p, MasterStep(p, s)) && Pulled(s, MasterStep(p, s), s.m.pc.k)
    ensures Remaining(p, MasterStep(p, s).m) == Remaining(p, s.m) && MasterStep(p, s).m.pc.AwaitOutput?
  {
    hide LinkOk;
    var k := s.m.pc.k;
    PullResult(p, s.links[k], s.m.run, s.m.plan.assignedTask[k]);
    PullKeepsInv(p, s, k, s.m.(pc := AwaitOutput(k, s.links[k].up[0].body.result)));
  }

  lemma StepAwaitOutputTake(p: Params, s: System)
    requires p.Valid() && Inv(p, s) && s.m.pc.AwaitOutput? && s.links[s.m.pc.k].up != []
    ensures Inv(p, MasterStep(p, s)) && Pulled(s, MasterStep(p, s), s.m.pc.k)
    ensures Remaining(p, MasterStep(p, s).m) == Remaining(p, s.m)
    ensures MasterStep(p, s).m.pc.Reassign? || MasterStep(p, s).m.pc.Poll?
  {
    hide LinkOk, Partition;
    var k := s.m.pc.k;
    PullOutput(p, s.links[k], s.m.run, s.m.plan.assignedTask[k], s.m.pc.result);
    CompleteKeepsSchedule(p, s.m.plan, k);
    var plan := Complete(s.m.plan, k, s.m.pc.result.id);
    assert s.links[k].up[1..] == [];
    PullKeepsInv(p, s, k, Master(if plan.next < p.config.count then Reassign(k) else Poll(k + 1), s.m.run, plan));
  }

  lemma StepSendEnd(p: Params, s: System)
    requires p.Valid() && p.Fits() && Inv(p, s) && s.m.pc.SendEnd?
    ensures var s' := MasterStep(p, s);
            Inv(p, s') && Pushed(s, s', s.m.pc.k) && Remaining(p, s'.m) == Remaining(p, s.m) - 1
  {
    hide LinkOk;
    if s.m.pc.k + 1 < p.workers {
      StepSendEndMore(p, s);
    } else {
      StepSendEndLast(p, s);
    }
  }

  lemma StepSendEndMore(p: Params, s: System)
    requires p.Valid() && p.Fits() && Inv(p, s) && s.m.pc.SendEnd? && s.m.pc.k + 1 < p.workers
    ensures var s' := MasterStep(p, s);
            Inv(p, s') && Pushed(s, s', s.m.pc.k) && Remaining(p, s'.m) == Remaining(p, s.m) - 1
  {
    hide LinkOk;
    var k := s.m.pc.k;
    PushEnd(p, s.links[k], s.m.run);
    PushKeepsInv(p, s, k, TAG_TASKQ_TASK, EndBody(s.m.run), s.m.(pc := SendEnd(k + 1)));
  }

  lemma StepSendEndLast(p: Params, s: System)
    requires p.Valid() && p.Fits() && Inv(p, s) && s.m.pc.SendEnd? && s.m.pc.k + 1 >= p.workers
    ensures var s' := MasterStep(p, s);
            Inv(p, s') && Pushed(s, s', s.m.pc.k) && Remaining(p, s'.m) == Remaining(p, s.m) - 1
  {
    hide LinkOk;
    if s.m.run < p.config.runs {
      StepSendEndNextRun(p, s);
    } else {
      StepSendEndFinish(p, s);
    }
  }

  lemma StepSendEndNextRun(p: Params, s: System)
    requires p.Valid() && p.Fits() && Inv(p, s) && s.m.pc.SendEnd? && s.m.pc.k + 1 >= p.workers
    requires s.m.run < p.config.runs
    ensures var s' := MasterStep(p, s);
            Inv(p, s') && Pushed(s, s', s.m.pc.k) && Remaining(p, s'.m) == Remaining(p, s.m) - 1
  {
    hide LinkOk;
    var k := s.m.pc.k;
    PushEnd(p, s.links[k], s.m.run);
    RunStarts(p, s.m, s.m.run + 1);
    assert RunsLeft(p, s.m.run) == p.PerRun() + RunsLeft(p, s.m.run + 1);
    PushKeepsInv(p, s, k, TAG_TASKQ_TASK, EndBody(s.m.run), MasterAtRun(p, s.m, s.m.run + 1));
  }

  lemma StepSendEndFinish(p: Params, s: System)
    requires p.Valid() && p.Fits() && Inv(p, s) && s.m.pc.SendEnd? && s.m.pc.k + 1 >= p.workers
    requires s.m.run >= p.config.runs
    ensures var s' := MasterStep(p, s);
            Inv(p, s') && Pushed(s, s', s.m.pc.k) && Remaining(p, s'.m) == Remaining(p, s.m) - 1
  {
    hide LinkOk;
    var k := s.m.pc.k;
    PushEnd(p, s.links[k], s.m.run);
    PushKeepsInv(p, s, k, TAG_TASKQ_TASK, EndBody(s.m.run), MasterAtRun(p, s.m, s.m.run + 1));
  }

  lemma MasterKeepsInv(p: Params, s: System)
    requires p.Valid() && p.Fits() && Inv(p, s)
    ensures Inv(p, MasterStep(p, s))
  {
    match s.m.pc
    case SendCmd(_) => StepSendCmd(p, s);
    case AwaitReady(_) => StepAwaitReadyOk(p, s);
    case SendControl(_) => StepSendControl(p, s);
    case Initial(k) =>
      if k == p.workers || s.m.plan.next >= p.config.count { StepInitialSkip(p, s); } else { StepInitial(p, s); }
    case InitialInput(_) => StepInitialInput(p, s);
    case Poll(k) =>
      if k == p.workers || !s.m.plan.busy[k] || s.links[k].up == [] { StepPollSkip(p, s); } else { StepPollTake(p, s); }
    case AwaitOutput(k, _) =>
      if s.links[k].up != [] { StepAwaitOutputTake(p, s); }
    case Reassign(_) => StepReassign(p, s);
    case ReassignInput(_) => StepReassignInput(p, s);
    case SendEnd(_) => StepSendEnd(p, s);
    case Finished =>
  }

  lemma RemoteKeepsInv(p: Params, s: System, k: nat, elapsed: Elapsed, held: bool)
    requires p.Valid() && p.Fits() && Inv(p, s) && k < p.workers
    ensures Inv(p, Step(p, s, Remote(k, elapsed, held)))
  {
    var s' := Step(p, s, Remote(k, elapsed, held));
    if s' != s {
      assert s.links[k].sendCtr + Remaining(p, s.m) <= p.Total();
      WorkerKeepsLink(p, ViewOf(s.m, k), s.links[k], elapsed);
      WorkerKeepsCounter(s.links[k], elapsed);
      OneLinkChanged(p, s, s', k);
    }
  }

  lemma WorkerKeepsCounter(l: Link, elapsed: Elapsed)
    ensures WorkerStep(l, elapsed).sendCtr == l.sendCtr && WorkerStep(l, elapsed).recvCtr == l.recvCtr
  {
  }

  lemma StepKeepsInv(p: Params, s: System, c: Choice)
    requires p.Valid() && p.Fits() && Inv(p, s)
    ensures Inv(p, Step(p, s, c))
  {
    hide MasterWaits;
    match c
    case Central(_) => MasterKeepsInv(p, s);
    case Remote(k, elapsed, held) => if k < p.workers { RemoteKeepsInv(p, s, k, elapsed, held); }
  }
}
