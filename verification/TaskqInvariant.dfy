/** The invariant of the whole task queue, and its preservation by every step of every interleaving. */
module TaskqInvariant {
  import opened TaskqData
  import opened TaskqSystem
  import opened TaskqLinks

  // --------------------------------------------------------------- the master's schedule

  function BusyCount(busy: seq<bool>): (n: nat)
    ensures n <= |busy|
  {
    if busy == [] then 0 else BusyCount(busy[..|busy| - 1]) + if busy[|busy| - 1] then 1 else 0
  }

  lemma {:induction false} BusyCountUpdate(busy: seq<bool>, k: nat, b: bool)
    requires k < |busy|
    ensures BusyCount(busy[k := b]) == BusyCount(busy) - (if busy[k] then 1 else 0) + (if b then 1 else 0)
  {
    var last := |busy| - 1;
    if k == last {
      assert busy[k := b][..last] == busy[..last];
    } else {
      assert busy[k := b][..last] == busy[..last][k := b];
      BusyCountUpdate(busy[..last], k, b);
    }
  }

  lemma {:induction false} BusyCountAll(busy: seq<bool>, b: bool)
    requires forall k :: 0 <= k < |busy| ==> busy[k] == b
    ensures BusyCount(busy) == if b then |busy| else 0
  {
    if busy != [] {
      BusyCountAll(busy[..|busy| - 1], b);
    }
  }

  ghost predicate HeldBy(plan: Schedule, id: nat, k: nat)
    requires |plan.busy| == |plan.assignedTask|
  {
    k < |plan.busy| && plan.busy[k] && plan.assignedTask[k] == id
  }

  ghost predicate Held(plan: Schedule, id: nat)
    requires |plan.busy| == |plan.assignedTask|
  {
    exists k :: HeldBy(plan, id, k)
  }

  /** The completed ids and the ids held by busy workers partition `0..next`. */
  ghost predicate Partition(plan: Schedule) {
    && |plan.busy| == |plan.assignedTask|
    && (forall i :: 0 <= i < |plan.done| ==> plan.done[i] < plan.next)
    && (forall i, j :: 0 <= i < j < |plan.done| ==> plan.done[i] != plan.done[j])
    && (forall k :: 0 <= k < |plan.busy| && plan.busy[k] ==>
          plan.assignedTask[k] < plan.next && plan.assignedTask[k] !in plan.done)
    && (forall j, k :: 0 <= j < k < |plan.busy| && plan.busy[j] && plan.busy[k] ==>
          plan.assignedTask[j] != plan.assignedTask[k])
    && (forall id: nat :: id < plan.next ==> id in plan.done || Held(plan, id))
  }

  ghost predicate Scheduled(p: Params, plan: Schedule) {
    && |plan.busy| == |plan.assignedTask| == p.workers
    && Partition(plan)
    && plan.completed == |plan.done|
    && plan.next <= p.config.count
    && plan.completed + BusyCount(plan.busy) == plan.next
  }

  /** Handing the next id to an idle worker keeps the partition. */
  lemma AssignKeepsSchedule(p: Params, plan: Schedule, k: nat)
    requires Scheduled(p, plan) && k < p.workers && !plan.busy[k] && plan.next < p.config.count
    ensures Scheduled(p, Assign(plan, k))
  {
    var plan' := Assign(plan, k);
    BusyCountUpdate(plan.busy, k, true);
    assert HeldBy(plan', plan.next, k);
    forall id: nat | id < plan'.next ensures id in plan'.done || Held(plan', id) {
      if id < plan.next && id !in plan.done {
        var j :| HeldBy(plan, id, j);
        assert HeldBy(plan', id, j);
      }
    }
  }

  /** Accepting a busy worker's own id keeps the partition. */
  lemma CompleteKeepsSchedule(p: Params, plan: Schedule, k: nat)
    requires Scheduled(p, plan) && k < p.workers && plan.busy[k]
    ensures Scheduled(p, Complete(plan, k, plan.assignedTask[k]))
  {
    var plan' := Complete(plan, k, plan.assignedTask[k]);
    BusyCountUpdate(plan.busy, k, false);
    assert plan'.done[|plan.done|] == plan.assignedTask[k];
    forall id: nat | id < plan'.next ensures id in plan'.done || Held(plan', id) {
      if id in plan.done {
        var i :| 0 <= i < |plan.done| && plan.done[i] == id;
        assert plan'.done[i] == id;
      } else if id != plan.assignedTask[k] {
        var j :| HeldBy(plan, id, j);
        assert HeldBy(plan', id, j);
      }
    }
  }

  ghost predicate NoneBusy(plan: Schedule) {
    forall j :: 0 <= j < |plan.busy| ==> !plan.busy[j]
  }

  ghost predicate AllBusy(plan: Schedule) {
    forall j :: 0 <= j < |plan.busy| ==> plan.busy[j]
  }

  ghost predicate OnlyIdle(plan: Schedule, k: nat) {
    forall j :: 0 <= j < |plan.busy| ==> (plan.busy[j] <==> j != k)
  }

  ghost predicate FirstBusy(plan: Schedule, k: nat) {
    forall j :: 0 <= j < |plan.busy| ==> (plan.busy[j] <==> j < k)
  }

  ghost predicate NothingSent(plan: Schedule) {
    NoneBusy(plan) && plan.next == plan.completed == 0 && plan.done == []
  }

  /** What holds of the schedule at each program point of the master. */
  ghost predicate AtPc(p: Params, m: Master)
    requires |m.plan.busy| == |m.plan.assignedTask| == p.workers
  {
    var n, count := p.workers, p.config.count;
    match m.pc
    case SendCmd(k) => k < n && m.run == 0 && NothingSent(m.plan)
    case AwaitReady(k) => k < n && m.run == 0 && NothingSent(m.plan)
    case SendControl(k) => k < n && 1 <= m.run <= p.config.runs && NothingSent(m.plan)
    case Initial(k) =>
      && k <= n && 1 <= m.run <= p.config.runs
      && m.plan.completed == 0 && m.plan.next == (if k <= count then k else count) && FirstBusy(m.plan, m.plan.next)
    case InitialInput(k) =>
      && k < n && 1 <= m.run <= p.config.runs
      && m.plan.completed == 0 && m.plan.next == k < count && FirstBusy(m.plan, k)
    case Poll(k) => k <= n && 1 <= m.run <= p.config.runs && (m.plan.next < count ==> AllBusy(m.plan))
    case AwaitOutput(k, r) =>
      && k < n && 1 <= m.run <= p.config.runs && (m.plan.next < count ==> AllBusy(m.plan))
      && m.plan.busy[k] && r.id == m.plan.assignedTask[k]
    case Reassign(k) => k < n && 1 <= m.run <= p.config.runs && m.plan.next < count && OnlyIdle(m.plan, k)
    case ReassignInput(k) => k < n && 1 <= m.run <= p.config.runs && m.plan.next < count && OnlyIdle(m.plan, k)
    case SendEnd(k) =>
      && k < n && 1 <= m.run <= p.config.runs
      && m.plan.completed == m.plan.next == count && NoneBusy(m.plan)
    case Finished => m.run == p.config.runs + 1 && m.plan.completed == m.plan.next == count && NoneBusy(m.plan)
    case MasterFailed => false
  }

  // ----------------------------------------------------------------- frames still to come

  function RunsLeft(p: Params, run: nat): nat
    decreases p.config.runs - run
  {
    if run >= p.config.runs then 0 else p.PerRun() + RunsLeft(p, run + 1)
  }

  lemma {:induction false} RunsLeftIsProduct(p: Params, run: nat)
    requires run <= p.config.runs
    ensures RunsLeft(p, run) == (p.config.runs - run) * p.PerRun()
    decreases p.config.runs - run
  {
    if run < p.config.runs {
      RunsLeftIsProduct(p, run + 1);
    }
  }

  /** Frames the master has yet to send in this run. */
  function DueInRun(p: Params, m: Master): int {
    var n, count := p.workers, p.config.count;
    match m.pc
    case SendCmd(k) => n - k
    case AwaitReady(k) => 0
    case SendControl(k) => n - k + 2 * count + n
    case Initial(k) => 2 * (count - m.plan.next) + n
    case InitialInput(k) => 2 * (count - m.plan.next) - 1 + n
    case Poll(k) => 2 * (count - m.plan.next) + n
    case AwaitOutput(k, r) => 2 * (count - m.plan.next) + n
    case Reassign(k) => 2 * (count - m.plan.next) + n
    case ReassignInput(k) => 2 * (count - m.plan.next) - 1 + n
    case SendEnd(k) => n - k
    case Finished => 0
    case MasterFailed => 0
  }

  function Remaining(p: Params, m: Master): int {
    DueInRun(p, m) + RunsLeft(p, m.run)
  }

  // -------------------------------------------------------------------- the invariant

  function ViewOf(m: Master, k: nat): View
    requires k < |m.plan.busy| && k < |m.plan.assignedTask|
  {
    var plain := if m.plan.busy[k] then Working(m.run, m.plan.assignedTask[k]) else Idle(m.run);
    match m.pc
    case SendCmd(j) => if k < j then Booting else Unstarted
    case AwaitReady(j) => if k < j then BeforeRun(1) else Booting
    case SendControl(j) => if k < j then Idle(m.run) else BeforeRun(m.run)
    case InitialInput(j) => if k == j then HalfSent(m.run, m.plan.next) else plain
    case ReassignInput(j) => if k == j then HalfSent(m.run, m.plan.next) else plain
    case AwaitOutput(j, r) => if k == j then OutputDue(m.run, m.plan.assignedTask[k], r) else plain
    case SendEnd(j) => if k < j then BeforeRun(m.run + 1) else Idle(m.run)
    case Finished => BeforeRun(m.run)
    case _ => plain
  }

  ghost predicate LinksOk(p: Params, s: System)
    requires Shaped(p, s)
  {
    forall k :: 0 <= k < p.workers ==> LinkOk(p, ViewOf(s.m, k), s.links[k])
  }

  ghost predicate CountersFit(p: Params, s: System) {
    forall k :: 0 <= k < |s.links| ==> s.links[k].sendCtr + Remaining(p, s.m) <= p.Total()
  }

  ghost predicate Inv(p: Params, s: System) {
    && Shaped(p, s)
    && Scheduled(p, s.m.plan)
    && AtPc(p, s.m)
    && Remaining(p, s.m) >= 0
    && CountersFit(p, s)
    && LinksOk(p, s)
  }

  lemma InitInv(p: Params)
    requires p.Valid()
    ensures Inv(p, Init(p))
  {
    var s := Init(p);
    BusyCountAll(s.m.plan.busy, false);
    RunsLeftIsProduct(p, 0);
    forall k | 0 <= k < p.workers ensures LinkOk(p, ViewOf(s.m, k), s.links[k]) {
      assert Absorbs(s.links[k].worker, s.links[k].down) == s.links[k].worker;
    }
  }

  /** A step that changes only worker `k`'s session and the master's view of `k`. */
  lemma OneLinkChanged(p: Params, s: System, s': System, k: nat)
    requires Inv(p, s) && Shaped(p, s') && k < p.workers
    requires s'.links == s.links[k := s'.links[k]]
    requires forall j :: 0 <= j < p.workers && j != k ==> ViewOf(s'.m, j) == ViewOf(s.m, j)
    requires LinkOk(p, ViewOf(s'.m, k), s'.links[k])
    requires s'.links[k].sendCtr - s.links[k].sendCtr <= Remaining(p, s.m) - Remaining(p, s'.m)
    requires Remaining(p, s'.m) <= Remaining(p, s.m)
    ensures LinksOk(p, s') && CountersFit(p, s')
  {
  }
}
