/**
 The task queue as a step system: one master and its workers over tagged FIFO channels.

 A frame is an authenticated message, carrying the counter its sender assigned. A blocking receive
 takes the earliest frame with the requested tag, as MPI does, and then checks length and counter. A
 blocking send puts its frame into the channel, and may or may not hold its sender back until the frame
 is received. Any sequence of choices of who moves next is an interleaving.
 */
module TaskqSystem {
  import opened Bits
  import opened Xorshift
  import opened TaskqData
  import opened Protocol

  datatype Frame = Frame(ctr: nat, tag: int, body: Body)

  /** The master's parameters: the commanded configuration and the precomputed jump. */
  datatype Params = Params(workers: nat, config: Config, jump: seq<Word>) {
    ghost predicate Valid() {
      && 1 <= workers <= MAX_WORKERS
      && 1 <= config.runs <= MAX_RUNS
      && 1 <= config.count <= U64_MAX
      && TASKQ_MIN_BYTES <= config.bytes <= TASKQ_MAX_BYTES
      && 1 <= config.iters <= U64_MAX
      && IsJump(jump, config.iters)
    }

    /** Frames the master sends in one run, and over the whole workload. */
    function PerRun(): nat { 2 * workers + 2 * config.count }

    function Total(): nat { workers + config.runs * PerRun() }

    /** The nonce space of every session outlasts the workload. */
    ghost predicate Fits() { Total() <= U64_MAX }
  }

  // -------------------------------------------------------------------------- receiving

  datatype Taken = Blocked | Bad | Got(body: Body, rest: seq<Frame>)

  function FirstWithTag(q: seq<Frame>, tag: int): (i: nat)
    ensures i <= |q|
    ensures i < |q| ==> q[i].tag == tag
  {
    if q == [] then 0 else if q[0].tag == tag then 0 else 1 + FirstWithTag(q[1..], tag)
  }

  /** A blocking receive of `len` bytes under `tag` at counter `ctr`. */
  function Take(q: seq<Frame>, ctr: nat, tag: int, len: nat): Taken {
    var i := FirstWithTag(q, tag);
    if i == |q| then Blocked
    else if Length(q[i].body) != len || q[i].ctr != ctr then Bad
    else Got(q[i].body, q[..i] + q[i + 1..])
  }

  // ------------------------------------------------------------------------- the worker

  datatype WorkerPc =
    | AwaitCmd
    | SendRefusal
    | SendReady
    | AwaitControl
    | AwaitTask
    | AwaitInput(id: nat)
    | SendResult(work: Work)
    | SendOutput(output: seq<Octet>)
    | Done
    | WorkerFailed

  datatype Worker = Worker(pc: WorkerPc, config: Config, run: nat, sendCtr: nat, recvCtr: nat)

  /** The tag and length of the receive the worker is blocked in, if it is in one. */
  predicate Receiving(w: Worker) {
    w.pc.AwaitCmd? || w.pc.AwaitControl? || w.pc.AwaitTask? || w.pc.AwaitInput?
  }

  function WantTag(w: Worker): int
    requires Receiving(w)
  {
    match w.pc
    case AwaitCmd => TAG_NPB_CMD
    case AwaitControl => TAG_TASKQ_CONTROL
    case AwaitTask => TAG_TASKQ_TASK
    case AwaitInput(_) => TAG_TASKQ_INPUT
  }

  function WantLength(w: Worker): nat
    requires Receiving(w)
  {
    match w.pc
    case AwaitCmd => CMD_SIZE
    case AwaitControl => CONTROL_SIZE
    case AwaitTask => TASK_SIZE
    case AwaitInput(_) => w.config.bytes
  }

  /** The state in which run `run` starts, or the workload ends. */
  function AtRun(w: Worker, run: nat): Worker {
    w.(run := run, pc := if run <= w.config.runs then AwaitControl else Done)
  }

  /** The worker's checks and effects for one received body. */
  function OnBody(w: Worker, b: Body): Worker
    requires Receiving(w)
  {
    var failed := w.(pc := WorkerFailed);
    match w.pc
    case AwaitCmd =>
      if !b.Cmd? then failed
      else if b.config.bytes < TASKQ_MIN_BYTES || b.config.bytes > TASKQ_MAX_BYTES || b.config.count == 0
              || b.config.iters == 0
      then w.(pc := SendRefusal)
      else w.(config := b.config, pc := SendReady)
    case AwaitControl =>
      if b.Control? && b.command == TASKQ_CONTROL_START && b.run == w.run then w.(pc := AwaitTask) else failed
    case AwaitTask =>
      if !b.Task? then failed
      else if b.command == TASKQ_TASK_END then
        if b.run == w.run then AtRun(w, w.run + 1) else failed
      else if b.command != TASKQ_TASK_WORK || b.run != w.run || b.id >= w.config.count
              || b.bytes != w.config.bytes || b.iterations != w.config.iters
      then failed
      else w.(pc := AwaitInput(b.id))
    case AwaitInput(id) =>
      if b.Payload? && |b.data| == w.config.bytes && |b.data| > 0
      then w.(pc := SendResult(Compute(w.config, id, w.run, b.data)))
      else failed
  }

  /** A session: the worker, both channels, and the master's two counters for it. */
  datatype Link = Link(worker: Worker, down: seq<Frame>, up: seq<Frame>, sendCtr: nat, recvCtr: nat)

  /** Sends one message and continues as `w'`; aborts when the nonce space is exhausted. */
  function Emit(l: Link, tag: int, b: Body, w': Worker): Link {
    if l.worker.sendCtr == U64_MAX then l.(worker := l.worker.(pc := WorkerFailed))
    else l.(worker := w'.(sendCtr := l.worker.sendCtr + 1), up := l.up + [Frame(l.worker.sendCtr, tag, b)])
  }

  /** One worker step: a receive with its local computation, or one send. */
  function WorkerStep(l: Link, elapsed: Elapsed): Link {
    var w := l.worker;
    if Receiving(w) then
      match Take(l.down, w.recvCtr, WantTag(w), WantLength(w))
      case Blocked => l
      case Bad => l.(worker := w.(pc := WorkerFailed))
      case Got(b, rest) => l.(worker := OnBody(w.(recvCtr := w.recvCtr + 1), b), down := rest)
    else
      match w.pc
      case SendRefusal => Emit(l, TAG_TASKQ_READY, Ready(false, 0), w.(pc := WorkerFailed))
      case SendReady => Emit(l, TAG_TASKQ_READY, Ready(true, w.config.bytes), AtRun(w, 1))
      case SendResult(work) =>
        Emit(l, TAG_TASKQ_RESULT,
             Reply(TaskResult(w.run, work.verified, work.id, work.token, w.config.bytes, Finite(elapsed))),
             w.(pc := SendOutput(work.output)))
      case SendOutput(output) => Emit(l, TAG_TASKQ_OUTPUT, Payload(output), w.(pc := AwaitTask))
      case _ => l
  }

  // ------------------------------------------------------------------------- the master

  datatype MasterPc =
    | SendCmd(k: nat)
    | AwaitReady(k: nat)
    | SendControl(k: nat)
    | Initial(k: nat)
    | InitialInput(k: nat)
    | Poll(k: nat)
    | AwaitOutput(k: nat, result: TaskResult)
    | Reassign(k: nat)
    | ReassignInput(k: nat)
    | SendEnd(k: nat)
    | Finished
    | MasterFailed

  /** The master's per-run bookkeeping; `done` lists the accepted task ids in order. */
  datatype Schedule = Schedule(busy: seq<bool>, assignedTask: seq<nat>, next: nat, completed: nat, done: seq<nat>)

  datatype Master = Master(pc: MasterPc, run: nat, plan: Schedule)

  datatype System = System(m: Master, links: seq<Link>)

  function Push(l: Link, tag: int, b: Body): Link {
    l.(sendCtr := l.sendCtr + 1, down := l.down + [Frame(l.sendCtr, tag, b)])
  }

  function Pull(l: Link, rest: seq<Frame>): Link {
    l.(recvCtr := l.recvCtr + 1, up := rest)
  }

  function WorkBody(p: Params, run: nat, id: nat): Body {
    Task(TASKQ_TASK_WORK, run, id, p.config.iters, p.config.bytes)
  }

  function EndBody(run: nat): Body {
    Task(TASKQ_TASK_END, run, U64_MAX, 0, 0)
  }

  /** The master's checks on a result header. */
  predicate HeaderOk(p: Params, run: nat, task: nat, r: TaskResult) {
    && r.run == run
    && r.verified
    && r.id == task
    && r.bytes == p.config.bytes
    && r.time.Finite? && r.time.ms >= 0.0
  }

  /** The master's checks on the token and on the sampled output bytes. */
  predicate OutputOk(p: Params, run: nat, r: TaskResult, output: seq<Octet>)
    requires |p.jump| == 64 && |output| > 0
  {
    var expected := Apply(p.jump, InitialToken(r.id, run));
    r.token == expected && OutputSampled(output, expected, r.id, run)
  }

  /** Bookkeeping for an accepted result of worker `k`. */
  function Complete(plan: Schedule, k: nat, id: nat): Schedule
    requires k < |plan.busy|
  {
    plan.(completed := plan.completed + 1, busy := plan.busy[k := false], done := plan.done + [id])
  }

  /** Bookkeeping once worker `k` has been sent the next task. */
  function Assign(plan: Schedule, k: nat): Schedule
    requires k < |plan.busy| && k < |plan.assignedTask|
  {
    plan.(assignedTask := plan.assignedTask[k := plan.next], next := plan.next + 1, busy := plan.busy[k := true])
  }

  /** The local arrays and counters at the start of a run. */
  function NewPlan(workers: nat): Schedule {
    Schedule(seq(workers, i => false), seq(workers, i => 0), 0, 0, [])
  }

  /** The state in which run `run` starts, or the workload ends. */
  function MasterAtRun(p: Params, m: Master, run: nat): Master {
    if run <= p.config.runs
    then Master(SendControl(0), run, NewPlan(p.workers))
    else m.(pc := Finished, run := run)
  }

  function Failed(s: System): System {
    s.(m := s.m.(pc := MasterFailed))
  }

  function WithLink(s: System, k: nat, l: Link, m: Master): System
    requires k < |s.links|
  {
    System(m, s.links[k := l])
  }

  function SendTo(s: System, k: nat, tag: int, b: Body, m: Master): System
    requires k < |s.links|
  {
    if s.links[k].sendCtr == U64_MAX then Failed(s)
    else WithLink(s, k, Push(s.links[k], tag, b), m)
  }

  /** The system has one link and one entry of every per-worker array for each worker. */
  predicate Shaped(p: Params, s: System) {
    && |p.jump| == 64
    && p.workers > 0
    && p.config.bytes > 0
    && |s.links| == |s.m.plan.busy| == |s.m.plan.assignedTask| == p.workers
  }

  function StepAwaitReady(p: Params, s: System, k: nat): (s': System)
    requires Shaped(p, s) && k < p.workers
    ensures Shaped(p, s')
  {
    match Take(s.links[k].up, s.links[k].recvCtr, TAG_TASKQ_READY, READY_SIZE)
    case Blocked => s
    case Bad => Failed(s)
    case Got(b, rest) =>
      if !b.Ready? || !b.ok || b.elementCount != p.config.bytes then Failed(s)
      else
        WithLink(s, k, Pull(s.links[k], rest),
                 if k + 1 < p.workers then s.m.(pc := AwaitReady(k + 1)) else MasterAtRun(p, s.m, 1))
  }

  /** One look at worker `k` in a polling sweep: skip it unless it is busy and has a result waiting. */
  function StepPoll(p: Params, s: System, k: nat): (s': System)
    requires Shaped(p, s)
    ensures Shaped(p, s')
  {
    if k >= p.workers then
      s.(m := s.m.(pc := if s.m.plan.completed < p.config.count then Poll(0) else SendEnd(0)))
    else if !s.m.plan.busy[k] then s.(m := s.m.(pc := Poll(k + 1)))
    else
      match Take(s.links[k].up, s.links[k].recvCtr, TAG_TASKQ_RESULT, RESULT_SIZE)
      case Blocked => s.(m := s.m.(pc := Poll(k + 1)))
      case Bad => Failed(s)
      case Got(b, rest) =>
        if !b.Reply? || !HeaderOk(p, s.m.run, s.m.plan.assignedTask[k], b.result) then Failed(s)
        else WithLink(s, k, Pull(s.links[k], rest), s.m.(pc := AwaitOutput(k, b.result)))
  }

  function StepAwaitOutput(p: Params, s: System, k: nat, r: TaskResult): (s': System)
    requires Shaped(p, s) && k < p.workers
    ensures Shaped(p, s')
  {
    match Take(s.links[k].up, s.links[k].recvCtr, TAG_TASKQ_OUTPUT, p.config.bytes)
    case Blocked => s
    case Bad => Failed(s)
    case Got(b, rest) =>
      if !b.Payload? || |b.data| == 0 || !OutputOk(p, s.m.run, r, b.data) then Failed(s)
      else
        var plan := Complete(s.m.plan, k, r.id);
        WithLink(s, k, Pull(s.links[k], rest),
                 Master(if plan.next < p.config.count then Reassign(k) else Poll(k + 1), s.m.run, plan))
  }

  /** One master step: one send, one receive with its checks, or one skipped worker. */
  function MasterStep(p: Params, s: System): (s': System)
    requires Shaped(p, s)
    ensures Shaped(p, s')
  {
    var m := s.m;
    match m.pc
    case SendCmd(k) =>
      if k >= p.workers then s
      else
        SendTo(s, k, TAG_NPB_CMD, Cmd(p.config), m.(pc := if k + 1 < p.workers then SendCmd(k + 1) else AwaitReady(0)))
    case AwaitReady(k) => if k >= p.workers then s else StepAwaitReady(p, s, k)
    case SendControl(k) =>
      if k >= p.workers then s
      else
        SendTo(s, k, TAG_TASKQ_CONTROL, Control(TASKQ_CONTROL_START, m.run),
               m.(pc := if k + 1 < p.workers then SendControl(k + 1) else Initial(0)))
    case Initial(k) =>
      if k >= p.workers then s.(m := m.(pc := Poll(0)))
      else if m.plan.next >= p.config.count then s.(m := m.(pc := Initial(k + 1)))
      else SendTo(s, k, TAG_TASKQ_TASK, WorkBody(p, m.run, m.plan.next), m.(pc := InitialInput(k)))
    case InitialInput(k) =>
      if k >= p.workers then s
      else
        SendTo(s, k, TAG_TASKQ_INPUT, Payload(InputBytes(m.plan.next, m.run, p.config.bytes)),
               Master(Initial(k + 1), m.run, Assign(m.plan, k)))
    case Poll(k) => StepPoll(p, s, k)
    case AwaitOutput(k, r) => if k >= p.workers then s else StepAwaitOutput(p, s, k, r)
    case Reassign(k) =>
      if k >= p.workers then s
      else SendTo(s, k, TAG_TASKQ_TASK, WorkBody(p, m.run, m.plan.next), m.(pc := ReassignInput(k)))
    case ReassignInput(k) =>
      if k >= p.workers then s
      else
        SendTo(s, k, TAG_TASKQ_INPUT, Payload(InputBytes(m.plan.next, m.run, p.config.bytes)),
               Master(Poll(k + 1), m.run, Assign(m.plan, k)))
    case SendEnd(k) =>
      if k >= p.workers then s
      else
        SendTo(s, k, TAG_TASKQ_TASK, EndBody(m.run),
               if k + 1 < p.workers then m.(pc := SendEnd(k + 1)) else MasterAtRun(p, m, m.run + 1))
    case Finished => s
    case MasterFailed => s
  }

  // ----------------------------------------------------------------------- interleavings

  /**
   * Who moves next. `held` is the choice of a blocking send to hold its sender back: until the message has been
   * received, the sender then does not move.
   */
  datatype Choice = Central(held: bool) | Remote(k: nat, elapsed: Elapsed, held: bool)

  /** Something the master sent has not been received yet. */
  predicate MasterWaits(s: System) {
    exists k :: 0 <= k < |s.links| && s.links[k].down != []
  }

  predicate WorkerWaits(l: Link) {
    l.up != []
  }

  function Step(p: Params, s: System, c: Choice): (s': System)
    requires Shaped(p, s)
    ensures Shaped(p, s')
  {
    match c
    case Central(held) => if held && MasterWaits(s) then s else MasterStep(p, s)
    case Remote(k, elapsed, held) =>
      if k >= p.workers || (held && WorkerWaits(s.links[k])) then s
      else s.(links := s.links[k := WorkerStep(s.links[k], elapsed)])
  }

  /** The state an interleaving leads to. */
  function Run(p: Params, s: System, choices: seq<Choice>): (s': System)
    requires Shaped(p, s)
    ensures Shaped(p, s')
    decreases |choices|
  {
    if choices == [] then s else Run(p, Step(p, s, choices[0]), choices[1..])
  }

  const IDLE_CONFIG := Config(0, 0, 0, 0)

  function Init(p: Params): System {
    System(
      Master(SendCmd(0), 0, NewPlan(p.workers)),
      seq(p.workers, i => Link(Worker(AwaitCmd, IDLE_CONFIG, 0, 0, 0), [], [], 0, 0)))
  }
}
