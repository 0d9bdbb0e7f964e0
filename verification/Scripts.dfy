/** The message scripts of master and worker for every workload that is not the task queue. */
module Scripts {
  import opened Protocol
  import opened ScriptRun
  import Cg
  import SecureChannel

  // Sizes of the structures on the wire.
  const EP_RESULT_SIZE := 96
  const TRIGGER_SIZE := 8
  const RUN_RESULT_SIZE := 24
  const INT: nat := 4
  const DOUBLE: nat := 8

  datatype Workload = Ep | Cg | Stream | Random | Vmap

  /** The command's fields that decide what is exchanged. */
  datatype Cmd = Cmd(workload: Workload, runs: nat, cgRows: int, cgN: int, cgIters: int, mib: nat, encrypt: bool)

  /** The largest bulk message: the frame around an encrypted one must fit an `int` too. */
  function MaxBulk(encrypt: bool): nat {
    if encrypt then SecureChannel.MaxPlain(SecureChannel.Bulk) else INT_MAX
  }

  function Send(tag: int, len: nat): Msg { Msg(true, tag, len, SecureChannel.SECURE_MAX_PLAIN) }

  function Recv(tag: int, len: nat): Msg { Msg(false, tag, len, SecureChannel.SECURE_MAX_PLAIN) }

  function SendBulk(tag: int, len: nat, encrypt: bool): Msg { Msg(true, tag, len, MaxBulk(encrypt)) }

  function RecvBulk(tag: int, len: nat, encrypt: bool): Msg { Msg(false, tag, len, MaxBulk(encrypt)) }

  // --------------------------------------------------------------------------- the worker

  function Repeat(body: seq<Msg>, times: nat): seq<Msg> {
    if times == 0 then [] else Repeat(body, times - 1) + body
  }

  /** What a worker exchanges after a command; the sizes of the CG arrays come from the row pointers it received. */
  function WorkerBody(c: Cmd, rowPtr: seq<int>): seq<Msg>
    requires c.workload == Cg ==> 0 <= c.cgRows < |rowPtr| && rowPtr[c.cgRows] >= 0 && c.cgN >= 0 && c.cgIters >= 0
  {
    match c.workload
    case Ep => Repeat([Send(TAG_NPB_CMD, DOUBLE), Recv(TAG_EP_RESULT, EP_RESULT_SIZE), Recv(TAG_TIME, DOUBLE)], c.runs)
    case Cg =>
      var nnz := rowPtr[c.cgRows];
      [SendBulk(TAG_CG_MATRIX, (c.cgRows + 1) * INT, c.encrypt), SendBulk(TAG_CG_MATRIX, nnz * INT, c.encrypt),
       SendBulk(TAG_CG_MATRIX, nnz * DOUBLE, c.encrypt)]
      + Repeat(Repeat([SendBulk(TAG_CG_X, c.cgN * DOUBLE, c.encrypt), RecvBulk(TAG_CG_Y, c.cgRows * DOUBLE, c.encrypt),
                       Recv(TAG_TIME, DOUBLE)],
                      c.cgIters), c.runs)
    case Stream =>
      [Recv(TAG_STREAM_READY, READY_SIZE)]
      + Repeat([Send(TAG_STREAM_RUN, TRIGGER_SIZE), Recv(TAG_STREAM_RESULT, RUN_RESULT_SIZE)], c.runs)
    case Random =>
      [Recv(TAG_RANDOM_READY, READY_SIZE)]
      + Repeat([Send(TAG_RANDOM_RUN, TRIGGER_SIZE), Recv(TAG_RANDOM_RESULT, RUN_RESULT_SIZE)], c.runs)
    case Vmap =>
      [Recv(TAG_VMAP_READY, READY_SIZE)]
      + Repeat([SendBulk(TAG_VMAP_INPUT, c.mib * MIB_BYTES, c.encrypt),
                RecvBulk(TAG_VMAP_OUTPUT, c.mib * MIB_BYTES, c.encrypt), Recv(TAG_VMAP_RESULT, RUN_RESULT_SIZE)],
               c.runs)
  }

  /** The dimensions and sizes a worker agrees to work on. */
  predicate Agrees(c: Cmd) {
    match c.workload
    case Ep => true
    case Cg => 0 <= c.cgRows && 0 < c.cgN && 0 < c.cgIters && 0 < c.runs
    case Stream => MIN_MIB <= c.mib <= MAX_MIB
    case Random => MIN_RANDOM_MIB <= c.mib <= MAX_RANDOM_MIB
    case Vmap => MIN_MIB <= c.mib <= MAX_MIB
  }

  /** A worker that does not agree says so, where the workload has a readiness message, and stops. */
  function Refusal(c: Cmd): seq<Msg> {
    match c.workload
    case Stream => [Recv(TAG_STREAM_READY, READY_SIZE)]
    case Random => [Recv(TAG_RANDOM_READY, READY_SIZE)]
    case Vmap => [Recv(TAG_VMAP_READY, READY_SIZE)]
    case _ => []
  }

  /** One command, its exchange, and the command to stop. */
  function WorkerScript(c: Cmd, rowPtr: seq<int>): seq<Msg>
    requires c.workload == Cg && Agrees(c) ==> c.cgRows < |rowPtr| && rowPtr[c.cgRows] >= 0
  {
    if Agrees(c) then [Send(TAG_NPB_CMD, CMD_SIZE)] + WorkerBody(c, rowPtr) + [Send(TAG_NPB_CMD, CMD_SIZE)]
    else [Send(TAG_NPB_CMD, CMD_SIZE)] + Refusal(c)
  }

  // --------------------------------------------------------------------------- the master

  function Tagged(w: nat, msgs: seq<Msg>): Script {
    seq(|msgs|, k requires 0 <= k < |msgs| => (w, msgs[k]))
  }

  /** A loop over the workers, exchanging `body(w)` with each in turn. */
  function ForWorkers(n: nat, body: nat -> seq<Msg>): Script {
    if n == 0 then [] else ForWorkers(n - 1, body) + Tagged(n - 1, body(n - 1))
  }

  function Times(round: Script, times: nat): Script {
    if times == 0 then [] else Times(round, times - 1) + round
  }

  /** The options that decide what is exchanged, and the matrix the master cut up when the workload is CG. */
  datatype Params = Params(
    workload: Workload, workers: nat, runs: nat, n: nat, iters: nat, mib: nat, matrix: Cg.Csr<int>, encrypt: bool)

  /** What the master's option parser lets through; of the generated matrix only its shape and size matter. */
  predicate Valid(p: Params) {
    && 1 <= p.workers <= MAX_WORKERS && 1 <= p.runs <= MAX_RUNS
    && match p.workload
       case Ep => true
       case Cg =>
         && Cg.Shaped(p.matrix, p.n, p.n) && 1 <= p.n <= INT_MAX - 1 && 1 <= p.iters <= INT_MAX
         && |p.matrix.colIdx| <= INT_MAX
       case Stream => MIN_MIB <= p.mib <= MAX_MIB
       case Random => MIN_RANDOM_MIB <= p.mib <= MAX_RANDOM_MIB
       case Vmap => MIN_MIB <= p.mib <= MAX_MIB
  }

  function Rows(p: Params, w: nat): nat
    requires Valid(p) && w < p.workers
  {
    Cg.BeforeGrows(p.n, p.workers, w);
    Cg.RowCount(p.n, p.workers, w)
  }

  /** The entries in a worker's rows, as the master computes them. */
  function Entries(p: Params, w: nat): nat
    requires Valid(p) && p.workload == Cg && w < p.workers
  {
    Cg.BeforeGrows(p.n, p.workers, w);
    var rs := Cg.RowStart(p.n, p.workers, w);
    p.matrix.rowPtr[rs + Rows(p, w)] - p.matrix.rowPtr[rs]
  }

  /** The command, and for CG the worker's slice of the matrix. */
  function SetupFor(p: Params, w: nat): seq<Msg>
    requires Valid(p)
  {
    if p.workload == Cg && w < p.workers then
      var rows, entries := Rows(p, w), Entries(p, w);
      [Send(TAG_NPB_CMD, CMD_SIZE), SendBulk(TAG_CG_MATRIX, (rows + 1) * INT, p.encrypt),
       SendBulk(TAG_CG_MATRIX, entries * INT, p.encrypt),
       SendBulk(TAG_CG_MATRIX, entries * DOUBLE, p.encrypt)]
    else [Send(TAG_NPB_CMD, CMD_SIZE)]
  }

  function Setup(p: Params): nat -> seq<Msg>
    requires Valid(p)
  {
    (w: nat) => SetupFor(p, w)
  }

  /** The wait for every worker's readiness, in the workloads that have one. */
  function Ready(p: Params): nat -> seq<Msg> {
    match p.workload
    case Stream => w => [Recv(TAG_STREAM_READY, READY_SIZE)]
    case Random => w => [Recv(TAG_RANDOM_READY, READY_SIZE)]
    case Vmap => w => [Recv(TAG_VMAP_READY, READY_SIZE)]
    case _ => w => []
  }

  function Scatter(p: Params): nat -> seq<Msg> {
    match p.workload
    case Ep => w => [Send(TAG_NPB_CMD, DOUBLE)]
    case Cg => w => [SendBulk(TAG_CG_X, p.n * DOUBLE, p.encrypt)]
    case Stream => w => [Send(TAG_STREAM_RUN, TRIGGER_SIZE)]
    case Random => w => [Send(TAG_RANDOM_RUN, TRIGGER_SIZE)]
    case Vmap => w => [SendBulk(TAG_VMAP_INPUT, p.mib * MIB_BYTES, p.encrypt)]
  }

  function GatherCg(p: Params, w: nat): seq<Msg>
    requires Valid(p)
  {
    if w < p.workers then
      var rows := Rows(p, w);
      [RecvBulk(TAG_CG_Y, rows * DOUBLE, p.encrypt), Recv(TAG_TIME, DOUBLE)]
    else []
  }

  function Gather(p: Params): nat -> seq<Msg>
    requires Valid(p)
  {
    match p.workload
    case Ep => w => [Recv(TAG_EP_RESULT, EP_RESULT_SIZE), Recv(TAG_TIME, DOUBLE)]
    case Cg => (w: nat) => GatherCg(p, w)
    case Stream => w => [Recv(TAG_STREAM_RESULT, RUN_RESULT_SIZE)]
    case Random => w => [Recv(TAG_RANDOM_RESULT, RUN_RESULT_SIZE)]
    case Vmap => w => [RecvBulk(TAG_VMAP_OUTPUT, p.mib * MIB_BYTES, p.encrypt), Recv(TAG_VMAP_RESULT, RUN_RESULT_SIZE)]
  }

  /** Scatter to all, then gather from all; CG does so once per iteration. */
  function Round(p: Params): Script
    requires Valid(p)
  {
    ForWorkers(p.workers, Scatter(p)) + ForWorkers(p.workers, Gather(p))
  }

  function Stop(): nat -> seq<Msg> {
    w => [Send(TAG_NPB_CMD, CMD_SIZE)]
  }

  function OneRun(p: Params): Script
    requires Valid(p)
  {
    if p.workload == Cg then Times(Round(p), p.iters) else Round(p)
  }

  function MasterScript(p: Params): Script
    requires Valid(p)
  {
    ForWorkers(p.workers, Setup(p)) + ForWorkers(p.workers, Ready(p)) + Times(OneRun(p), p.runs)
    + ForWorkers(p.workers, Stop())
  }

  // -------------------------------------------------------------------------- projections

  lemma {:induction false} ProjectConcat(a: Script, b: Script, w: nat)
    ensures Project(a + b, w) == Project(a, w) + Project(b, w)
    decreases |b|
  {
    if b == [] {
      assert a + b == a;
    } else {
      assert (a + b)[..|a + b| - 1] == a + b[..|b| - 1];
      ProjectConcat(a, b[..|b| - 1], w);
    }
  }

  lemma {:induction false} ProjectTagged(v: nat, msgs: seq<Msg>, w: nat)
    ensures Project(Tagged(v, msgs), w) == if v == w then msgs else []
    decreases |msgs|
  {
    if msgs != [] {
      var front := msgs[..|msgs| - 1];
      assert Tagged(v, msgs)[..|msgs| - 1] == Tagged(v, front);
      ProjectTagged(v, front, w);
      assert front + [msgs[|msgs| - 1]] == msgs;
    }
  }

  /** A loop over the workers exchanges with each worker its own body, once. */
  lemma {:induction false} ProjectForWorkers(n: nat, body: nat -> seq<Msg>, w: nat)
    ensures Project(ForWorkers(n, body), w) == if w < n then body(w) else []
    decreases n
  {
    if n > 0 {
      ProjectForWorkers(n - 1, body, w);
      OneWorkerMore(n, body, w);
    }
  }

  lemma OneWorkerMore(n: nat, body: nat -> seq<Msg>, w: nat)
    requires n > 0 && Project(ForWorkers(n - 1, body), w) == if w < n - 1 then body(w) else []
    ensures Project(ForWorkers(n, body), w) == if w < n then body(w) else []
  {
    hide Tagged, Project;
    var before, last := ForWorkers(n - 1, body), body(n - 1);
    assert ForWorkers(n, body) == before + Tagged(n - 1, last);
    hide ForWorkers;
    ProjectConcat(before, Tagged(n - 1, last), w);
    ProjectTagged(n - 1, last, w);
    NothingAdded(Project(before, w), Project(Tagged(n - 1, last), w));
  }

  lemma NothingAdded(a: seq<Msg>, b: seq<Msg>)
    ensures a + [] == a && [] + b == b
  {
  }

  lemma {:induction false} ProjectTimes(round: Script, times: nat, w: nat)
    ensures Project(Times(round, times), w) == Repeat(Project(round, w), times)
    decreases times
  {
    if times > 0 {
      ProjectTimes(round, times - 1, w);
      ProjectConcat(Times(round, times - 1), round, w);
    }
  }

  lemma ProjectRound(p: Params, w: nat)
    requires Valid(p) && w < p.workers
    ensures Project(Round(p), w) == Scatter(p)(w) + Gather(p)(w)
  {
    ProjectForWorkers(p.workers, Scatter(p), w);
    ProjectForWorkers(p.workers, Gather(p), w);
    ProjectConcat(ForWorkers(p.workers, Scatter(p)), ForWorkers(p.workers, Gather(p)), w);
    hide Scatter, Gather, Project, ForWorkers;
  }

  /** A run, as one worker sees it. */
  function RunBody(p: Params, w: nat): seq<Msg>
    requires Valid(p) && w < p.workers
  {
    var round := Scatter(p)(w) + Gather(p)(w);
    if p.workload == Cg then Repeat(round, p.iters) else round
  }

  lemma ProjectMaster(p: Params, w: nat)
    requires Valid(p) && w < p.workers
    ensures Project(MasterScript(p), w) == Setup(p)(w) + Ready(p)(w) + Repeat(RunBody(p, w), p.runs) + Stop()(w)
  {
    hide Setup, Ready, Scatter, Gather, Stop, Project, ForWorkers, Round, Times, Repeat;
    var setup, ready := ForWorkers(p.workers, Setup(p)), ForWorkers(p.workers, Ready(p));
    var runs, stop := Times(OneRun(p), p.runs), ForWorkers(p.workers, Stop());
    ProjectForWorkers(p.workers, Setup(p), w);
    ProjectForWorkers(p.workers, Ready(p), w);
    ProjectForWorkers(p.workers, Stop(), w);
    ProjectRound(p, w);
    ProjectTimes(Round(p), p.iters, w);
    ProjectTimes(OneRun(p), p.runs, w);
    ProjectConcat(setup, ready, w);
    ProjectConcat(setup + ready, runs, w);
    ProjectConcat(setup + ready + runs, stop, w);
  }

  // ------------------------------------------------------------------------------ duality

  /** What worker `w` is told. */
  function CmdFor(p: Params, w: nat): Cmd
    requires Valid(p) && w < p.workers
  {
    Cmd(p.workload, p.runs, Rows(p, w), p.n, p.iters, p.mib, p.encrypt)
  }

  /** The row pointers worker `w` receives. */
  function RowPtrFor(p: Params, w: nat): seq<int>
    requires Valid(p) && w < p.workers
  {
    if p.workload == Cg then Cg.Part(p.matrix, p.n, p.workers, w).rowPtr else []
  }

  /** The entry count a worker reads off its rebased pointers is the one the master sent by. */
  lemma EntriesAgree(p: Params, w: nat)
    requires Valid(p) && p.workload == Cg && w < p.workers
    ensures |RowPtrFor(p, w)| == Rows(p, w) + 1 && RowPtrFor(p, w)[Rows(p, w)] == Entries(p, w)
  {
    Cg.BeforeGrows(p.n, p.workers, w);
    hide Cg.Shaped, Cg.RowStart, Cg.RowCount, Cg.Before;
  }

  /** For every workload and any parameters, a worker runs exactly what the master exchanges with it. */
  lemma ScriptsAreDual(p: Params, w: nat)
    requires Valid(p) && w < p.workers
    ensures p.workload == Cg ==> |RowPtrFor(p, w)| == Rows(p, w) + 1 && RowPtrFor(p, w)[Rows(p, w)] >= 0
    ensures WorkerScript(CmdFor(p, w), RowPtrFor(p, w)) == Project(MasterScript(p), w)
  {
    ProjectMaster(p, w);
    if p.workload == Cg {
      EntriesAgree(p, w);
      CgIsDual(p, w);
    } else {
      OtherIsDual(p, w);
    }
  }

  lemma CgIsDual(p: Params, w: nat)
    requires Valid(p) && w < p.workers && p.workload == Cg
    requires |RowPtrFor(p, w)| == Rows(p, w) + 1 && RowPtrFor(p, w)[Rows(p, w)] == Entries(p, w)
    ensures WorkerScript(CmdFor(p, w), RowPtrFor(p, w))
            == Setup(p)(w) + Ready(p)(w) + Repeat(RunBody(p, w), p.runs) + Stop()(w)
  {
    hide Repeat, RowPtrFor, Rows, Entries, MaxBulk;
    var rc, nnz := Rows(p, w), Entries(p, w);
    var round := [SendBulk(TAG_CG_X, p.n * DOUBLE, p.encrypt), RecvBulk(TAG_CG_Y, rc * DOUBLE, p.encrypt),
                  Recv(TAG_TIME, DOUBLE)];
    assert Scatter(p)(w) + Gather(p)(w) == round;
    var matrix := [SendBulk(TAG_CG_MATRIX, (rc + 1) * INT, p.encrypt), SendBulk(TAG_CG_MATRIX, nnz * INT, p.encrypt),
                   SendBulk(TAG_CG_MATRIX, nnz * DOUBLE, p.encrypt)];
    assert Setup(p)(w) + Ready(p)(w) == [Send(TAG_NPB_CMD, CMD_SIZE)] + matrix;
    var runs := Repeat(Repeat(round, p.iters), p.runs);
    assert [Send(TAG_NPB_CMD, CMD_SIZE)] + (matrix + runs) == ([Send(TAG_NPB_CMD, CMD_SIZE)] + matrix) + runs;
  }

  lemma OtherIsDual(p: Params, w: nat)
    requires Valid(p) && w < p.workers && p.workload != Cg
    ensures WorkerScript(CmdFor(p, w), RowPtrFor(p, w))
            == Setup(p)(w) + Ready(p)(w) + Repeat(RunBody(p, w), p.runs) + Stop()(w)
  {
    hide Repeat, Rows, MaxBulk;
    var body := RunBody(p, w);
    var ready := Ready(p)(w);
    assert WorkerBody(CmdFor(p, w), RowPtrFor(p, w)) == ready + Repeat(body, p.runs) by {
      match p.workload {
        case Ep =>
          assert body == [Send(TAG_NPB_CMD, DOUBLE), Recv(TAG_EP_RESULT, EP_RESULT_SIZE), Recv(TAG_TIME, DOUBLE)];
          assert ready + Repeat(body, p.runs) == Repeat(body, p.runs);
        case Stream =>
          assert body == [Send(TAG_STREAM_RUN, TRIGGER_SIZE), Recv(TAG_STREAM_RESULT, RUN_RESULT_SIZE)];
        case Random =>
          assert body == [Send(TAG_RANDOM_RUN, TRIGGER_SIZE), Recv(TAG_RANDOM_RESULT, RUN_RESULT_SIZE)];
        case Vmap =>
          assert body == [SendBulk(TAG_VMAP_INPUT, p.mib * MIB_BYTES, p.encrypt),
                          RecvBulk(TAG_VMAP_OUTPUT, p.mib * MIB_BYTES, p.encrypt),
                          Recv(TAG_VMAP_RESULT, RUN_RESULT_SIZE)];
      }
    }
    assert [Send(TAG_NPB_CMD, CMD_SIZE)] + (ready + Repeat(body, p.runs))
        == ([Send(TAG_NPB_CMD, CMD_SIZE)] + ready) + Repeat(body, p.runs);
  }

  lemma {:induction false} ForWorkersInRange(n: nat, body: nat -> seq<Msg>)
    ensures forall k :: 0 <= k < |ForWorkers(n, body)| ==> ForWorkers(n, body)[k].0 < n
  {
    if n > 0 {
      ForWorkersInRange(n - 1, body);
    }
  }

  lemma {:induction false} TimesInRange(round: Script, times: nat, n: nat)
    requires forall k :: 0 <= k < |round| ==> round[k].0 < n
    ensures forall k :: 0 <= k < |Times(round, times)| ==> Times(round, times)[k].0 < n
  {
    if times > 0 {
      TimesInRange(round, times - 1, n);
    }
  }

  /** The scripts the workers run, all together. */
  function WorkerScripts(p: Params): (scripts: seq<seq<Msg>>)
    requires Valid(p)
    ensures |scripts| == p.workers
  {
    seq(p.workers, w requires 0 <= w < p.workers =>
      ScriptsAreDual(p, w);
      WorkerScript(CmdFor(p, w), RowPtrFor(p, w)))
  }

  lemma BenchmarkIsDual(p: Params)
    requires Valid(p)
    ensures Dual(MasterScript(p), WorkerScripts(p))
  {
    MasterInRange(p);
    forall w | 0 <= w < p.workers ensures WorkerScripts(p)[w] == Project(MasterScript(p), w) {
      ScriptsAreDual(p, w);
    }
    hide MasterScript;
  }

  lemma MasterInRange(p: Params)
    requires Valid(p)
    ensures forall k :: 0 <= k < |MasterScript(p)| ==> MasterScript(p)[k].0 < p.workers
  {
    ForWorkersInRange(p.workers, Setup(p));
    ForWorkersInRange(p.workers, Ready(p));
    ForWorkersInRange(p.workers, Scatter(p));
    ForWorkersInRange(p.workers, Gather(p));
    ForWorkersInRange(p.workers, Stop());
    TimesInRange(Round(p), p.iters, p.workers);
    TimesInRange(OneRun(p), p.runs, p.workers);
    hide Setup, Ready, Scatter, Gather, Stop, ForWorkers, Times;
  }

  // ------------------------------------------------------------------------------- sizes

  /**
   * The sizes a benchmark needs: for CG the vector and every worker's matrix entries, as doubles, in one bulk message
   * each; the other workloads always fit.
   */
  predicate SizesFit(p: Params)
    requires Valid(p)
  {
    p.workload == Cg ==>
      && p.n * DOUBLE <= MaxBulk(p.encrypt)
      && forall w :: 0 <= w < p.workers ==> Entries(p, w) * DOUBLE <= MaxBulk(p.encrypt)
  }

  lemma AllFitConcat(a: seq<Msg>, b: seq<Msg>)
    ensures AllFit(a + b) <==> AllFit(a) && AllFit(b)
  {
    assert forall k :: 0 <= k < |a| ==> (a + b)[k] == a[k];
    assert forall k :: 0 <= k < |b| ==> (a + b)[|a| + k] == b[k];
  }

  lemma {:induction false} AllFitRepeat(body: seq<Msg>, times: nat)
    requires times > 0
    ensures AllFit(Repeat(body, times)) <==> AllFit(body)
    decreases times
  {
    AllFitConcat(Repeat(body, times - 1), body);
    if times > 1 {
      AllFitRepeat(body, times - 1);
    }
  }

  /** A call that moves only a command, a result, a time, a seed or a trigger always fits. */
  lemma SmallFits(p: Params, w: nat)
    requires Valid(p) && w < p.workers && p.workload != Cg
    ensures AllFit(Setup(p)(w)) && AllFit(Ready(p)(w)) && AllFit(RunBody(p, w)) && AllFit(Stop()(w))
  {
  }

  lemma CgSetupFits(p: Params, w: nat)
    requires Valid(p) && w < p.workers && p.workload == Cg
    ensures AllFit(Setup(p)(w)) <==>
              (Rows(p, w) + 1) * INT <= MaxBulk(p.encrypt) && Entries(p, w) * DOUBLE <= MaxBulk(p.encrypt)
    ensures AllFit(Ready(p)(w)) && AllFit(Stop()(w))
  {
    hide Rows, Entries, MaxBulk;
    var setup := Setup(p)(w);
    assert setup[1].len == (Rows(p, w) + 1) * INT && setup[3].len == Entries(p, w) * DOUBLE;
    assert setup[1].max == setup[3].max == MaxBulk(p.encrypt);
  }

  lemma CgRoundFits(p: Params, w: nat)
    requires Valid(p) && w < p.workers && p.workload == Cg
    ensures AllFit(RunBody(p, w)) <==> p.n * DOUBLE <= MaxBulk(p.encrypt) && Rows(p, w) * DOUBLE <= MaxBulk(p.encrypt)
  {
    hide Rows, MaxBulk;
    var round := Scatter(p)(w) + Gather(p)(w);
    AllFitRepeat(round, p.iters);
    assert round[0].len == p.n * DOUBLE && round[1].len == Rows(p, w) * DOUBLE;
    assert round[0].max == round[1].max == MaxBulk(p.encrypt);
  }

  predicate SizesFitFor(p: Params, w: nat)
    requires Valid(p) && w < p.workers
  {
    p.workload == Cg ==> p.n * DOUBLE <= MaxBulk(p.encrypt) && Entries(p, w) * DOUBLE <= MaxBulk(p.encrypt)
  }

  lemma SizesFitByWorker(p: Params)
    requires Valid(p)
    ensures SizesFit(p) <==> forall w :: 0 <= w < p.workers ==> SizesFitFor(p, w)
  {
    hide MaxBulk, Entries;
    if SizesFit(p) {
      forall w | 0 <= w < p.workers ensures SizesFitFor(p, w) {
        assert p.workload == Cg ==> Entries(p, w) * DOUBLE <= MaxBulk(p.encrypt);
      }
    } else if p.n * DOUBLE > MaxBulk(p.encrypt) {
      assert !SizesFitFor(p, 0);
    } else {
      var w: nat :| w < p.workers && Entries(p, w) * DOUBLE > MaxBulk(p.encrypt);
      assert !SizesFitFor(p, w);
    }
  }

  /** The vector is the largest row-sized message: what it fits, pointers and partial results fit. */
  lemma WorkerFits(p: Params, w: nat)
    requires Valid(p) && w < p.workers
    ensures AllFit(Project(MasterScript(p), w)) <==> SizesFitFor(p, w)
  {
    ProjectMaster(p, w);
    var setup, ready, runs := Setup(p)(w), Ready(p)(w), Repeat(RunBody(p, w), p.runs);
    AllFitConcat(setup, ready);
    AllFitConcat(setup + ready, runs);
    AllFitConcat(setup + ready + runs, Stop()(w));
    AllFitRepeat(RunBody(p, w), p.runs);
    if p.workload == Cg {
      CgSetupFits(p, w);
      CgRoundFits(p, w);
      Cg.BeforeGrows(p.n, p.workers, w);
    } else {
      SmallFits(p, w);
    }
    hide Setup, Ready, RunBody, Stop, MasterScript, Repeat, AllFit;
  }

  lemma MasterFits(p: Params)
    requires Valid(p)
    ensures Fits(MasterScript(p)) <==> SizesFit(p)
  {
    hide Valid, MasterScript, Project, AllFit, Fits, SizesFit, SizesFitFor;
    MasterInRange(p);
    SizesFitByWorker(p);
    forall w | 0 <= w < p.workers ensures AllFit(Project(MasterScript(p), w)) <==> SizesFitFor(p, w) {
      WorkerFits(p, w);
    }
    if SizesFit(p) {
      forall w | 0 <= w < p.workers ensures AllFit(Project(MasterScript(p), w)) {
        assert SizesFitFor(p, w);
      }
      AllWorkersFit(MasterScript(p), p.workers);
    } else {
      var w: nat :| w < p.workers && !SizesFitFor(p, w);
      Misfit(MasterScript(p), p.workers, w);
    }
  }

  /**
   * For any workload, workers and parameters the parser lets through: no interleaving ever fails exactly when the
   * sizes fit. Then a run goes on until all are done, even if every send holds its sender back until the message is
   * received; otherwise no run gets there.
   */
  lemma BenchmarksRun(p: Params)
    requires Valid(p)
    ensures Dual(MasterScript(p), WorkerScripts(p))
    ensures (forall order :: !Run(MasterScript(p), WorkerScripts(p), order).failed) <==> SizesFit(p)
    ensures forall order ::
              var s := Run(MasterScript(p), WorkerScripts(p), order);
              || s.failed || Done(MasterScript(p), WorkerScripts(p), s)
              || exists who :: Enabled(MasterScript(p), WorkerScripts(p), s, Move(who, true))
    ensures (exists order :: Done(MasterScript(p), WorkerScripts(p), Run(MasterScript(p), WorkerScripts(p), order)))
            <==> SizesFit(p)
  {
    BenchmarkIsDual(p);
    MasterFits(p);
    var g, scripts := MasterScript(p), WorkerScripts(p);
    hide MasterScript, WorkerScripts, SizesFit, Fits, Run, Done, Enabled, Dual;
    NoRunFailsIff(g, scripts);
    forall order ensures var s := Run(g, scripts, order);
                         s.failed || Done(g, scripts, s) || exists who :: Enabled(g, scripts, s, Move(who, true))
    {
      if !Run(g, scripts, order).failed && !Done(g, scripts, Run(g, scripts, order)) {
        var who := NeverStuck(g, scripts, order);
      }
    }
    if Fits(g) {
      var order := RunsToEnd(g, scripts, []);
      assert Done(g, scripts, Run(g, scripts, order));
    } else {
      forall order ensures !Done(g, scripts, Run(g, scripts, order)) {
        NeverDone(g, scripts, order);
      }
    }
  }

  // ------------------------------------------------------------- sizes of generated matrices

  lemma ScaleLe(a: nat, b: nat, c: nat)
    requires a <= b
    ensures a * c <= b * c
  {
    var d := b - a;
    assert b * c == a * c + d * c;
  }

  /** The last worker, which also takes the rows left over, has the most. */
  lemma LastHasMost(p: Params, w: nat)
    requires Valid(p) && w < p.workers
    ensures Rows(p, w) <= Rows(p, p.workers - 1)
  {
    Cg.EvenSplitFits(p.n, p.workers, p.workers - 1);
  }

  lemma EvenEntries(p: Params, nzpc: nat, w: nat)
    requires Valid(p) && p.workload == Cg && w < p.workers
    requires forall i :: 0 <= i <= p.n ==> p.matrix.rowPtr[i] == i * nzpc
    ensures Entries(p, w) == Rows(p, w) * nzpc
  {
    Cg.BeforeGrows(p.n, p.workers, w);
    var rs, rc := Cg.RowStart(p.n, p.workers, w), Rows(p, w);
    assert (rs + rc) * nzpc == rs * nzpc + rc * nzpc;
  }

  /** With equally many entries in every row, as the generator makes them, two products decide. */
  lemma GeneratedSizesFit(p: Params, nzpc: nat)
    requires Valid(p) && p.workload == Cg
    requires forall i :: 0 <= i <= p.n ==> p.matrix.rowPtr[i] == i * nzpc
    ensures SizesFit(p) <==>
              && p.n * DOUBLE <= MaxBulk(p.encrypt)
              && Rows(p, p.workers - 1) * nzpc * DOUBLE <= MaxBulk(p.encrypt)
  {
    hide MaxBulk, Rows, Entries;
    EvenEntries(p, nzpc, p.workers - 1);
    forall w | 0 <= w < p.workers ensures Entries(p, w) <= Entries(p, p.workers - 1) {
      EvenEntries(p, nzpc, w);
      LastHasMost(p, w);
      ScaleLe(Rows(p, w), Rows(p, p.workers - 1), nzpc);
    }
  }

  /** One entry in every row. */
  function OnePerRow(n: nat): Cg.Csr<int> {
    Cg.Csr(seq(n + 1, i => i), seq(n, i => 0), seq(n, i => 0))
  }

  /** A parameter set the parser lets through and the code cannot run: a vector of 2.4 GB. */
  lemma LargeVectorFails(workers: nat, runs: nat, iters: nat, encrypt: bool)
    requires 1 <= workers <= MAX_WORKERS && 1 <= runs <= MAX_RUNS && 1 <= iters <= INT_MAX
    ensures var p := Params(Cg, workers, runs, 300_000_000, iters, 0, OnePerRow(300_000_000), encrypt);
            Valid(p) && !SizesFit(p)
  {
    OnePerRowShaped(300_000_000);
    hide OnePerRow;
  }

  lemma OnePerRowShaped(n: nat)
    requires n > 0
    ensures Cg.Shaped(OnePerRow(n), n, n) && |OnePerRow(n).colIdx| == n
  {
  }

  // ----------------------------------------------------------------------------- counters

  lemma {:induction false} RepeatLength(body: seq<Msg>, times: nat)
    ensures |Repeat(body, times)| == times * |body|
    decreases times
  {
    if times > 0 {
      RepeatLength(body, times - 1);
      assert times * |body| == (times - 1) * |body| + |body|;
    }
  }

  lemma RunLength(p: Params, w: nat)
    requires Valid(p) && w < p.workers
    ensures |RunBody(p, w)| <= 3 * INT_MAX
  {
    if p.workload == Cg {
      var round := Scatter(p)(w) + Gather(p)(w);
      assert |round| == 3;
      RepeatLength(round, p.iters);
    }
  }

  /** No counter runs out: a channel carries fewer messages, in both directions together, than 64 bits count. */
  lemma CountersSuffice(p: Params, w: nat)
    requires Valid(p) && w < p.workers
    ensures |Project(MasterScript(p), w)| < U64_MAX
  {
    ProjectMaster(p, w);
    RunLength(p, w);
    RepeatLength(RunBody(p, w), p.runs);
    ScaleLe(|RunBody(p, w)|, 3 * INT_MAX, p.runs);
    ScaleLe(p.runs, MAX_RUNS, 3 * INT_MAX);
    hide MasterScript, RunBody, Repeat;
  }
}
