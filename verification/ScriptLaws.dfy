/** The scripts message by message: every tag, length and limit as a number, at its place in the exchange. */
module ScriptLaws {
  import opened ScriptRun
  import opened Scripts
  import Cg

  lemma {:induction false} RepeatAt(body: seq<Msg>, times: nat, r: nat, j: nat)
    requires r < times && j < |body|
    ensures 0 <= r * |body| + j < |Repeat(body, times)| == times * |body|
    ensures Repeat(body, times)[r * |body| + j] == body[j]
    decreases times
  {
    RepeatLength(body, times);
    RepeatLength(body, times - 1);
    OneMore(times - 1, |body|);
    if r < times - 1 {
      RepeatAt(body, times - 1, r, j);
    }
  }

  lemma OneMore(k: nat, n: nat)
    ensures (k + 1) * n == k * n + n && k * n >= 0
  {
  }

  /** Largest plain texts: 256 bytes, and what fits an `int`, less the frame when there is one. */
  lemma Limits(tag: int, len: nat, encrypt: bool)
    ensures Send(tag, len) == Msg(true, tag, len, 256) && Recv(tag, len) == Msg(false, tag, len, 256)
    ensures SendBulk(tag, len, encrypt) == Msg(true, tag, len, if encrypt then 2147483619 else 2147483647)
    ensures RecvBulk(tag, len, encrypt) == Msg(false, tag, len, if encrypt then 2147483619 else 2147483647)
  {
  }

  /** The command comes first and the command to stop last; `body` is what a run, or for CG an iteration, exchanges. */
  ghost predicate Script(script: seq<Msg>, head: seq<Msg>, body: seq<Msg>, times: nat) {
    && |script| == 1 + |head| + times * |body| + 1
    && script[0] == script[|script| - 1] == Msg(true, 130, 104, 256)
    && script[1..1 + |head|] == head
    && forall r, j :: 0 <= r < times && 0 <= j < |body| ==> At(script, head, body, r, j) == body[j]
  }

  /** Message `j` of round `r`, behind the command and the head. */
  function At(script: seq<Msg>, head: seq<Msg>, body: seq<Msg>, r: int, j: int): Msg {
    var k := 1 + |head| + r * |body| + j;
    if 0 <= k < |script| then script[k] else Msg(true, 0, 0, 0)
  }

  lemma Assembled(script: seq<Msg>, head: seq<Msg>, body: seq<Msg>, times: nat)
    requires script == [Msg(true, 130, 104, 256)] + head + Repeat(body, times) + [Msg(true, 130, 104, 256)]
    ensures Script(script, head, body, times)
  {
    RepeatLength(body, times);
    forall r, j | 0 <= r < times && 0 <= j < |body| ensures At(script, head, body, r, j) == body[j] {
      RepeatAt(body, times, r, j);
    }
  }

  /** EP: a seed, the result, the time. */
  lemma EpScript(c: Cmd, rowPtr: seq<int>)
    requires c.workload == Ep
    ensures Script(WorkerScript(c, rowPtr), [],
                   [Msg(true, 130, 8, 256), Msg(false, 131, 96, 256), Msg(false, 135, 8, 256)], c.runs)
  {
    var body := [Msg(true, 130, 8, 256), Msg(false, 131, 96, 256), Msg(false, 135, 8, 256)];
    hide Repeat;
    assert [Msg(true, 130, 104, 256)] + [] == [Msg(true, 130, 104, 256)];
    Assembled(WorkerScript(c, rowPtr), [], body, c.runs);
  }

  /** STREAM and RANDOM: readiness once, then a trigger and a result. */
  lemma TriggeredScript(c: Cmd, rowPtr: seq<int>)
    requires c.workload == Stream || c.workload == Random
    requires if c.workload == Stream then 1 <= c.mib <= 128 else 32 <= c.mib <= 256
    ensures var base := if c.workload == Stream then 136 else 139;
            Script(WorkerScript(c, rowPtr), [Msg(false, base, 16, 256)],
                   [Msg(true, base + 1, 8, 256), Msg(false, base + 2, 24, 256)], c.runs)
  {
    var base := if c.workload == Stream then 136 else 139;
    var body := [Msg(true, base + 1, 8, 256), Msg(false, base + 2, 24, 256)];
    hide Repeat;
    var script := WorkerScript(c, rowPtr);
    assert script == [Msg(true, 130, 104, 256)] + [Msg(false, base, 16, 256)] + Repeat(body, c.runs)
                     + [Msg(true, 130, 104, 256)];
    Assembled(script, [Msg(false, base, 16, 256)], body, c.runs);
  }

  /** VMAP: readiness once, then the block out, the block back, and the result. */
  lemma VmapScript(c: Cmd, rowPtr: seq<int>)
    requires c.workload == Vmap && 1 <= c.mib <= 128
    ensures var limit := if c.encrypt then 2147483619 else 2147483647;
            Script(WorkerScript(c, rowPtr), [Msg(false, 142, 16, 256)],
                   [Msg(true, 143, c.mib * 1048576, limit), Msg(false, 144, c.mib * 1048576, limit),
                    Msg(false, 145, 24, 256)], c.runs)
  {
    var limit := if c.encrypt then 2147483619 else 2147483647;
    var n := c.mib * 1048576;
    var body := [Msg(true, 143, n, limit), Msg(false, 144, n, limit), Msg(false, 145, 24, 256)];
    hide Repeat;
    var script := WorkerScript(c, rowPtr);
    assert script == [Msg(true, 130, 104, 256)] + [Msg(false, 142, 16, 256)] + Repeat(body, c.runs)
                     + [Msg(true, 130, 104, 256)];
    Assembled(script, [Msg(false, 142, 16, 256)], body, c.runs);
  }

  lemma {:induction false} RepeatTwice(body: seq<Msg>, a: nat, b: nat)
    ensures Repeat(Repeat(body, a), b) == Repeat(body, b * a)
    decreases b
  {
    if b > 0 {
      RepeatTwice(body, a, b - 1);
      RepeatSum(body, (b - 1) * a, a);
      OneMore(b - 1, a);
    }
  }

  lemma {:induction false} RepeatSum(body: seq<Msg>, a: nat, b: nat)
    ensures Repeat(body, a) + Repeat(body, b) == Repeat(body, a + b)
    decreases b
  {
    if b > 0 {
      RepeatSum(body, a, b - 1);
      assert Repeat(body, a) + (Repeat(body, b - 1) + body) == (Repeat(body, a) + Repeat(body, b - 1)) + body;
    } else {
      assert Repeat(body, a) + [] == Repeat(body, a);
    }
  }

  /** CG: row pointers, columns and values once, then in every iteration the vector out, the rows back and the time. */
  lemma CgScript(c: Cmd, rowPtr: seq<int>)
    requires c.workload == Cg && 0 <= c.cgRows < |rowPtr| && rowPtr[c.cgRows] >= 0
    requires 0 < c.cgN && 0 < c.cgIters && 0 < c.runs
    ensures var limit := if c.encrypt then 2147483619 else 2147483647;
            var nnz := rowPtr[c.cgRows];
            Script(WorkerScript(c, rowPtr),
                   [Msg(true, 134, 4 * c.cgRows + 4, limit), Msg(true, 134, 4 * nnz, limit),
                    Msg(true, 134, 8 * nnz, limit)],
                   [Msg(true, 132, 8 * c.cgN, limit), Msg(false, 133, 8 * c.cgRows, limit), Msg(false, 135, 8, 256)],
                   c.runs * c.cgIters)
  {
    var limit := if c.encrypt then 2147483619 else 2147483647;
    var nnz := rowPtr[c.cgRows];
    var head := [Msg(true, 134, 4 * c.cgRows + 4, limit), Msg(true, 134, 4 * nnz, limit),
                 Msg(true, 134, 8 * nnz, limit)];
    var body := [Msg(true, 132, 8 * c.cgN, limit), Msg(false, 133, 8 * c.cgRows, limit), Msg(false, 135, 8, 256)];
    hide Repeat;
    var script := WorkerScript(c, rowPtr);
    assert script == [Msg(true, 130, 104, 256)] + (head + Repeat(Repeat(body, c.cgIters), c.runs))
                     + [Msg(true, 130, 104, 256)];
    RepeatTwice(body, c.cgIters, c.runs);
    assert script == [Msg(true, 130, 104, 256)] + head + Repeat(body, c.runs * c.cgIters) + [Msg(true, 130, 104, 256)];
    Assembled(script, head, body, c.runs * c.cgIters);
  }

  /** A size out of range is answered with a readiness message only, and CG dimensions out of range with nothing. */
  lemma RefusedCommand(c: Cmd, rowPtr: seq<int>)
    requires match c.workload
             case Ep => false
             case Cg => c.cgRows < 0 || c.cgN <= 0 || c.cgIters <= 0 || c.runs <= 0
             case Stream => c.mib < 1 || c.mib > 128
             case Random => c.mib < 32 || c.mib > 256
             case Vmap => c.mib < 1 || c.mib > 128
    ensures WorkerScript(c, rowPtr) ==
            match c.workload
            case Stream => [Msg(true, 130, 104, 256), Msg(false, 136, 16, 256)]
            case Random => [Msg(true, 130, 104, 256), Msg(false, 139, 16, 256)]
            case Vmap => [Msg(true, 130, 104, 256), Msg(false, 142, 16, 256)]
            case _ => [Msg(true, 130, 104, 256)]
  {
  }

  /** In a loop over the workers each has its turn in order, with as many messages as the others. */
  lemma {:induction false} InTurn(n: nat, body: nat -> seq<Msg>, each: nat, w: nat, j: nat)
    requires w < n && j < each && forall v :: 0 <= v < n ==> |body(v)| == each
    ensures |ForWorkers(n, body)| == n * each && 0 <= w * each + j < n * each
    ensures ForWorkers(n, body)[w * each + j] == (w, body(w)[j])
    decreases n
  {
    TurnsLength(n - 1, body, each);
    OneMore(n - 1, each);
    if w < n - 1 {
      InTurn(n - 1, body, each, w, j);
    }
  }

  lemma {:induction false} TurnsLength(n: nat, body: nat -> seq<Msg>, each: nat)
    requires forall v :: 0 <= v < n ==> |body(v)| == each
    ensures |ForWorkers(n, body)| == n * each
    decreases n
  {
    if n > 0 {
      TurnsLength(n - 1, body, each);
      OneMore(n - 1, each);
    }
  }

  lemma RoundSizes(p: Params, w: nat)
    requires Valid(p) && w < p.workers
    ensures |Scatter(p)(w)| == 1 && Scatter(p)(w)[0].toWorker
    ensures |Gather(p)(w)| == (if p.workload == Stream || p.workload == Random then 1 else 2)
    ensures forall j :: 0 <= j < |Gather(p)(w)| ==> !Gather(p)(w)[j].toWorker
  {
  }

  /** In every round the master sends to all workers in order before it receives from the first of them. */
  lemma RoundOrder(p: Params, w: nat, j: nat)
    requires Valid(p) && w < p.workers
    requires j < if p.workload == Stream || p.workload == Random then 1 else 2
    ensures var each := if p.workload == Stream || p.workload == Random then 1 else 2;
            && |Round(p)| == p.workers + p.workers * each
            && Round(p)[w].0 == w && Round(p)[w].1.toWorker
            && 0 <= w * each + j < p.workers * each
            && Round(p)[p.workers + (w * each + j)].0 == w && !Round(p)[p.workers + (w * each + j)].1.toWorker
  {
    hide ForWorkers, Scatter, Gather;
    var each := if p.workload == Stream || p.workload == Random then 1 else 2;
    forall v | 0 <= v < p.workers ensures |Scatter(p)(v)| == 1 && |Gather(p)(v)| == each {
      RoundSizes(p, v);
    }
    RoundSizes(p, w);
    InTurn(p.workers, Scatter(p), 1, w, 0);
    InTurn(p.workers, Gather(p), each, w, j);
  }

  /** What the option parser lets through. */
  lemma ParametersAre(p: Params)
    ensures Valid(p) <==>
              && 1 <= p.workers <= 128 && 1 <= p.runs <= 1000
              && (p.workload == Cg ==>
                    && Cg.Shaped(p.matrix, p.n, p.n) && 1 <= p.n <= 2147483646 && 1 <= p.iters <= 2147483647
                    && |p.matrix.colIdx| <= 2147483647)
              && (p.workload == Random ==> 32 <= p.mib <= 256)
              && (p.workload == Stream || p.workload == Vmap ==> 1 <= p.mib <= 128)
  {
  }
}
