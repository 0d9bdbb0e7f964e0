/**
 The invariant of one session of the task queue.

 The frames still travelling to a worker are folded into the worker's state: `Absorbs` is where the
 worker will stand once it has consumed them. A session is consistent when that future state, and
 the replies travelling back, are what the master believes about the worker.
 */
module TaskqLinks {
  import opened Xorshift
  import opened TaskqData
  import opened TaskqSystem
  import opened Protocol

  /** Consuming one frame at the head of the channel. */
  function Absorb(w: Worker, f: Frame): Worker {
    if Receiving(w) && f.tag == WantTag(w) && Length(f.body) == WantLength(w) && f.ctr == w.recvCtr
    then OnBody(w.(recvCtr := w.recvCtr + 1), f.body)
    else w.(pc := WorkerFailed)
  }

  function Absorbs(w: Worker, q: seq<Frame>): Worker
    decreases |q|
  {
    if q == [] then w else Absorbs(Absorb(w, q[0]), q[1..])
  }

  lemma {:induction false} FailureIsAbsorbed(w: Worker, q: seq<Frame>)
    requires w.pc.WorkerFailed?
    ensures Absorbs(w, q).pc.WorkerFailed?
    decreases |q|
  {
    if q != [] {
      FailureIsAbsorbed(Absorb(w, q[0]), q[1..]);
    }
  }

  lemma {:induction false} AbsorbsAppend(w: Worker, q: seq<Frame>, f: Frame)
    ensures Absorbs(w, q + [f]) == Absorb(Absorbs(w, q), f)
    decreases |q|
  {
    if q == [] {
      assert [] + [f] == [f] && [f][1..] == [];
    } else {
      assert (q + [f])[0] == q[0] && (q + [f])[1..] == q[1..] + [f];
      AbsorbsAppend(Absorb(w, q[0]), q[1..], f);
    }
  }

  /** If the whole channel can be absorbed, the worker's next receive takes its head and accepts it. */
  lemma HeadIsTaken(w: Worker, q: seq<Frame>)
    requires q != [] && !Absorbs(w, q).pc.WorkerFailed?
    ensures Receiving(w)
    ensures Take(q, w.recvCtr, WantTag(w), WantLength(w)) == Got(q[0].body, q[1..])
    ensures Absorb(w, q[0]) == OnBody(w.(recvCtr := w.recvCtr + 1), q[0].body)
  {
    if Absorb(w, q[0]).pc.WorkerFailed? {
      FailureIsAbsorbed(Absorb(w, q[0]), q[1..]);
    }
    assert q[..0] + q[1..] == q[1..];
  }

  // ----------------------------------------------------------- what the master believes

  /** The master's knowledge of one worker, read off its program counter and its arrays. */
  datatype View =
    | Unstarted
    | Booting
    | BeforeRun(run: nat)
    | Idle(run: nat)
    | HalfSent(run: nat, id: nat)
    | Working(run: nat, id: nat)
    | OutputDue(run: nat, id: nat, result: TaskResult)

  function HonestWork(p: Params, run: nat, id: nat): Work
    requires p.config.bytes > 0
  {
    Compute(p.config, id, run, InputBytes(id, run, p.config.bytes))
  }

  predicate IsReady(p: Params, f: Frame, ctr: nat) {
    f == Frame(ctr, TAG_TASKQ_READY, Ready(true, p.config.bytes))
  }

  predicate HonestResult(p: Params, run: nat, id: nat, r: TaskResult)
    requires p.config.bytes > 0
  {
    HeaderOk(p, run, id, r) && r.token == HonestWork(p, run, id).token
  }

  predicate IsResult(p: Params, run: nat, id: nat, f: Frame, ctr: nat)
    requires p.config.bytes > 0
  {
    f.ctr == ctr && f.tag == TAG_TASKQ_RESULT && f.body.Reply? && HonestResult(p, run, id, f.body.result)
  }

  predicate IsOutput(p: Params, run: nat, id: nat, f: Frame, ctr: nat)
    requires p.config.bytes > 0
  {
    f == Frame(ctr, TAG_TASKQ_OUTPUT, Payload(HonestWork(p, run, id).output))
  }

  /** Messages a worker may still send before it must receive again, counting its unread input. */
  function Credit(w: Worker): nat {
    match w.pc
    case SendRefusal => 1
    case SendReady => 1
    case AwaitInput(_) => 1
    case SendResult(_) => 2
    case SendOutput(_) => 1
    case _ => 0
  }

  ghost predicate Counted(l: Link) {
    && l.worker.sendCtr == l.recvCtr + |l.up|
    && l.worker.recvCtr + |l.down| == l.sendCtr
    && l.worker.sendCtr + Credit(l.worker) <= l.worker.recvCtr
  }

  ghost predicate Matches(p: Params, v: View, l: Link)
    requires p.config.bytes > 0
  {
    var w := l.worker;
    var a := Absorbs(w, l.down);
    match v
    case Unstarted => l.up == [] && l.down == [] && a.pc == AwaitCmd
    case Booting =>
      || (l.up == [] && a.pc == SendReady)
      || (l.down == [] && w == AtRun(w, 1) && |l.up| == 1 && IsReady(p, l.up[0], l.recvCtr))
    case BeforeRun(r) => l.up == [] && a == AtRun(a, r)
    case Idle(r) => l.up == [] && a.pc == AwaitTask && a.run == r
    case HalfSent(r, id) => l.up == [] && a.pc == AwaitInput(id) && a.run == r
    case Working(r, id) =>
      && a.run == r
      && (|| (l.up == [] && a.pc == SendResult(HonestWork(p, r, id)))
          || (l.down == [] && |l.up| == 1 && IsResult(p, r, id, l.up[0], l.recvCtr)
              && w.pc == SendOutput(HonestWork(p, r, id).output))
          || (l.down == [] && |l.up| == 2 && IsResult(p, r, id, l.up[0], l.recvCtr)
              && IsOutput(p, r, id, l.up[1], l.recvCtr + 1) && w.pc == AwaitTask))
    case OutputDue(r, id, result) =>
      && a.run == r
      && l.down == []
      && HonestResult(p, r, id, result)
      && (|| (l.up == [] && w.pc == SendOutput(HonestWork(p, r, id).output))
          || (|l.up| == 1 && IsOutput(p, r, id, l.up[0], l.recvCtr) && w.pc == AwaitTask))
  }

  ghost predicate LinkOk(p: Params, v: View, l: Link)
    requires p.config.bytes > 0
  {
    && Counted(l)
    && (!v.Unstarted? ==> Absorbs(l.worker, l.down).config == p.config)
    && Matches(p, v, l)
  }

  // --------------------------------------------------------------- steps of the worker

  /** Receiving leaves the send counter alone and earns at most one more message to send. */
  lemma BodyEarnsOne(w: Worker, b: Body)
    requires Receiving(w) && !OnBody(w, b).pc.WorkerFailed?
    ensures OnBody(w, b).sendCtr == w.sendCtr && OnBody(w, b).recvCtr == w.recvCtr
    ensures Credit(OnBody(w, b)) <= Credit(w) + 1
  {
  }

  lemma ReceiveIsAbsorb(l: Link, elapsed: Elapsed)
    requires l.down != [] && !Absorbs(l.worker, l.down).pc.WorkerFailed?
    ensures WorkerStep(l, elapsed) == l.(worker := Absorb(l.worker, l.down[0]), down := l.down[1..])
    ensures !Absorb(l.worker, l.down[0]).pc.WorkerFailed?
  {
    HeadIsTaken(l.worker, l.down);
    if Absorb(l.worker, l.down[0]).pc.WorkerFailed? {
      FailureIsAbsorbed(Absorb(l.worker, l.down[0]), l.down[1..]);
    }
  }

  lemma AbsorbCounted(l: Link)
    requires Counted(l) && l.down != [] && !Absorbs(l.worker, l.down).pc.WorkerFailed?
    ensures Counted(l.(worker := Absorb(l.worker, l.down[0]), down := l.down[1..]))
  {
    HeadIsTaken(l.worker, l.down);
    if Absorb(l.worker, l.down[0]).pc.WorkerFailed? {
      FailureIsAbsorbed(Absorb(l.worker, l.down[0]), l.down[1..]);
    }
    BodyEarnsOne(l.worker.(recvCtr := l.worker.recvCtr + 1), l.down[0].body);
  }

  lemma ReceiveKeepsLink(p: Params, v: View, l: Link, elapsed: Elapsed)
    requires p.config.bytes > 0 && LinkOk(p, v, l) && l.down != []
    ensures LinkOk(p, v, WorkerStep(l, elapsed))
    ensures WorkerStep(l, elapsed) == l.(worker := Absorb(l.worker, l.down[0]), down := l.down[1..])
    ensures !WorkerStep(l, elapsed).worker.pc.WorkerFailed?
  {
    assert !Absorbs(l.worker, l.down).pc.WorkerFailed?;
    ReceiveIsAbsorb(l, elapsed);
    AbsorbCounted(l);
  }

  lemma SendReadyKeepsLink(p: Params, v: View, l: Link, elapsed: Elapsed)
    requires p.config.bytes > 0 && LinkOk(p, v, l) && l.down == [] && l.sendCtr <= U64_MAX
    requires l.worker.pc.SendReady?
    ensures LinkOk(p, v, WorkerStep(l, elapsed))
    ensures !WorkerStep(l, elapsed).worker.pc.WorkerFailed?
  {
  }

  lemma SendResultKeepsLink(p: Params, v: View, l: Link, elapsed: Elapsed)
    requires p.config.bytes > 0 && LinkOk(p, v, l) && l.down == [] && l.sendCtr <= U64_MAX
    requires l.worker.pc.SendResult?
    ensures LinkOk(p, v, WorkerStep(l, elapsed))
    ensures WorkerStep(l, elapsed).worker.pc.SendOutput?
  {
    assert v.Working?;
    HonestWorkVerifies(p.config, v.id, v.run, p.config.bytes);
  }

  lemma SendOutputKeepsLink(p: Params, v: View, l: Link, elapsed: Elapsed)
    requires p.config.bytes > 0 && LinkOk(p, v, l) && l.down == [] && l.sendCtr <= U64_MAX
    requires l.worker.pc.SendOutput?
    ensures LinkOk(p, v, WorkerStep(l, elapsed))
    ensures WorkerStep(l, elapsed).worker.pc.AwaitTask?
  {
    assert v.Working? || v.OutputDue?;
  }

  /** A worker that has nothing to read is blocked or sends its next message. */
  lemma SendKeepsLink(p: Params, v: View, l: Link, elapsed: Elapsed)
    requires p.config.bytes > 0 && LinkOk(p, v, l) && l.down == [] && l.sendCtr <= U64_MAX
    ensures LinkOk(p, v, WorkerStep(l, elapsed))
    ensures !WorkerStep(l, elapsed).worker.pc.WorkerFailed?
  {
    match l.worker.pc
    case SendReady => SendReadyKeepsLink(p, v, l, elapsed);
    case SendResult(_) => SendResultKeepsLink(p, v, l, elapsed);
    case SendOutput(_) => SendOutputKeepsLink(p, v, l, elapsed);
    case _ =>
  }

  lemma WorkerKeepsLink(p: Params, v: View, l: Link, elapsed: Elapsed)
    requires p.config.bytes > 0 && LinkOk(p, v, l) && l.sendCtr <= U64_MAX
    ensures LinkOk(p, v, WorkerStep(l, elapsed))
    ensures !WorkerStep(l, elapsed).worker.pc.WorkerFailed?
  {
    if l.down == [] {
      SendKeepsLink(p, v, l, elapsed);
    } else {
      ReceiveKeepsLink(p, v, l, elapsed);
    }
  }

  // --------------------------------------------------------------- steps of the master

  lemma PushAbsorbs(l: Link, tag: int, b: Body)
    ensures Absorbs(l.worker, Push(l, tag, b).down) == Absorb(Absorbs(l.worker, l.down), Frame(l.sendCtr, tag, b))
  {
    AbsorbsAppend(l.worker, l.down, Frame(l.sendCtr, tag, b));
  }

  /** While nothing is due back, the worker's future counter is the master's. */
  lemma {:induction false} AbsorbsCounts(w: Worker, q: seq<Frame>)
    requires !Absorbs(w, q).pc.WorkerFailed?
    ensures Absorbs(w, q).recvCtr == w.recvCtr + |q|
    decreases |q|
  {
    if q != [] {
      if Absorb(w, q[0]).pc.WorkerFailed? {
        FailureIsAbsorbed(Absorb(w, q[0]), q[1..]);
      }
      AbsorbsCounts(Absorb(w, q[0]), q[1..]);
    }
  }

  lemma PushCmd(p: Params, l: Link)
    requires p.Valid() && LinkOk(p, Unstarted, l)
    ensures LinkOk(p, Booting, Push(l, TAG_NPB_CMD, Cmd(p.config)))
  {
    PushAbsorbs(l, TAG_NPB_CMD, Cmd(p.config));
  }

  lemma PushControl(p: Params, l: Link, r: nat)
    requires p.Valid() && LinkOk(p, BeforeRun(r), l) && r <= p.config.runs
    ensures LinkOk(p, Idle(r), Push(l, TAG_TASKQ_CONTROL, Control(TASKQ_CONTROL_START, r)))
  {
    AbsorbsCounts(l.worker, l.down);
    PushAbsorbs(l, TAG_TASKQ_CONTROL, Control(TASKQ_CONTROL_START, r));
  }

  lemma PushWork(p: Params, l: Link, r: nat, id: nat)
    requires p.Valid() && LinkOk(p, Idle(r), l) && id < p.config.count
    ensures LinkOk(p, HalfSent(r, id), Push(l, TAG_TASKQ_TASK, WorkBody(p, r, id)))
  {
    AbsorbsCounts(l.worker, l.down);
    PushAbsorbs(l, TAG_TASKQ_TASK, WorkBody(p, r, id));
  }

  lemma PushInput(p: Params, l: Link, r: nat, id: nat)
    requires p.Valid() && LinkOk(p, HalfSent(r, id), l)
    ensures LinkOk(p, Working(r, id), Push(l, TAG_TASKQ_INPUT, Payload(InputBytes(id, r, p.config.bytes))))
  {
    AbsorbsCounts(l.worker, l.down);
    PushAbsorbs(l, TAG_TASKQ_INPUT, Payload(InputBytes(id, r, p.config.bytes)));
  }

  lemma PushEnd(p: Params, l: Link, r: nat)
    requires p.Valid() && LinkOk(p, Idle(r), l)
    ensures LinkOk(p, BeforeRun(r + 1), Push(l, TAG_TASKQ_TASK, EndBody(r)))
  {
    AbsorbsCounts(l.worker, l.down);
    PushAbsorbs(l, TAG_TASKQ_TASK, EndBody(r));
  }

  /** The ready message, when it is there, is accepted and leaves the worker before run 1. */
  lemma PullReady(p: Params, l: Link)
    requires p.Valid() && LinkOk(p, Booting, l) && l.up != []
    ensures Take(l.up, l.recvCtr, TAG_TASKQ_READY, READY_SIZE) == Got(Ready(true, p.config.bytes), [])
    ensures LinkOk(p, BeforeRun(1), Pull(l, []))
  {
    assert l.up[..0] + l.up[1..] == [];
  }

  /** A waiting result passes every header check. */
  lemma PullResult(p: Params, l: Link, r: nat, id: nat)
    requires p.Valid() && LinkOk(p, Working(r, id), l) && l.up != []
    ensures var t := Take(l.up, l.recvCtr, TAG_TASKQ_RESULT, RESULT_SIZE);
            && t == Got(l.up[0].body, l.up[1..])
            && l.up[0].body.Reply? && HeaderOk(p, r, id, l.up[0].body.result)
            && LinkOk(p, OutputDue(r, id, l.up[0].body.result), Pull(l, l.up[1..]))
  {
    assert l.up[..0] + l.up[1..] == l.up[1..];
  }

  /** A waiting output passes the token check and the sampled byte checks. */
  lemma PullOutput(p: Params, l: Link, r: nat, id: nat, result: TaskResult)
    requires p.Valid() && LinkOk(p, OutputDue(r, id, result), l) && l.up != []
    ensures var t := Take(l.up, l.recvCtr, TAG_TASKQ_OUTPUT, p.config.bytes);
            && t == Got(l.up[0].body, [])
            && l.up[0].body.Payload? && |l.up[0].body.data| > 0 && OutputOk(p, r, result, l.up[0].body.data)
            && LinkOk(p, Idle(r), Pull(l, []))
  {
    assert l.up[..0] + l.up[1..] == [];
    HonestWorkVerifies(p.config, id, r, p.config.bytes);
    ApplyJump(p.jump, p.config.iters, InitialToken(id, r));
  }
}
