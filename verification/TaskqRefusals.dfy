/** What the receives and checks of the task queue refuse: each stands for exactly the condition stated here. */
module TaskqRefusals {
  import opened Bits
  import opened Xorshift
  import opened TaskqData
  import opened TaskqSamples
  import opened TaskqSystem
  import opened Protocol

  /** Frame `i` is the earliest one with the tag. */
  ghost predicate Earliest(q: seq<Frame>, tag: int, i: nat) {
    i < |q| && q[i].tag == tag && forall j :: 0 <= j < i ==> q[j].tag != tag
  }

  lemma {:induction false} FirstIsEarliest(q: seq<Frame>, tag: int)
    ensures var i := FirstWithTag(q, tag);
            && (i < |q| ==> Earliest(q, tag, i))
            && (i == |q| ==> forall j :: 0 <= j < |q| ==> q[j].tag != tag)
  {
    if q != [] && q[0].tag != tag {
      FirstIsEarliest(q[1..], tag);
      var i := FirstWithTag(q[1..], tag);
      forall j | 0 <= j < i + 1 ensures q[j].tag != tag {
        if j > 0 {
          assert q[1..][j - 1] == q[j];
        }
      }
    }
  }

  lemma EarliestIsFirst(q: seq<Frame>, tag: int, i: nat)
    requires Earliest(q, tag, i)
    ensures FirstWithTag(q, tag) == i
  {
    FirstIsEarliest(q, tag);
    var j := FirstWithTag(q, tag);
    assert !(i < j) && !(j < i);
  }

  /** `sizeof` of the structures a body stands for. */
  lemma Sizes(b: Body)
    ensures match b
            case Cmd(_) => Length(b) == 104
            case Ready(_, _) => Length(b) == 16
            case Control(_, _) => Length(b) == 8
            case Task(_, _, _, _, _) => Length(b) == 32
            case Reply(_) => Length(b) == 40
            case Payload(data) => Length(b) == |data|
  {
  }

  /** A receive waits exactly while no frame has its tag. */
  lemma WaitsIff(q: seq<Frame>, ctr: nat, tag: int, len: nat)
    ensures Take(q, ctr, tag, len).Blocked? <==> forall j :: 0 <= j < |q| ==> q[j].tag != tag
  {
    FirstIsEarliest(q, tag);
    hide Length;
  }

  /** Otherwise the earliest such frame is taken, and refused exactly when its length or its counter is wrong. */
  lemma TakesEarliest(q: seq<Frame>, ctr: nat, tag: int, len: nat, i: nat)
    requires Earliest(q, tag, i)
    ensures Take(q, ctr, tag, len)
            == if Length(q[i].body) == len && q[i].ctr == ctr then Got(q[i].body, q[..i] + q[i + 1..]) else Bad
  {
    EarliestIsFirst(q, tag, i);
    hide Length;
  }

  /** What a worker does with a body, state by state; everything else makes it give up. */
  lemma WorkerTakes(w: Worker, b: Body)
    requires Receiving(w)
    ensures match w.pc
            case AwaitCmd =>
              !OnBody(w, b).pc.WorkerFailed? <==> b.Cmd?
            case AwaitControl =>
              !OnBody(w, b).pc.WorkerFailed? <==> b == Control(1, w.run)
            case AwaitTask =>
              !OnBody(w, b).pc.WorkerFailed? <==>
                && b.Task? && b.run == w.run
                && (|| b.command == 2
                    || (b.command == 1 && b.id < w.config.count && b.bytes == w.config.bytes
                        && b.iterations == w.config.iters))
            case AwaitInput(_) =>
              !OnBody(w, b).pc.WorkerFailed? <==> b.Payload? && |b.data| == w.config.bytes > 0
  {
    hide Compute;
  }

  /** A command that asks for no bytes, too many, no tasks or no iterations is answered with a refusal. */
  lemma CommandRefused(w: Worker, c: Config)
    requires w.pc.AwaitCmd?
    ensures OnBody(w, Cmd(c)).pc.SendRefusal? <==>
              !(1 <= c.bytes <= 1048576 && c.count > 0 && c.iters > 0)
    ensures !OnBody(w, Cmd(c)).pc.SendRefusal? ==> OnBody(w, Cmd(c)).pc.SendReady? && OnBody(w, Cmd(c)).config == c
  {
  }

  /** The master accepts a readiness report exactly when it is positive and of the right size. */
  lemma ReadyRefusedIff(p: Params, s: System, k: nat, i: nat)
    requires Shaped(p, s) && s.m.pc == AwaitReady(k) && k < p.workers && Earliest(s.links[k].up, TAG_TASKQ_READY, i)
    ensures var f := s.links[k].up[i];
            MasterStep(p, s).m.pc.MasterFailed? <==>
              !(Length(f.body) == 16 && f.ctr == s.links[k].recvCtr && f.body == Ready(true, p.config.bytes))
  {
    TakesEarliest(s.links[k].up, s.links[k].recvCtr, TAG_TASKQ_READY, 16, i);
    hide Length, FirstWithTag;
  }

  /** A polled result is refused exactly when one of its fields is not what was asked for. */
  lemma ResultRefusedIff(p: Params, s: System, k: nat, i: nat)
    requires Shaped(p, s) && s.m.pc == Poll(k) && k < p.workers && s.m.plan.busy[k]
    requires Earliest(s.links[k].up, TAG_TASKQ_RESULT, i)
    ensures var f := s.links[k].up[i];
            MasterStep(p, s).m.pc.MasterFailed? <==>
              !(&& Length(f.body) == 40 && f.ctr == s.links[k].recvCtr && f.body.Reply?
                && f.body.result.run == s.m.run && f.body.result.verified
                && f.body.result.id == s.m.plan.assignedTask[k] && f.body.result.bytes == p.config.bytes
                && f.body.result.time.Finite? && f.body.result.time.ms >= 0.0)
  {
    TakesEarliest(s.links[k].up, s.links[k].recvCtr, TAG_TASKQ_RESULT, 40, i);
    hide Length, FirstWithTag;
  }

  /** An output is refused exactly when the token or one of the three sampled bytes is wrong. */
  lemma OutputRefusedIff(p: Params, s: System, k: nat, r: TaskResult, i: nat)
    requires Shaped(p, s) && s.m.pc == AwaitOutput(k, r) && k < p.workers && IsJump(p.jump, p.config.iters)
    requires Earliest(s.links[k].up, TAG_TASKQ_OUTPUT, i)
    ensures var f, n := s.links[k].up[i], p.config.bytes;
            MasterStep(p, s).m.pc.MasterFailed? <==>
              !(&& Length(f.body) == n && f.ctr == s.links[k].recvCtr && f.body.Payload?
                && r.token == Iterate(p.config.iters, InitialToken(r.id, s.m.run))
                && IsOutput(f.body.data[0], r.token, r.id, s.m.run, 0)
                && IsOutput(f.body.data[n / 2], r.token, r.id, s.m.run, n / 2)
                && IsOutput(f.body.data[n - 1], r.token, r.id, s.m.run, n - 1))
  {
    hide FirstWithTag, IsOutput, OutputSampled, InitialToken, Iterate, IsJump;
    var l := s.links[k];
    TakesEarliest(l.up, l.recvCtr, TAG_TASKQ_OUTPUT, p.config.bytes, i);
    ApplyJump(p.jump, p.config.iters, InitialToken(r.id, s.m.run));
    if l.up[i].body.Payload? && |l.up[i].body.data| == p.config.bytes {
      OutputSampledIff(l.up[i].body.data, r.token, r.id, s.m.run);
    }
  }

  /** Nobody sends past the last counter: the sender gives up instead, and otherwise its counter goes up by one. */
  lemma SendersStop(p: Params, s: System, k: nat, tag: int, b: Body, m: Master, l: Link, w: Worker)
    requires k < |s.links| && !m.pc.MasterFailed? && !w.pc.WorkerFailed?
    ensures SendTo(s, k, tag, b, m).m.pc.MasterFailed? <==> s.links[k].sendCtr == 18446744073709551615
    ensures !SendTo(s, k, tag, b, m).m.pc.MasterFailed? ==>
              var l' := SendTo(s, k, tag, b, m).links[k];
              l'.sendCtr == s.links[k].sendCtr + 1 && l'.down == s.links[k].down + [Frame(s.links[k].sendCtr, tag, b)]
    ensures Emit(l, tag, b, w).worker.pc.WorkerFailed? <==> l.worker.sendCtr == 18446744073709551615
    ensures !Emit(l, tag, b, w).worker.pc.WorkerFailed? ==>
              && Emit(l, tag, b, w).worker.sendCtr == l.worker.sendCtr + 1
              && Emit(l, tag, b, w).up == l.up + [Frame(l.worker.sendCtr, tag, b)]
  {
  }

  /** What the option parser lets through. */
  lemma ParametersAre(p: Params)
    ensures p.Valid() <==>
              && 1 <= p.workers <= 128 && 1 <= p.config.runs <= 1000 && 1 <= p.config.count < 0x1_0000_0000_0000_0000
              && 1 <= p.config.bytes <= 1048576 && 1 <= p.config.iters < 0x1_0000_0000_0000_0000
              && IsJump(p.jump, p.config.iters)
  {
  }
}
