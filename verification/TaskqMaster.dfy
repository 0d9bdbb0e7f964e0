/**
 The master's task-queue routine on its own arrays.

 What the polled workers answer is an arbitrary sequence of arrivals, one per probe: the schedule
 and the token check are right whatever the workers send, honest or not.
 */
module TaskqMaster {
  import opened Wrappers
  import opened Bits
  import opened Xorshift
  import opened TaskqData
  import opened TaskqSamples
  import opened TaskqSystem
  import opened TaskqInvariant
  import opened TaskqSteps
  import opened TaskqProgress
  import opened Protocol

  /** What one probe finds: the two received messages, each `None` when the channel rejects it. */
  datatype Arrival = Arrival(header: Option<TaskResult>, output: Option<seq<Octet>>)

  datatype Sent = Sent(worker: nat, body: Body)

  /** The task ids handed out, in the order of the task headers sent. */
  function HandedOut(outbox: seq<Sent>): seq<nat> {
    if outbox == [] then []
    else
      var last := outbox[|outbox| - 1].body;
      HandedOut(outbox[..|outbox| - 1]) + if last.Task? && last.command == TASKQ_TASK_WORK then [last.id] else []
  }

  function UpTo(n: nat): seq<nat> {
    seq(n, i => i)
  }

  lemma HandedOutAppend(outbox: seq<Sent>, s: Sent)
    ensures HandedOut(outbox + [s]) ==
            HandedOut(outbox) + if s.body.Task? && s.body.command == TASKQ_TASK_WORK then [s.body.id] else []
  {
    assert (outbox + [s])[..|outbox|] == outbox;
  }

  function Ids(results: seq<TaskResult>): seq<nat> {
    seq(|results|, i requires 0 <= i < |results| => results[i].id)
  }

  /** An accepted result whose token is the one reached by iterating the generator. */
  ghost predicate Genuine(p: Params, run: nat, r: TaskResult) {
    && r.run == run && r.verified && r.bytes == p.config.bytes
    && r.token == Iterate(p.config.iters, InitialToken(r.id, run))
  }

  method FillInput(input: array<Octet>, id: nat, run: nat)
    modifies input
    ensures input[..] == InputBytes(id, run, input.Length)
    ensures forall k :: 0 <= k < input.Length ==> IsInput(input[k], id, run, k)
  {
    hide InputByte, IsInput;
    for i := 0 to input.Length
      invariant forall k :: 0 <= k < i ==> input[k] == InputByte(id, run, k)
    {
      input[i] := InputByte(id, run, i);
    }
    forall k | 0 <= k < input.Length ensures IsInput(input[k], id, run, k) {
      InputByteIs(input[k], id, run, k);
    }
  }

  /** Compares the three sampled positions in turn. */
  method CheckSamples(output: seq<Octet>, token: Word, id: nat, run: nat) returns (ok: bool)
    requires |output| > 0
    ensures ok == OutputSampled(output, token, id, run)
    ensures ok <==>
              && IsOutput(output[0], token, id, run, 0)
              && IsOutput(output[|output| / 2], token, id, run, |output| / 2)
              && IsOutput(output[|output| - 1], token, id, run, |output| - 1)
  {
    OutputSampledIff(output, token, id, run);
    hide IsOutput;
    var samples := [0, |output| / 2, |output| - 1];
    ok := true;
    for sample := 0 to 3
      invariant ok == forall s :: 0 <= s < sample ==> OutputSampleOk(output, token, id, run, samples[s])
    {
      var index := samples[sample];
      var expected := OutputByte(InputByte(id, run, index), token, id, index);
      if output[index] != expected {
        ok := false;
      }
      assert OutputSampleOk(output, token, id, run, samples[sample]) == (output[index] == expected);
    }
    assert samples[0] == 0 && samples[1] == |output| / 2 && samples[2] == |output| - 1;
  }

  /** When nobody is busy any more, every id handed out is among the completed ones. */
  lemma EveryIdOnce(plan: Schedule)
    requires Partition(plan) && NoneBusy(plan)
    ensures forall id: nat :: id in plan.done <==> id < plan.next
  {
    assert forall id: nat :: !Held(plan, id);
  }

  /** Two messages to worker `k`: the header of task `id`, and its genuine input. */
  predicate IsWork(sent: seq<Sent>, k: nat, id: nat, run: nat, config: Config) {
    && |sent| == 2
    && sent[0] == Sent(k, Task(1, run, id, config.iters, config.bytes))
    && sent[1].worker == k && sent[1].body.Payload? && |sent[1].body.data| == config.bytes
    && forall i :: 0 <= i < config.bytes ==> IsInput(sent[1].body.data[i], id, run, i)
  }

  class TaskQueue {
    const workers: nat
    const config: Config
    const jump: array<Word>
    const input: array<Octet>
    const busy: array<bool>
    const assignedTask: array<nat>
    var next: nat
    var completed: nat
    var status: int
    var outbox: seq<Sent>
    ghost var accepted: seq<TaskResult>

    function P(): Params
      reads jump
    {
      Params(workers, config, jump[..])
    }

    ghost predicate Valid()
      reads jump
    {
      && P().Valid()
      && jump.Length == 64
      && input.Length == config.bytes
      && busy.Length == assignedTask.Length == workers
    }

    ghost function Plan(): Schedule
      reads this, busy, assignedTask
    {
      Schedule(busy[..], assignedTask[..], next, completed, Ids(accepted))
    }

    /** Everything the loops of a run maintain. */
    ghost predicate Running(run: nat)
      reads this, jump, busy, assignedTask
    {
      && Valid()
      && Scheduled(P(), Plan())
      && HandedOut(outbox) == UpTo(next)
      && forall r :: r in accepted ==> Genuine(P(), run, r)
    }

    constructor (workers: nat, config: Config)
      requires 1 <= workers <= MAX_WORKERS && 1 <= config.runs <= MAX_RUNS && 1 <= config.count <= U64_MAX
      requires TASKQ_MIN_BYTES <= config.bytes <= TASKQ_MAX_BYTES && 1 <= config.iters <= U64_MAX
      ensures Valid() && this.workers == workers && this.config == config
      ensures fresh(jump) && fresh(input) && fresh(busy) && fresh(assignedTask)
    {
      this.workers, this.config := workers, config;
      jump := new Word[64](_ => ZERO);
      input := new Octet[config.bytes](_ => Zeros(8));
      busy := new bool[workers](_ => false);
      assignedTask := new nat[workers](_ => 0);
      next, completed, status, outbox, accepted := 0, 0, 0, [], [];
      new;
      BuildXorshiftJump(config.iters, jump);
    }

    method Send(k: nat, b: Body)
      modifies this`outbox
      ensures outbox == old(outbox) + [Sent(k, b)]
      ensures HandedOut(outbox) ==
              HandedOut(old(outbox)) + if b.Task? && b.command == TASKQ_TASK_WORK then [b.id] else []
    {
      HandedOutAppend(outbox, Sent(k, b));
      outbox := outbox + [Sent(k, b)];
    }

    /** Sends worker `k` the next task and records the assignment. */
    method Handout(k: nat, run: nat)
      requires Valid() && k < workers && Scheduled(P(), Plan()) && !busy[k] && next < config.count
      requires HandedOut(outbox) == UpTo(next)
      modifies this`next, this`outbox, input, busy, assignedTask
      ensures Plan() == Assign(old(Plan()), k)
      ensures HandedOut(outbox) == UpTo(next)
      ensures outbox == old(outbox) + [Sent(k, WorkBody(P(), run, old(next))),
                                       Sent(k, Payload(InputBytes(old(next), run, config.bytes)))]
      ensures next == old(next) + 1 && busy[k] && assignedTask[k] == old(next)
      ensures IsWork(outbox[|old(outbox)|..], k, old(next), run, config)
    {
      hide IsInput;
      assignedTask[k] := next;
      FillInput(input, next, run);
      Send(k, WorkBody(P(), run, next));
      Send(k, Payload(input[..]));
      next := next + 1;
      busy[k] := true;
    }

    /** Clears the per-run state and sends START to every worker. */
    method BeginRun(run: nat)
      requires Valid()
      modifies this, busy, assignedTask
      ensures Plan() == NewPlan(workers) && status == 0 && Running(run)
      ensures next == completed == 0 && accepted == [] && forall k :: 0 <= k < workers ==> !busy[k]
      ensures |outbox| == workers && forall k :: 0 <= k < workers ==> outbox[k] == Sent(k, Control(1, run))
    {
      forall k | 0 <= k < workers { busy[k] := false; }
      forall k | 0 <= k < workers { assignedTask[k] := 0; }
      next, completed, status, outbox, accepted := 0, 0, 0, [], [];
      for worker := 0 to workers
        invariant Plan() == NewPlan(workers) && status == 0 && accepted == []
        invariant HandedOut(outbox) == []
        invariant |outbox| == worker && forall k :: 0 <= k < worker ==> outbox[k] == Sent(k, Control(1, run))
      {
        Send(worker, Control(TASKQ_CONTROL_START, run));
      }
      BusyCountAll(busy[..], false);
    }

    /** Gives each worker in turn one task, while there are any. */
    method DistributeFirst(run: nat)
      requires Valid() && Plan() == NewPlan(workers) && Running(run)
      modifies this`next, this`outbox, input, busy, assignedTask
      ensures Running(run)
      ensures next < config.count ==> AllBusy(Plan())
      ensures next == if workers <= config.count then workers else config.count
      ensures forall k :: 0 <= k < workers ==> (busy[k] <==> k < next) && (busy[k] ==> assignedTask[k] == k)
    {
      hide IsWork;
      for worker := 0 to workers
        invariant Running(run)
        invariant next == if worker <= config.count then worker else config.count
        invariant FirstBusy(Plan(), next)
        invariant forall k :: 0 <= k < next ==> assignedTask[k] == k
      {
        if next < config.count {
          AssignKeepsSchedule(P(), Plan(), worker);
          Handout(worker, run);
        }
      }
    }

    /**
     * All checks on one arrival from a worker that was given `task`: everything the header says, the token, and the
     * three sampled bytes. One wrong byte among them is enough to refuse it.
     */
    method Check(task: nat, run: nat, arrival: Arrival) returns (ok: bool)
      requires Valid()
      ensures ok <==>
              && arrival.header.Some? && HeaderOk(P(), run, task, arrival.header.value)
              && arrival.output.Some? && |arrival.output.value| == config.bytes
              && OutputOk(P(), run, arrival.header.value, arrival.output.value)
      ensures ok <==>
                && arrival.header.Some? && arrival.output.Some?
                && var r, output := arrival.header.value, arrival.output.value;
                   && r.run == run && r.verified && r.id == task && r.bytes == config.bytes
                   && r.time.Finite? && r.time.ms >= 0.0
                   && r.token == Iterate(config.iters, InitialToken(task, run))
                   && |output| == config.bytes
                   && IsOutput(output[0], r.token, task, run, 0)
                   && IsOutput(output[config.bytes / 2], r.token, task, run, config.bytes / 2)
                   && IsOutput(output[config.bytes - 1], r.token, task, run, config.bytes - 1)
      ensures ok ==> Genuine(P(), run, arrival.header.value) && arrival.header.value.id == task
    {
      hide IsOutput, InitialToken, Iterate;
      if arrival.header.None? || !HeaderOk(P(), run, task, arrival.header.value) {
        return false;
      }
      var result := arrival.header.value;
      if arrival.output.None? || |arrival.output.value| != config.bytes {
        return false;
      }
      ApplyJump(jump[..], config.iters, InitialToken(result.id, run));
      var expected := LinearMapApply(jump, InitialToken(result.id, run));
      if result.token != expected {
        return false;
      }
      ok := CheckSamples(arrival.output.value, expected, result.id, run);
    }

    /** Records an accepted result and frees its worker. */
    method Record(k: nat, run: nat, result: TaskResult)
      requires Running(run) && k < workers && busy[k]
      requires Genuine(P(), run, result) && result.id == assignedTask[k]
      modifies this`completed, this`accepted, busy
      ensures Running(run)
      ensures Plan() == Complete(old(Plan()), k, assignedTask[k])
    {
      hide Genuine, Scheduled;
      assert Ids(accepted + [result]) == Ids(accepted) + [result.id];
      CompleteKeepsSchedule(P(), Plan(), k);
      completed := completed + 1;
      busy[k] := false;
      accepted := accepted + [result];
    }

    /** Completes worker `k`'s task and, while tasks remain, gives the worker the next one. */
    method CompleteAndRefill(k: nat, run: nat, result: TaskResult)
      requires Running(run) && k < workers && busy[k]
      requires next < config.count ==> AllBusy(Plan())
      requires Genuine(P(), run, result) && result.id == assignedTask[k]
      modifies this`next, this`completed, this`outbox, this`accepted, input, busy, assignedTask
      ensures Running(run)
      ensures next < config.count ==> AllBusy(Plan())
      ensures var plan := Complete(old(Plan()), k, old(assignedTask[k]));
              Plan() == if old(next) < config.count then Assign(plan, k) else plan
    {
      hide Genuine;
      Record(k, run, result);
      if next < config.count {
        AssignKeepsSchedule(P(), Plan(), k);
        hide Scheduled;
        Handout(k, run);
      }
    }

    /** Checks one arrival of worker `k`; on success completes its task and hands out another. */
    method Accept(k: nat, run: nat, arrival: Arrival)
      requires Running(run) && status == 0 && k < workers && busy[k]
      requires next < config.count ==> AllBusy(Plan())
      modifies this, input, busy, assignedTask
      ensures Running(run)
      ensures next < config.count ==> AllBusy(Plan())
      ensures status == 0 <==>
              && arrival.header.Some? && HeaderOk(P(), run, old(assignedTask[k]), arrival.header.value)
              && arrival.output.Some? && |arrival.output.value| == config.bytes
              && OutputOk(P(), run, arrival.header.value, arrival.output.value)
      ensures status != 0 ==> Plan() == old(Plan()) && outbox == old(outbox)
      ensures status == 0 ==>
              var plan := Complete(old(Plan()), k, old(assignedTask[k]));
              Plan() == if old(next) < config.count then Assign(plan, k) else plan
    {
      hide OutputOk, HeaderOk, Genuine, Scheduled;
      var ok := Check(assignedTask[k], run, arrival);
      if !ok {
        status := -1;
        return;
      }
      CompleteAndRefill(k, run, arrival.header.value);
    }

    /** One polling sweep over the workers; each probe of a busy one consumes an element of `probes`. */
    method Sweep(run: nat, probes: seq<Option<Arrival>>, ghost someone: nat)
      returns (rest: seq<Option<Arrival>>, dry: bool)
      requires Running(run) && status == 0 && someone < workers && busy[someone]
      requires next < config.count ==> AllBusy(Plan())
      modifies this, input, busy, assignedTask
      ensures Running(run)
      ensures next < config.count ==> AllBusy(Plan())
      ensures !dry ==> |rest| < |probes|
      ensures dry ==> status == 0
    {
      hide Scheduled, Genuine;
      rest, dry := probes, false;
      for worker := 0 to workers
        invariant Running(run) && status == 0 && |rest| <= |probes|
        invariant next < config.count ==> AllBusy(Plan())
        invariant |rest| == |probes| ==> worker <= someone && busy[someone]
      {
        if busy[worker] {
          if rest == [] {
            dry := true;
            return;
          }
          var probe := rest[0];
          rest := rest[1..];
          if probe.Some? {
            Accept(worker, run, probe.value);
            if status != 0 {
              return;
            }
          }
        }
      }
    }

    /**
     One run: distribution, then polling sweeps while tasks are open. When the probes run out the
     run is left unfinished.
     */
    method RunTasks(run: nat, probes: seq<Option<Arrival>>) returns (finished: bool)
      requires Valid()
      modifies this, input, busy, assignedTask
      ensures Running(run)
      ensures next < config.count && status == 0 ==> AllBusy(Plan())
      ensures finished ==> status != 0 || completed == config.count
      ensures finished && status == 0 ==>
              && NoneBusy(Plan()) && next == |Ids(accepted)| == config.count
              && forall id: nat :: id in Ids(accepted) <==> id < config.count
    {
      BeginRun(run);
      DistributeFirst(run);
      var rest := probes;
      while completed < config.count && status == 0
        invariant Running(run)
        invariant next < config.count ==> AllBusy(Plan())
        decreases |rest|
      {
        ghost var someone := SomeoneIsBusy(P(), Plan());
        var dry;
        rest, dry := Sweep(run, rest, someone);
        if dry {
          return false;
        }
      }
      finished := true;
      if status == 0 {
        SweepOver(P(), Plan());
        EveryIdOnce(Plan());
      }
    }
  }
}
