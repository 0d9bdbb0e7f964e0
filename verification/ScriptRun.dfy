/**
 * Scripts of sends and receives: one master talking to several workers over FIFO channels. Each side refuses a
 * message longer than the call allows and checks tag and length of what arrives; the first failure ends the job.
 * A receive waits while its channel is empty. A send puts its message into the channel and may or may not hold its
 * sender back until the message is received.
 */
module ScriptRun {

  /** `max` is the largest size the send and receive calls for this message take. */
  datatype Msg = Msg(toWorker: bool, tag: int, len: nat, max: nat)

  predicate TooLong(m: Msg) {
    m.len > m.max
  }

  /** The master's script: what it exchanges, and with whom. */
  type Script = seq<(nat, Msg)>

  predicate Fits(g: Script) {
    forall k :: 0 <= k < |g| ==> !TooLong(g[k].1)
  }

  /** What a script exchanges with one worker. */
  function Project(g: Script, w: nat): seq<Msg> {
    if g == [] then []
    else Project(g[..|g| - 1], w) + if g[|g| - 1].0 == w then [g[|g| - 1].1] else []
  }

  /** `at` and `pos` say how far the master and each worker are; `failed` that a check did, and the job is over. */
  datatype Net = Net(at: nat, pos: seq<nat>, toW: seq<seq<Msg>>, fromW: seq<seq<Msg>>, failed: bool)

  datatype Who = Master | Worker(w: nat)

  /** Who moves next; `held` is the choice of a send to hold its sender back until the message is received. */
  datatype Move = Move(who: Who, held: bool)

  function Start(n: nat): Net {
    Net(0, seq(n, _ => 0), seq(n, _ => []), seq(n, _ => []), false)
  }

  predicate WellShaped(g: Script, scripts: seq<seq<Msg>>, s: Net) {
    && |s.pos| == |s.toW| == |s.fromW| == |scripts| && s.at <= |g|
    && (forall k :: 0 <= k < |g| ==> g[k].0 < |scripts|)
    && forall w :: 0 <= w < |scripts| ==> s.pos[w] <= |scripts[w]|
  }

  /** A send, a receive that finds a message, or a call that refuses its size argument at once. */
  predicate CanCall(m: Msg, sends: bool, incoming: seq<Msg>) {
    TooLong(m) || sends || incoming != []
  }

  /** Something the party sent has not been received yet. */
  predicate Waits(s: Net, who: Who) {
    match who
    case Master => exists w :: 0 <= w < |s.toW| && s.toW[w] != []
    case Worker(w) => w < |s.fromW| && s.fromW[w] != []
  }

  /** The party has something left to do and is not waiting, for a message or for its own to be received. */
  predicate Enabled(g: Script, scripts: seq<seq<Msg>>, s: Net, move: Move)
    requires WellShaped(g, scripts, s)
  {
    && !s.failed
    && !(move.held && Waits(s, move.who))
    && match move.who
       case Master => s.at < |g| && CanCall(g[s.at].1, g[s.at].1.toWorker, s.fromW[g[s.at].0])
       case Worker(w) =>
         && w < |scripts| && s.pos[w] < |scripts[w]|
         && CanCall(scripts[w][s.pos[w]], !scripts[w][s.pos[w]].toWorker, s.toW[w])
  }

  /** Tag and length, which are all a receiver knows to expect. */
  predicate Expected(arrived: Msg, m: Msg) {
    arrived.tag == m.tag && arrived.len == m.len
  }

  /** The party's next call. */
  function Step(g: Script, scripts: seq<seq<Msg>>, s: Net, move: Move): Net
    requires WellShaped(g, scripts, s)
  {
    if !Enabled(g, scripts, s, move) then s
    else match move.who
      case Master =>
        var (w, m) := g[s.at];
        if TooLong(m) then s.(failed := true)
        else if m.toWorker then s.(at := s.at + 1, toW := s.toW[w := s.toW[w] + [m]])
        else if !Expected(s.fromW[w][0], m) then s.(failed := true)
        else s.(at := s.at + 1, fromW := s.fromW[w := s.fromW[w][1..]])
      case Worker(w) =>
        var m := scripts[w][s.pos[w]];
        if TooLong(m) then s.(failed := true)
        else if !m.toWorker then s.(pos := s.pos[w := s.pos[w] + 1], fromW := s.fromW[w := s.fromW[w] + [m]])
        else if !Expected(s.toW[w][0], m) then s.(failed := true)
        else s.(pos := s.pos[w := s.pos[w] + 1], toW := s.toW[w := s.toW[w][1..]])
  }

  lemma StepShaped(g: Script, scripts: seq<seq<Msg>>, s: Net, move: Move)
    requires WellShaped(g, scripts, s)
    ensures WellShaped(g, scripts, Step(g, scripts, s, move))
  {
  }

  // ----------------------------------------------------------------------------- one link

  /** Whoever is ahead has its messages in flight, all in its own direction; nothing else is. */
  predicate LinkOk(script: seq<Msg>, p: nat, q: nat, toQ: seq<Msg>, fromQ: seq<Msg>) {
    && p <= |script| && q <= |script|
    && if q <= p then toQ == script[q..p] && fromQ == [] && (forall k :: q <= k < p ==> script[k].toWorker)
       else fromQ == script[p..q] && toQ == [] && (forall k :: p <= k < q ==> !script[k].toWorker)
  }

  lemma MasterLink(script: seq<Msg>, p: nat, q: nat, toQ: seq<Msg>, fromQ: seq<Msg>)
    requires LinkOk(script, p, q, toQ, fromQ) && p < |script|
    requires script[p].toWorker || fromQ != []
    ensures script[p].toWorker ==> LinkOk(script, p + 1, q, toQ + [script[p]], fromQ)
    ensures !script[p].toWorker ==> fromQ[0] == script[p] && LinkOk(script, p + 1, q, toQ, fromQ[1..])
  {
  }

  lemma WorkerLink(script: seq<Msg>, p: nat, q: nat, toQ: seq<Msg>, fromQ: seq<Msg>)
    requires LinkOk(script, p, q, toQ, fromQ) && q < |script|
    requires !script[q].toWorker || toQ != []
    ensures !script[q].toWorker ==> LinkOk(script, p, q + 1, toQ, fromQ + [script[q]])
    ensures script[q].toWorker ==> toQ[0] == script[q] && LinkOk(script, p, q + 1, toQ[1..], fromQ)
  {
  }

  // -------------------------------------------------------------------------- projections

  lemma {:induction false} ProjectPrefix(g: Script, at: nat, w: nat)
    requires at <= |g|
    ensures Project(g[..at], w) <= Project(g, w)
    decreases |g|
  {
    if at < |g| {
      ProjectPrefix(g[..|g| - 1], at, w);
      assert g[..|g| - 1][..at] == g[..at];
    } else {
      assert g[..at] == g;
    }
  }

  lemma ProjectNext(g: Script, at: nat, w: nat)
    requires at < |g|
    ensures Project(g[..at + 1], w) == Project(g[..at], w) + if g[at].0 == w then [g[at].1] else []
    ensures Project(g[..at], w) <= Project(g, w) && Project(g[..at + 1], w) <= Project(g, w)
    ensures g[at].0 == w ==> |Project(g[..at], w)| < |Project(g, w)| && Project(g, w)[|Project(g[..at], w)|] == g[at].1
  {
    assert g[..at + 1][..at] == g[..at];
    ProjectPrefix(g, at, w);
    ProjectPrefix(g, at + 1, w);
  }

  /** A script fits exactly when what it exchanges with each worker does. */
  lemma {:induction false} FitsByWorker(g: Script, n: nat)
    requires forall k :: 0 <= k < |g| ==> g[k].0 < n
    ensures Fits(g) <==> forall w :: 0 <= w < n ==> AllFit(Project(g, w))
    decreases |g|
  {
    if g != [] {
      var front, last := g[..|g| - 1], g[|g| - 1];
      FitsByWorker(front, n);
      assert g == front + [last];
      forall w | 0 <= w < n
        ensures AllFit(Project(g, w)) <==> AllFit(Project(front, w)) && (w == last.0 ==> !TooLong(last.1))
      {
        if w == last.0 {
          AllFitOneMore(Project(front, w), last.1);
        } else {
          assert Project(front, w) + [] == Project(front, w);
        }
      }
      FitsOneMore(front, last);
      hide Fits, AllFit, Project;
      if TooLong(last.1) {
        assert last.0 < n && !AllFit(Project(g, last.0));
      } else if !Fits(front) {
        var w: nat :| w < n && !AllFit(Project(front, w));
        assert !AllFit(Project(g, w));
      } else {
        forall w | 0 <= w < n ensures AllFit(Project(g, w)) {
          assert AllFit(Project(front, w));
        }
      }
    }
  }

  lemma FitsOneMore(g: Script, last: (nat, Msg))
    ensures Fits(g + [last]) <==> Fits(g) && !TooLong(last.1)
  {
    assert (g + [last])[|g|] == last;
    assert forall k :: 0 <= k < |g| ==> (g + [last])[k] == g[k];
  }

  lemma AllWorkersFit(g: Script, n: nat)
    requires forall k :: 0 <= k < |g| ==> g[k].0 < n
    requires forall w :: 0 <= w < n ==> AllFit(Project(g, w))
    ensures Fits(g)
  {
    FitsByWorker(g, n);
  }

  lemma Misfit(g: Script, n: nat, w: nat)
    requires forall k :: 0 <= k < |g| ==> g[k].0 < n
    requires w < n && !AllFit(Project(g, w))
    ensures !Fits(g)
  {
    hide AllFit, Fits;
    FitsByWorker(g, n);
  }

  predicate AllFit(script: seq<Msg>) {
    forall k :: 0 <= k < |script| ==> !TooLong(script[k])
  }

  lemma AllFitOneMore(script: seq<Msg>, m: Msg)
    ensures AllFit(script + [m]) <==> AllFit(script) && !TooLong(m)
  {
    assert (script + [m])[|script|] == m;
    assert forall k :: 0 <= k < |script| ==> (script + [m])[k] == script[k];
  }

  // ---------------------------------------------------------------------------- invariant

  /** Each worker runs what the master's script exchanges with it. */
  predicate Dual(g: Script, scripts: seq<seq<Msg>>) {
    && (forall k :: 0 <= k < |g| ==> g[k].0 < |scripts|)
    && forall w :: 0 <= w < |scripts| ==> scripts[w] == Project(g, w)
  }

  /** What the master has done fits, and a failure is that of a message that does not. */
  predicate Inv(g: Script, scripts: seq<seq<Msg>>, s: Net) {
    && Dual(g, scripts) && WellShaped(g, scripts, s)
    && (forall w :: 0 <= w < |scripts| ==>
          LinkOk(scripts[w], |Project(g[..s.at], w)|, s.pos[w], s.toW[w], s.fromW[w]))
    && (forall k :: 0 <= k < s.at ==> !TooLong(g[k].1))
    && (s.failed ==> !Fits(g))
  }

  lemma StartInv(g: Script, scripts: seq<seq<Msg>>)
    requires Dual(g, scripts)
    ensures Inv(g, scripts, Start(|scripts|))
  {
    assert g[..0] == [];
  }

  lemma MasterKeepsInv(g: Script, scripts: seq<seq<Msg>>, s: Net, held: bool)
    requires Inv(g, scripts, s) && Enabled(g, scripts, s, Move(Master, held))
    ensures Inv(g, scripts, Step(g, scripts, s, Move(Master, held)))
    ensures var s' := Step(g, scripts, s, Move(Master, held));
            s'.failed || (s'.at == s.at + 1 && s'.pos == s.pos)
  {
    hide LinkOk, Project, Waits;
    StepShaped(g, scripts, s, Move(Master, held));
    if !TooLong(g[s.at].1) {
      var w := g[s.at].0;
      forall v | 0 <= v < |scripts| ensures
        && |Project(g[..s.at + 1], v)| == |Project(g[..s.at], v)| + (if v == w then 1 else 0)
        && (v == w ==> |Project(g[..s.at], v)| < |scripts[v]| && scripts[v][|Project(g[..s.at], v)|] == g[s.at].1)
      {
        ProjectNext(g, s.at, v);
      }
      MasterLink(scripts[w], |Project(g[..s.at], w)|, s.pos[w], s.toW[w], s.fromW[w]);
    }
  }

  lemma WorkerKeepsInv(g: Script, scripts: seq<seq<Msg>>, s: Net, w: nat, held: bool)
    requires Inv(g, scripts, s) && Enabled(g, scripts, s, Move(Worker(w), held))
    ensures Inv(g, scripts, Step(g, scripts, s, Move(Worker(w), held)))
    ensures var s' := Step(g, scripts, s, Move(Worker(w), held));
            s'.failed || (s'.at == s.at && s'.pos == s.pos[w := s.pos[w] + 1])
  {
    StepShaped(g, scripts, s, Move(Worker(w), held));
    hide LinkOk, Project, Waits;
    if TooLong(scripts[w][s.pos[w]]) {
      assert scripts[w] == Project(g, w) && !AllFit(scripts[w]);
      Misfit(g, |scripts|, w);
    } else {
      WorkerLink(scripts[w], |Project(g[..s.at], w)|, s.pos[w], s.toW[w], s.fromW[w]);
    }
  }

  /** The state after the parties have moved in the given order; a party that waits does not move. */
  function Run(g: Script, scripts: seq<seq<Msg>>, order: seq<Move>): (s: Net)
    requires Dual(g, scripts)
    ensures WellShaped(g, scripts, s)
    decreases |order|
  {
    if order == [] then Start(|scripts|)
    else
      var before := Run(g, scripts, order[..|order| - 1]);
      StepShaped(g, scripts, before, order[|order| - 1]);
      Step(g, scripts, before, order[|order| - 1])
  }

  lemma {:induction false} RunKeepsInv(g: Script, scripts: seq<seq<Msg>>, order: seq<Move>)
    requires Dual(g, scripts)
    ensures Inv(g, scripts, Run(g, scripts, order))
    decreases |order|
  {
    if order == [] {
      StartInv(g, scripts);
    } else {
      var s, move := Run(g, scripts, order[..|order| - 1]), order[|order| - 1];
      RunKeepsInv(g, scripts, order[..|order| - 1]);
      hide Inv, Step, Enabled, Dual;
      OneMove(g, scripts, s, move);
    }
  }

  lemma OneMove(g: Script, scripts: seq<seq<Msg>>, s: Net, move: Move)
    requires Inv(g, scripts, s)
    ensures Inv(g, scripts, Step(g, scripts, s, move))
  {
    if Enabled(g, scripts, s, move) {
      match move.who {
        case Master => MasterKeepsInv(g, scripts, s, move.held);
        case Worker(w) => WorkerKeepsInv(g, scripts, s, w, move.held);
      }
    }
  }

  /** In every interleaving, a check fails only over a message that is too long. */
  lemma NoCheckFails(g: Script, scripts: seq<seq<Msg>>, order: seq<Move>)
    requires Dual(g, scripts) && Fits(g)
    ensures !Run(g, scripts, order).failed
  {
    RunKeepsInv(g, scripts, order);
    hide Run;
  }

  predicate Done(g: Script, scripts: seq<seq<Msg>>, s: Net)
    requires WellShaped(g, scripts, s)
  {
    s.at == |g| && forall w :: 0 <= w < |scripts| ==> s.pos[w] == |scripts[w]|
  }

  /** A script with a message that is too long is never run to its end. */
  lemma NeverDone(g: Script, scripts: seq<seq<Msg>>, order: seq<Move>)
    requires Dual(g, scripts) && !Fits(g)
    ensures !Done(g, scripts, Run(g, scripts, order))
  {
    RunKeepsInv(g, scripts, order);
    hide Run, LinkOk, Project;
  }

  /** A worker that has something to read can read it, and has itself sent nothing that is not yet received. */
  lemma ReaderIsFree(script: seq<Msg>, p: nat, q: nat, toQ: seq<Msg>, fromQ: seq<Msg>)
    requires LinkOk(script, p, q, toQ, fromQ) && toQ != []
    ensures q < |script| && fromQ == []
  {
  }

  /** With nothing under way on a link both sides are at the same place of their script. */
  lemma QuietIsLevel(script: seq<Msg>, p: nat, q: nat, toQ: seq<Msg>, fromQ: seq<Msg>)
    requires LinkOk(script, p, q, toQ, fromQ) && toQ == [] && fromQ == []
    ensures p == q
  {
  }

  lemma AheadHasSent(script: seq<Msg>, p: nat, q: nat, toQ: seq<Msg>, fromQ: seq<Msg>)
    requires LinkOk(script, p, q, toQ, fromQ) && q < |script| == p
    ensures toQ != []
  {
  }

  /**
   * No deadlock: until both scripts are done everywhere or the job has failed, somebody can move, even if every send
   * holds its sender back.
   */
  lemma NeverStuck(g: Script, scripts: seq<seq<Msg>>, order: seq<Move>) returns (who: Who)
    requires Dual(g, scripts) && !Run(g, scripts, order).failed && !Done(g, scripts, Run(g, scripts, order))
    ensures Enabled(g, scripts, Run(g, scripts, order), Move(who, true))
  {
    RunKeepsInv(g, scripts, order);
    var s := Run(g, scripts, order);
    who := Master;
    hide LinkOk, Project, Run;
    if Waits(s, Master) {
      var w :| 0 <= w < |s.toW| && s.toW[w] != [];
      ReaderIsFree(scripts[w], |Project(g[..s.at], w)|, s.pos[w], s.toW[w], s.fromW[w]);
      who := Worker(w);
    } else if s.at < |g| {
      if !Enabled(g, scripts, s, Move(Master, true)) {
        var w := g[s.at].0;
        ProjectNext(g, s.at, w);
        QuietIsLevel(scripts[w], |Project(g[..s.at], w)|, s.pos[w], s.toW[w], s.fromW[w]);
        who := Worker(w);
      }
    } else {
      assert g[..s.at] == g;
      var w :| 0 <= w < |scripts| && s.pos[w] != |scripts[w]|;
      AheadHasSent(scripts[w], |Project(g[..s.at], w)|, s.pos[w], s.toW[w], s.fromW[w]);
      assert false;
    }
  }

  /** When all are done, nothing is left in any channel. */
  lemma DoneIsQuiet(g: Script, scripts: seq<seq<Msg>>, order: seq<Move>, w: nat)
    requires Dual(g, scripts) && Done(g, scripts, Run(g, scripts, order)) && w < |scripts|
    ensures var s := Run(g, scripts, order); s.toW[w] == [] && s.fromW[w] == []
  {
    RunKeepsInv(g, scripts, order);
    var s := Run(g, scripts, order);
    assert g[..s.at] == g;
    assert LinkOk(scripts[w], |Project(g[..s.at], w)|, s.pos[w], s.toW[w], s.fromW[w]);
  }

  // ----------------------------------------------------------------------------- progress

  function Total(counts: seq<nat>): nat {
    if counts == [] then 0 else Total(counts[..|counts| - 1]) + counts[|counts| - 1]
  }

  lemma {:induction false} TotalUpdate(counts: seq<nat>, w: nat)
    requires w < |counts|
    ensures Total(counts[w := counts[w] + 1]) == Total(counts) + 1
    decreases |counts|
  {
    var last := |counts| - 1;
    var more := counts[w := counts[w] + 1];
    if w < last {
      assert more[..last] == counts[..last][w := counts[w] + 1];
      TotalUpdate(counts[..last], w);
    } else {
      assert more[..last] == counts[..last];
    }
  }

  lemma {:induction false} TotalMonotone(a: seq<nat>, b: seq<nat>)
    requires |a| == |b| && forall w :: 0 <= w < |a| ==> a[w] <= b[w]
    ensures Total(a) <= Total(b)
    decreases |a|
  {
    if a != [] {
      TotalMonotone(a[..|a| - 1], b[..|b| - 1]);
    }
  }

  function Lengths(scripts: seq<seq<Msg>>): (r: seq<nat>)
    ensures |r| == |scripts| && forall w :: 0 <= w < |scripts| ==> r[w] == |scripts[w]|
  {
    seq(|scripts|, w requires 0 <= w < |scripts| => |scripts[w]|)
  }

  /** Calls still to be made, on both sides. */
  function Left(g: Script, scripts: seq<seq<Msg>>, s: Net): int {
    |g| - s.at + Total(Lengths(scripts)) - Total(s.pos)
  }

  /** Every move is a failure or one call fewer to make, and there are never fewer than none. */
  lemma MoveSpends(g: Script, scripts: seq<seq<Msg>>, s: Net, move: Move)
    requires Inv(g, scripts, s) && Enabled(g, scripts, s, move)
    ensures Left(g, scripts, s) >= 0
    ensures Step(g, scripts, s, move).failed || Left(g, scripts, Step(g, scripts, s, move)) == Left(g, scripts, s) - 1
  {
    TotalMonotone(s.pos, Lengths(scripts));
    if move.who.Worker? {
      TotalUpdate(s.pos, move.who.w);
    }
    hide Inv, Step, Total;
    match move.who {
      case Master => MasterKeepsInv(g, scripts, s, move.held);
      case Worker(w) => WorkerKeepsInv(g, scripts, s, w, move.held);
    }
  }

  /**
   * Any interleaving can be continued to one where the job is done or has failed, with no further send returning
   * before its message is received.
   */
  lemma {:induction false} RunsToEnd(g: Script, scripts: seq<seq<Msg>>, order: seq<Move>) returns (longer: seq<Move>)
    requires Dual(g, scripts)
    ensures order <= longer && forall i :: |order| <= i < |longer| ==> longer[i].held
    ensures Run(g, scripts, longer).failed || Done(g, scripts, Run(g, scripts, longer))
    decreases !Run(g, scripts, order).failed, Left(g, scripts, Run(g, scripts, order)) + 1
  {
    var s := Run(g, scripts, order);
    longer := order;
    if !s.failed && !Done(g, scripts, s) {
      var who := NeverStuck(g, scripts, order);
      var move := Move(who, true);
      RunKeepsInv(g, scripts, order);
      MoveSpends(g, scripts, s, move);
      assert (order + [move])[..|order|] == order;
      hide Inv, Enabled, Step, Done, Dual, Left;
      longer := RunsToEnd(g, scripts, order + [move]);
    }
  }

  /** No interleaving fails exactly when every message fits the call that sends and the call that receives it. */
  lemma NoRunFailsIff(g: Script, scripts: seq<seq<Msg>>)
    requires Dual(g, scripts)
    ensures (forall order :: !Run(g, scripts, order).failed) <==> Fits(g)
  {
    hide Run, Done, Dual;
    if Fits(g) {
      forall order ensures !Run(g, scripts, order).failed {
        NoCheckFails(g, scripts, order);
      }
    } else {
      var order := RunsToEnd(g, scripts, []);
      NeverDone(g, scripts, order);
    }
  }

  // ------------------------------------------------------------------- what one call does

  /** A call with too large a size fails; a receive fails exactly on another tag or another length. */
  lemma MasterCallFailsIff(g: Script, scripts: seq<seq<Msg>>, s: Net, held: bool)
    requires WellShaped(g, scripts, s) && Enabled(g, scripts, s, Move(Master, held))
    ensures var (w, m) := g[s.at];
            Step(g, scripts, s, Move(Master, held)).failed <==>
              || m.len > m.max
              || (!m.toWorker && (s.fromW[w][0].tag != m.tag || s.fromW[w][0].len != m.len))
  {
    hide Waits;
  }

  lemma WorkerCallFailsIff(g: Script, scripts: seq<seq<Msg>>, s: Net, w: nat, held: bool)
    requires WellShaped(g, scripts, s) && Enabled(g, scripts, s, Move(Worker(w), held))
    ensures var m := scripts[w][s.pos[w]];
            Step(g, scripts, s, Move(Worker(w), held)).failed <==>
              || m.len > m.max
              || (m.toWorker && (s.toW[w][0].tag != m.tag || s.toW[w][0].len != m.len))
  {
    hide Waits;
  }

  /** A party can call exactly when it has a call left and a receive has something to take. */
  lemma CallsIff(g: Script, scripts: seq<seq<Msg>>, s: Net)
    requires WellShaped(g, scripts, s) && !s.failed
    ensures Enabled(g, scripts, s, Move(Master, false)) <==>
              s.at < |g| && var (w, m) := g[s.at]; m.toWorker || m.len > m.max || s.fromW[w] != []
    ensures forall w :: 0 <= w < |scripts| ==>
              (Enabled(g, scripts, s, Move(Worker(w), false)) <==>
                 && s.pos[w] < |scripts[w]|
                 && (!scripts[w][s.pos[w]].toWorker || scripts[w][s.pos[w]].len > scripts[w][s.pos[w]].max
                     || s.toW[w] != []))
  {
    hide Waits;
  }
}
