/** Nested deadline scopes over the process's one alarm timer. */
module Deadline {
  import opened Wrappers

  newtype u32 = x: int | 0 <= x < 0x1_0000_0000

  // ---------------------------------------------------------------------------- settings

  predicate IsDigit(c: char) {
    '0' <= c <= '9'
  }

  predicate AllDigits(text: string) {
    forall i :: 0 <= i < |text| ==> IsDigit(text[i])
  }

  function Decimal(text: string): nat
    requires AllDigits(text)
  {
    if text == "" then 0
    else Decimal(text[..|text| - 1]) * 10 + (text[|text| - 1] as int - '0' as int)
  }

  /** The seconds a setting stands for: the fallback when unset, and nothing when it is not 1 to 86400 in digits. */
  function Setting(text: Option<string>, fallback: u32): Option<u32> {
    match text
    case None => Some(fallback)
    case Some(t) => if AllDigits(t) && 1 <= Decimal(t) <= 86400 then Some(Decimal(t) as u32) else None
  }

  lemma {:induction false} PrefixNotLarger(text: string, i: nat)
    requires AllDigits(text) && i <= |text|
    ensures Decimal(text[..i]) <= Decimal(text)
    decreases |text|
  {
    if i < |text| {
      PrefixNotLarger(text[..|text| - 1], i);
      assert text[..|text| - 1][..i] == text[..i];
    } else {
      assert text[..i] == text;
    }
  }

  /** Each digit counts for ten times the one behind it: the first of n + 1 digits for 10^n. */
  lemma {:induction false} LeadingDigit(c: char, rest: string)
    requires IsDigit(c) && AllDigits(rest)
    ensures AllDigits([c] + rest)
    ensures Decimal([c] + rest) == (c as int - '0' as int) * Power10(|rest|) + Decimal(rest)
    decreases |rest|
  {
    var text := [c] + rest;
    assert text[|text| - 1] == if rest == "" then c else rest[|rest| - 1];
    if rest == "" {
      assert text[..0] == "";
      assert Decimal(text) == Decimal(text[..0]) * 10 + (c as int - '0' as int);
    } else {
      var front := rest[..|rest| - 1];
      assert text[..|text| - 1] == [c] + front;
      LeadingDigit(c, front);
      TenTimes(c as int - '0' as int, Power10(|front|));
    }
  }

  function Power10(n: nat): nat {
    if n == 0 then 1 else 10 * Power10(n - 1)
  }

  lemma TenTimes(d: nat, p: nat)
    ensures d * (10 * p) == 10 * (d * p)
  {
  }

  /** The decimal text of a number. */
  function Printed(n: nat): string {
    if n < 10 then [('0' as int + n) as char] else Printed(n / 10) + [('0' as int + n % 10) as char]
  }

  lemma {:induction false} PrintedIsRead(n: nat)
    ensures AllDigits(Printed(n)) && Decimal(Printed(n)) == n
  {
    var text := Printed(n);
    if n < 10 {
      assert text[..0] == "";
      assert Decimal(text) == Decimal(text[..0]) * 10 + n;
    } else {
      PrintedIsRead(n / 10);
      assert text[..|text| - 1] == Printed(n / 10);
    }
  }

  /** A number from 1 to 86400, printed, is accepted as itself; any other number is refused. */
  lemma PrintedSetting(n: nat, fallback: u32)
    ensures Setting(Some(Printed(n)), fallback) == if 1 <= n <= 86400 then Some(n as u32) else None
    ensures Setting(None, fallback) == Some(fallback)
  {
    PrintedIsRead(n);
  }

  /** And nothing that is not all digits, the empty text included, is accepted. */
  lemma OnlyDigits(text: string, fallback: u32)
    requires text == "" || exists i :: 0 <= i < |text| && !('0' <= text[i] <= '9')
    ensures Setting(Some(text), fallback) == None
  {
  }

  /** Digit by digit in 32 bits: the guards keep the running value from overflowing, whatever the text's length. */
  method TimeoutSetting(text: Option<string>, fallback: u32) returns (r: Option<u32>)
    ensures r == Setting(text, fallback)
  {
    if text.None? {
      return Some(fallback);
    }
    var t := text.value;
    if |t| == 0 {
      assert Decimal(t) == 0;
      return None;
    }
    var seconds: u32 := 0;
    for i := 0 to |t|
      invariant AllDigits(t[..i]) && seconds as int == Decimal(t[..i]) <= 86400
    {
      assert t[..i + 1][..i] == t[..i];
      if AllDigits(t) {
        PrefixNotLarger(t, i + 1);
      }
      if t[i] < '0' || t[i] > '9' || seconds > 8640 {
        return None;
      }
      seconds := seconds * 10 + (t[i] as int - '0' as int) as u32;
      if seconds > 86400 {
        return None;
      }
    }
    assert t[..|t|] == t;
    if seconds == 0 {
      return None;
    }
    r := Some(seconds);
  }

  // ------------------------------------------------------------------------------ scopes

  const ENROLLMENT := 0
  const IO := 1
  const SHUTDOWN := 2
  const MAX_DEPTH: int := 0xFFFF_FFFF

  datatype Handler = Default | Ours | Foreign

  /** What the signal calls around one use of the timer find, and whether they work. */
  datatype Host = Host(blocks: bool, wasBlocked: bool, inspects: bool, handler: Handler, timerFree: bool,
                       installs: bool, restores: bool)
  {
    predicate LetsBegin() {
      blocks && !wasBlocked && inspects && handler != Foreign && timerFree && installs && restores
    }

    predicate LetsEnd() {
      blocks && restores
    }
  }

  /** The three settings, and the host as it is after each number of alarm calls of ours. */
  datatype Environment = Environment(
    enrollment: Option<string>, io: Option<string>, shutdown: Option<string>, host: nat -> Host)

  function Limits(env: Environment): Option<seq<u32>> {
    var e, i, s := Setting(env.enrollment, 300), Setting(env.io, 600), Setting(env.shutdown, 60);
    if e.Some? && i.Some? && s.Some? then Some([e.value, i.value, s.value]) else None
  }

  /**
   * The file's statics, the timer, and every value `alarm` was called with. A configuration error ends the
   * process: `exited` is final.
   */
  datatype Scopes = Scopes(depth: int, limits: Option<seq<u32>>, active: bool, timer: Option<u32>, alarms: seq<u32>,
                           exited: bool)

  const IDLE := Scopes(0, None, false, None, [], false)

  /** The process has ended; nothing else about it matters. */
  const GONE := IDLE.(exited := true)

  datatype Op = Begin(kind: int) | End

  function Apply(env: Environment, s: Scopes, op: Op): Scopes {
    if s.exited then s
    else match op
      case Begin(kind) =>
        if !(ENROLLMENT <= kind <= SHUTDOWN) then GONE
        else if s.depth != 0 then
          if s.depth == MAX_DEPTH then GONE else s.(depth := s.depth + 1)
        else
          var limits := if s.limits.Some? then s.limits else Limits(env);
          if limits.None? || |limits.value| != 3 || !env.host(|s.alarms|).LetsBegin() then GONE
          else
            var limit := limits.value[kind];
            Scopes(1, limits, true, Some(limit), s.alarms + [limit], false)
      case End =>
        if s.depth == 0 then GONE
        else if s.depth != 1 then s.(depth := s.depth - 1)
        else if !env.host(|s.alarms|).LetsEnd() then GONE
        else s.(depth := 0, active := false, timer := None, alarms := s.alarms + [0])
  }

  function Run(env: Environment, ops: seq<Op>): Scopes {
    if ops == [] then IDLE else Apply(env, Run(env, ops[..|ops| - 1]), ops[|ops| - 1])
  }

  /** Open scopes after the operations: begins minus ends. */
  function Open(ops: seq<Op>): int {
    if ops == [] then 0 else Open(ops[..|ops| - 1]) + if ops[|ops| - 1].Begin? then 1 else -1
  }

  /** The operation that opened the outermost scope still open. */
  ghost predicate Opener(ops: seq<Op>, i: nat, kind: int) {
    && i < |ops| && ops[i] == Begin(kind) && Open(ops[..i]) == 0
    && forall j :: i < j <= |ops| ==> Open(ops[..j]) > 0
  }

  ghost predicate Consistent(env: Environment, ops: seq<Op>, s: Scopes) {
    && 0 <= s.depth == Open(ops) <= MAX_DEPTH
    && (s.limits.Some? ==> s.limits == Limits(env) && |s.limits.value| == 3)
    && (s.active <==> s.depth > 0) && (s.timer.Some? <==> s.depth > 0)
    && (s.depth > 0 ==>
          s.limits.Some? && exists i: nat, kind ::
            Opener(ops, i, kind) && 0 <= kind <= 2 && s.timer == Some(s.limits.value[kind]))
  }

  lemma OpenerStays(ops: seq<Op>, op: Op, i: nat, kind: int)
    requires Opener(ops, i, kind) && Open(ops + [op]) > 0
    ensures Opener(ops + [op], i, kind)
  {
    var all := ops + [op];
    assert all[..i] == ops[..i];
    forall j | i < j <= |all| ensures Open(all[..j]) > 0 {
      if j <= |ops| {
        assert all[..j] == ops[..j];
      } else {
        assert all[..j] == all;
      }
    }
  }

  lemma OpenerStarts(ops: seq<Op>, kind: int)
    requires Open(ops) == 0
    ensures Opener(ops + [Begin(kind)], |ops|, kind)
  {
    var all := ops + [Begin(kind)];
    assert all[..|ops|] == ops && all[..|all| - 1] == ops;
    forall j | |ops| < j <= |all| ensures Open(all[..j]) > 0 {
      assert all[..j] == all;
    }
  }

  lemma OpenAppend(ops: seq<Op>, op: Op)
    ensures Open(ops + [op]) == Open(ops) + if op.Begin? then 1 else -1
  {
    assert (ops + [op])[..|ops|] == ops;
  }

  lemma StepConsistent(env: Environment, ops: seq<Op>, s: Scopes, op: Op)
    requires !s.exited && Consistent(env, ops, s) && !Apply(env, s, op).exited
    ensures Consistent(env, ops + [op], Apply(env, s, op))
  {
    OpenAppend(ops, op);
    var s' := Apply(env, s, op);
    hide Open, Opener, Limits;
    if s'.depth > 0 {
      if s.depth > 0 {
        var i: nat, kind :| Opener(ops, i, kind) && 0 <= kind <= 2 && s.timer == Some(s.limits.value[kind]);
        OpenerStays(ops, op, i, kind);
      } else {
        OpenerStarts(ops, op.kind);
      }
    }
  }

  /**
   * Over any sequence of calls the process survives: the depth is the number of open scopes, the timer is armed
   * exactly while one is open, and then with the limit of the outermost one.
   */
  lemma {:induction false} TimerFollowsOutermost(env: Environment, ops: seq<Op>)
    requires !Run(env, ops).exited
    ensures Consistent(env, ops, Run(env, ops))
  {
    if ops != [] {
      var before, op := ops[..|ops| - 1], ops[|ops| - 1];
      assert ops == before + [op];
      ExitIsFinal(env, Run(env, before), op);
      TimerFollowsOutermost(env, before);
      StepConsistent(env, before, Run(env, before), op);
    }
  }

  lemma ExitIsFinal(env: Environment, s: Scopes, op: Op)
    ensures s.exited ==> Apply(env, s, op).exited
  {
  }

  /** The state after `more` operations from `s`. */
  function Continue(env: Environment, s: Scopes, more: seq<Op>): Scopes
    decreases |more|
  {
    if more == [] then s else Continue(env, Apply(env, s, more[0]), more[1..])
  }

  /** No prefix of the operations closes more scopes than it opens. */
  ghost predicate Nested(more: seq<Op>) {
    forall j :: 0 <= j <= |more| ==> Open(more[..j]) >= 0
  }

  lemma {:induction false} OpenSplit(more: seq<Op>, j: nat)
    requires 0 < j <= |more|
    ensures Open(more[..j]) == (if more[0].Begin? then 1 else -1) + Open(more[1..][..j - 1])
    decreases j
  {
    if j == 1 {
      assert more[..1][..0] == [] && more[1..][..0] == [];
    } else {
      OpenSplit(more, j - 1);
      assert more[..j][..j - 1] == more[..j - 1];
      assert more[1..][..j - 1][..j - 2] == more[1..][..j - 2];
    }
  }

  lemma {:induction false} ContinueInside(env: Environment, s: Scopes, more: seq<Op>)
    requires !s.exited && s.depth > 0 && !Continue(env, s, more).exited
    requires forall j :: 0 <= j <= |more| ==> s.depth + Open(more[..j]) > 0
    ensures Continue(env, s, more) == s.(depth := s.depth + Open(more))
    decreases |more|
  {
    if more != [] {
      var s' := Apply(env, s, more[0]);
      ExitedContinues(env, s', more[1..]);
      forall j | 0 <= j <= |more[1..]| ensures s.depth + (if more[0].Begin? then 1 else -1) + Open(more[1..][..j]) > 0 {
        OpenSplit(more, j + 1);
        assert s.depth + Open(more[..j + 1]) > 0;
      }
      assert more[1..][..0] == [];
      ContinueInside(env, s', more[1..]);
      OpenSplit(more, |more|);
      assert more[..|more|] == more && more[1..][..|more| - 1] == more[1..];
    } else {
      assert more[..0] == [];
    }
  }

  lemma {:induction false} ExitedContinues(env: Environment, s: Scopes, more: seq<Op>)
    ensures s.exited ==> Continue(env, s, more).exited
    decreases |more|
  {
    if more != [] {
      ExitedContinues(env, Apply(env, s, more[0]), more[1..]);
    }
  }

  /** Inside an open scope, balanced inner scopes change nothing at all: no alarm call, no re-arming, no cancelling. */
  lemma InnerScopesChangeNothing(env: Environment, s: Scopes, more: seq<Op>)
    requires !s.exited && s.depth > 0 && !Continue(env, s, more).exited
    requires Nested(more) && Open(more) == 0
    ensures Continue(env, s, more) == s
  {
    ContinueInside(env, s, more);
  }

  /**
   * The process ends exactly on a wrong kind, an unmatched end, 2^32 - 1 open scopes, a bad setting at first use, or,
   * where the timer is armed or disarmed, a signal call that fails, a blocked signal, a foreign handler or a timer in
   * use.
   */
  lemma ExitsExactly(env: Environment, s: Scopes, op: Op)
    requires !s.exited && (s.limits.Some? ==> |s.limits.value| == 3)
    ensures Apply(env, s, op).exited <==>
              match op
              case End =>
                var host := env.host(|s.alarms|);
                s.depth == 0 || (s.depth == 1 && (!host.blocks || !host.restores))
              case Begin(kind) =>
                var host := env.host(|s.alarms|);
                || kind !in {0, 1, 2}
                || s.depth == 4294967295
                || (s.depth == 0 && s.limits.None?
                    && (|| Setting(env.enrollment, 300).None? || Setting(env.io, 600).None?
                        || Setting(env.shutdown, 60).None?))
                || (s.depth == 0
                    && (|| !host.blocks || host.wasBlocked || !host.inspects || host.handler.Foreign?
                        || !host.timerFree || !host.installs || !host.restores))
  {
  }

  /** An outermost scope arms the timer with its own kind's setting, or its own default; any other leaves it alone. */
  lemma ArmedSeconds(env: Environment, s: Scopes, kind: int)
    requires !s.exited && (s.limits.Some? ==> s.limits == Limits(env)) && !Apply(env, s, Begin(kind)).exited
    ensures var t := Apply(env, s, Begin(kind));
            && kind in {0, 1, 2}
            && (s.depth != 0 ==> t == s.(depth := s.depth + 1))
            && (s.depth == 0 ==>
                  && t.depth == 1 && t.active && t.timer.Some? && t.alarms == s.alarms + [t.timer.value]
                  && t.timer == (if kind == 0 then Setting(env.enrollment, 300)
                                 else if kind == 1 then Setting(env.io, 600)
                                 else Setting(env.shutdown, 60)))
  {
  }

  /** The end that closes the outermost scope cancels the timer; any other leaves it alone. */
  lemma CancelledAtEnd(env: Environment, s: Scopes)
    requires !s.exited && !Apply(env, s, End).exited
    ensures var t := Apply(env, s, End);
            && s.depth != 0
            && (s.depth != 1 ==> t == s.(depth := s.depth - 1))
            && (s.depth == 1 ==> t.depth == 0 && !t.active && t.timer == None && t.alarms == s.alarms + [0])
  {
  }

  // ---------------------------------------------------------------------- the C routines

  class Timeouts {
    const env: Environment
    var waitLimits: Option<seq<u32>>
    var waitDepth: u32
    var deadlineActive: bool
    var timer: Option<u32>
    var alarms: seq<u32>
    var exited: bool

    constructor (env: Environment)
      ensures State() == IDLE && this.env == env
    {
      this.env := env;
      waitLimits, waitDepth, deadlineActive, timer, alarms, exited := None, 0, false, None, [], false;
    }

    function State(): Scopes
      reads this
    {
      if exited then GONE else Scopes(waitDepth as int, waitLimits, deadlineActive, timer, alarms, false)
    }

    predicate Valid()
      reads this
    {
      waitLimits.Some? ==> waitLimits == Limits(env)
    }

    method Alarm(seconds: u32)
      modifies this`timer, this`alarms
      ensures alarms == old(alarms) + [seconds] && timer == if seconds == 0 then None else Some(seconds)
    {
      alarms := alarms + [seconds];
      timer := if seconds == 0 then None else Some(seconds);
    }

    /** Reads the three settings once. */
    method Configure()
      modifies this`waitLimits, this`exited
      ensures match Limits(env)
              case Some(l) => waitLimits == Some(l) && exited == old(exited)
              case None => waitLimits == old(waitLimits) && exited
    {
      var enrollment := TimeoutSetting(env.enrollment, 300);
      if enrollment.None? {
        exited := true;
        return;
      }
      var io := TimeoutSetting(env.io, 600);
      if io.None? {
        exited := true;
        return;
      }
      var shutdown := TimeoutSetting(env.shutdown, 60);
      if shutdown.None? {
        exited := true;
        return;
      }
      waitLimits := Some([enrollment.value, io.value, shutdown.value]);
    }

    method WaitBegin(kind: int)
      requires Valid() && !exited
      modifies this
      ensures Valid() && State() == Apply(env, old(State()), Begin(kind))
    {
      if kind < ENROLLMENT || kind > SHUTDOWN {
        exited := true;
        return;
      }
      if waitDepth != 0 {
        if waitDepth as int == MAX_DEPTH {
          exited := true;
          return;
        }
        waitDepth := waitDepth + 1;
        return;
      }
      if waitLimits.None? {
        Configure();
        if exited {
          return;
        }
      }
      PositiveLimits(env);
      var host := env.host(|alarms|);
      if !host.blocks || host.wasBlocked || !host.inspects {
        exited := true;
        return;
      }
      if (host.handler != Default && host.handler != Ours) || !host.timerFree {
        exited := true;
        return;
      }
      if !host.installs {
        exited := true;
        return;
      }
      deadlineActive := true;
      waitDepth := 1;
      Alarm(waitLimits.value[kind]);
      if !host.restores {
        exited := true;
      }
    }

    method WaitEnd()
      requires Valid() && !exited
      modifies this
      ensures Valid() && State() == Apply(env, old(State()), End)
    {
      if waitDepth == 0 {
        exited := true;
        return;
      }
      waitDepth := waitDepth - 1;
      if waitDepth != 0 {
        return;
      }
      var host := env.host(|alarms|);
      if !host.blocks {
        exited := true;
        return;
      }
      deadlineActive := false;
      Alarm(0);
      if !host.restores {
        exited := true;
      }
    }
  }

  /** No limit is 0, so arming never means cancelling. */
  lemma PositiveLimits(env: Environment)
    ensures Limits(env).Some? ==>
              |Limits(env).value| == 3 && forall k :: 0 <= k < 3 ==> 1 <= Limits(env).value[k] <= 86400
  {
  }
}
