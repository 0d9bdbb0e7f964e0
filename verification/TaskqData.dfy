/** Parameters, message bodies and per-task data of the dynamic task queue. */
module TaskqData {
  import opened Bits
  import opened Xorshift
  import opened Division
  import opened Protocol

  const TASKQ_MIN_BYTES := 1
  const TASKQ_MAX_BYTES := 1048576

  const TASKQ_CONTROL_START := 1
  const TASKQ_TASK_WORK := 1
  const TASKQ_TASK_END := 2

  /** The part of the start command the task queue uses. */
  datatype Config = Config(runs: nat, count: nat, bytes: nat, iters: nat)

  /** A `double` as far as the master's range check can see it. */
  datatype Time = Finite(ms: real) | NotFinite

  /** The timings an honest worker can measure. */
  type Elapsed = r: real | r >= 0.0

  datatype TaskResult = TaskResult(run: nat, verified: bool, id: nat, token: Word, bytes: nat, time: Time)

  datatype Body =
    | Cmd(config: Config)
    | Ready(ok: bool, elementCount: nat)
    | Control(command: int, run: nat)
    | Task(command: int, run: nat, id: nat, iterations: nat, bytes: nat)
    | Reply(result: TaskResult)
    | Payload(data: seq<Octet>)

  /** `sizeof` of the C structures, and the length of a payload. */
  function Length(b: Body): nat {
    match b
    case Cmd(_) => CMD_SIZE
    case Ready(_, _) => READY_SIZE
    case Control(_, _) => CONTROL_SIZE
    case Task(_, _, _, _, _) => TASK_SIZE
    case Reply(_) => RESULT_SIZE
    case Payload(data) => |data|
  }

  // ------------------------------------------------------------------- per-task functions

  const MULTIPLIER: nat := 0xbf58476d1ce4e5b9
  const REPLACEMENT: Word := OfNat(0xd1b54a32d192ed03, 64)

  function RawToken(id: nat, run: nat): Word {
    Xor(Xor(OfNat(0x9e3779b97f4a7c15, 64), OfNat(id * MULTIPLIER, 64)), Shl(OfNat(run, 64), 32))
  }

  /** A raw token of zero, where the generator would stand still, is replaced. */
  function InitialToken(id: nat, run: nat): Word {
    var token := RawToken(id, run);
    if token == ZERO then REPLACEMENT else token
  }

  function InputByte(id: nat, run: nat, index: nat): Octet {
    OfNat(id * 131 + run * 17 + index, 8)
  }

  function OutputByte(input: Octet, token: Word, id: nat, index: nat): Octet {
    var mask := Shr(token, index % 8 * 8)[..8];
    var lane := OfNat(index * 29 + id, 8);
    Xor(Xor(input, mask), lane)
  }

  function InputBytes(id: nat, run: nat, bytes: nat): (s: seq<Octet>)
    ensures |s| == bytes
  {
    seq(bytes, i requires 0 <= i < bytes => InputByte(id, run, i))
  }

  function OutputBytes(input: seq<Octet>, token: Word, id: nat): (s: seq<Octet>)
    ensures |s| == |input|
  {
    seq(|input|, i requires 0 <= i < |input| => OutputByte(input[i], token, id, i))
  }

  /** The spot check of an input buffer: first, middle and last position. */
  predicate InputSampled(data: seq<Octet>, id: nat, run: nat)
    requires |data| > 0
  {
    && data[0] == InputByte(id, run, 0)
    && data[|data| / 2] == InputByte(id, run, |data| / 2)
    && data[|data| - 1] == InputByte(id, run, |data| - 1)
  }

  predicate OutputSampleOk(data: seq<Octet>, token: Word, id: nat, run: nat, index: nat)
    requires index < |data|
  {
    data[index] == OutputByte(InputByte(id, run, index), token, id, index)
  }

  predicate OutputSampled(data: seq<Octet>, token: Word, id: nat, run: nat)
    requires |data| > 0
  {
    && OutputSampleOk(data, token, id, run, 0)
    && OutputSampleOk(data, token, id, run, |data| / 2)
    && OutputSampleOk(data, token, id, run, |data| - 1)
  }

  /** What the worker derives from an input buffer: token, verdict and output. */
  datatype Work = Work(id: nat, token: Word, verified: bool, output: seq<Octet>)

  function Compute(config: Config, id: nat, run: nat, input: seq<Octet>): Work
    requires |input| > 0
  {
    var token := Iterate(config.iters, InitialToken(id, run));
    var output := OutputBytes(input, token, id);
    Work(id, token, InputSampled(input, id, run) && OutputSampled(output, token, id, run), output)
  }

  /** On the input the master generates, the worker's own spot checks succeed. */
  lemma HonestWorkVerifies(config: Config, id: nat, run: nat, bytes: nat)
    requires bytes > 0
    ensures var input := InputBytes(id, run, bytes);
            var work := Compute(config, id, run, input);
            work.verified && |work.output| == bytes && OutputSampled(work.output, work.token, id, run)
  {
    var input := InputBytes(id, run, bytes);
    var token := Iterate(config.iters, InitialToken(id, run));
    var output := OutputBytes(input, token, id);
    forall i | 0 <= i < bytes ensures OutputSampleOk(output, token, id, run, i) {
      assert input[i] == InputByte(id, run, i);
    }
  }

  lemma ReplacementNotZero()
    ensures REPLACEMENT != ZERO
  {
    assert REPLACEMENT[0] by {
      assert Pow2(0) == 1;
    }
    assert !ZERO[0];
  }

  /** The replacement word is not itself zero, so no initial token is. */
  lemma InitialTokenNotZero(id: nat, run: nat)
    ensures InitialToken(id, run) != ZERO
  {
    ReplacementNotZero();
  }

  lemma XorCancels(a: Word, b: Word, b': Word, c: Word)
    requires Xor(Xor(a, b), c) == Xor(Xor(a, b'), c)
    ensures b == b'
  {
    forall i | 0 <= i < 64 ensures b[i] == b'[i] {
      assert Xor(Xor(a, b), c)[i] == Xor(Xor(a, b'), c)[i];
    }
  }

  lemma SameWordSameBits(a: nat, b: nat)
    requires OfNat(a, 64) == OfNat(b, 64)
    ensures SameBits(a, b, 64)
  {
    hide Pow2;
    forall i: nat | i < 64 ensures a / Pow2(i) % 2 == b / Pow2(i) % 2 {
      assert OfNat(a, 64)[i] == OfNat(b, 64)[i];
    }
  }

  lemma IdsFitWords()
    ensures Pow2(64) == 0x1_0000_0000_0000_0000
  {
    assert Pow2(8) == 0x100;
    assert Pow2(16) == 0x1_0000;
    assert Pow2(24) == 0x100_0000;
    assert Pow2(32) == 0x1_0000_0000;
    assert Pow2(40) == 0x100_0000_0000;
    assert Pow2(48) == 0x1_0000_0000_0000;
    assert Pow2(56) == 0x100_0000_0000_0000;
  }

  /** Within a run different ids have different raw tokens: the multiplier is odd. */
  lemma RawTokensDiffer(id: u64, id': u64, run: nat)
    requires RawToken(id, run) == RawToken(id', run)
    ensures id == id'
  {
    hide Xor, OfNat, Shl, Pow2, SameBits;
    XorCancels(OfNat(0x9e3779b97f4a7c15, 64), OfNat(id * MULTIPLIER, 64), OfNat(id' * MULTIPLIER, 64),
               Shl(OfNat(run, 64), 32));
    SameWordSameBits(id * MULTIPLIER, id' * MULTIPLIER);
    BitsDecide(id * MULTIPLIER, id' * MULTIPLIER, 64);
    IdsFitWords();
    if id <= id' {
      OddProductInjective(MULTIPLIER, id, id', 64);
    } else {
      OddProductInjective(MULTIPLIER, id', id, 64);
    }
  }

  /** One of two tasks drew the raw token zero and the other the word that replaces it. */
  predicate Collide(id: nat, id': nat, run: nat) {
    || (RawToken(id, run) == ZERO && RawToken(id', run) == REPLACEMENT)
    || (RawToken(id, run) == REPLACEMENT && RawToken(id', run) == ZERO)
  }

  lemma InitialTokensDiffer(id: u64, id': u64, run: nat)
    ensures InitialToken(id, run) == InitialToken(id', run) <==> id == id' || Collide(id, id', run)
  {
    InitialTokenNotZero(id, run);
    InitialTokenNotZero(id', run);
    if RawToken(id, run) == RawToken(id', run) {
      RawTokensDiffer(id, id', run);
    }
    hide RawToken, ZERO, REPLACEMENT;
  }

  /**
   * No task's token is ever zero, where the generator would stand still, and two tasks of a run have the same token
   * exactly when one of them drew the raw token zero and the other its replacement.
   */
  lemma TokensStayApart(id: u64, id': u64, run: nat, n: nat)
    ensures Iterate(n, InitialToken(id, run)) != ZERO
    ensures Iterate(n, InitialToken(id, run)) == Iterate(n, InitialToken(id', run))
            <==> id == id' || Collide(id, id', run)
  {
    hide InitialToken, Iterate, Collide;
    InitialTokenNotZero(id, run);
    InitialTokensDiffer(id, id', run);
    IterateZero(n);
    if Iterate(n, InitialToken(id, run)) == ZERO {
      IterateInjective(n, InitialToken(id, run), ZERO);
    }
    if Iterate(n, InitialToken(id, run)) == Iterate(n, InitialToken(id', run)) {
      IterateInjective(n, InitialToken(id, run), InitialToken(id', run));
    }
  }
}
