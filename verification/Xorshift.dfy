/**
 The xorshift64 generator and the square-and-multiply "jump" the master uses to predict,
 without iterating, the token a worker reaches by stepping the generator one step at a time.

 A jump is a linear map over GF(2): entry `k` holds the image of the word `1 << k`.
 */
module Xorshift {
  import opened Bits

  /** One generator step: three in-place shift-and-xor assignments. */
  function Step(v: Word): Word {
    var a := Xor(v, Shl(v, 13));
    var b := Xor(a, Shr(a, 7));
    Xor(b, Shl(b, 17))
  }

  function Repeat<T>(f: T -> T, n: nat, v: T): T {
    if n == 0 then v else f(Repeat(f, n - 1, v))
  }

  /** The word reached by `n` generator steps from `v`. */
  function Iterate(n: nat, v: Word): Word {
    Repeat<Word>(Step, n, v)
  }

  /** The xor of the entries of `m` selected by the low `n` bits of `value`. */
  function ApplyUpTo(m: seq<Word>, value: Word, n: nat): Word
    requires |m| == 64 && n <= 64
  {
    if n == 0 then ZERO
    else
      var sum := ApplyUpTo(m, value, n - 1);
      if value[n - 1] then Xor(sum, m[n - 1]) else sum
  }

  function Apply(m: seq<Word>, value: Word): Word
    requires |m| == 64
  {
    ApplyUpTo(m, value, 64)
  }

  /** `m` holds the image of every basis word under `n` generator steps. */
  ghost predicate IsJump(m: seq<Word>, n: nat) {
    && |m| == 64
    && forall k :: 0 <= k < 64 ==> m[k] == Iterate(n, One(k))
  }

  // ---------------------------------------------------------------- linearity over xor

  /** A generator step distributes over xor. */
  lemma StepXor(x: Word, y: Word)
    ensures Step(Xor(x, y)) == Xor(Step(x), Step(y))
  {
    ShlXor(x, y, 13);
    XorExchange(x, y, Shl(x, 13), Shl(y, 13));
    var ax: Word := Xor(x, Shl(x, 13));
    var ay: Word := Xor(y, Shl(y, 13));
    ShrXor(ax, ay, 7);
    XorExchange(ax, ay, Shr(ax, 7), Shr(ay, 7));
    var bx: Word := Xor(ax, Shr(ax, 7));
    var by': Word := Xor(ay, Shr(ay, 7));
    ShlXor(bx, by', 17);
    XorExchange(bx, by', Shl(bx, 17), Shl(by', 17));
  }

  ghost predicate Additive(f: Word -> Word) {
    forall a: Word, b: Word :: f(Xor(a, b)) == Xor(f(a), f(b))
  }

  lemma {:induction false} RepeatXor(f: Word -> Word, n: nat, x: Word, y: Word)
    requires Additive(f)
    ensures Repeat<Word>(f, n, Xor(x, y)) == Xor(Repeat<Word>(f, n, x), Repeat<Word>(f, n, y))
  {
    if n > 0 {
      RepeatXor(f, n - 1, x, y);
    }
  }

  lemma {:induction false} RepeatAdd<T>(f: T -> T, a: nat, b: nat, v: T)
    ensures Repeat(f, a, Repeat(f, b, v)) == Repeat(f, a + b, v)
  {
    if a > 0 {
      RepeatAdd(f, a - 1, b, v);
    }
  }

  lemma StepAdditive()
    ensures Additive(Step)
  {
    forall a: Word, b: Word ensures Step(Xor(a, b)) == Xor(Step(a), Step(b)) {
      StepXor(a, b);
    }
  }

  /** Any number of generator steps distributes over xor. */
  lemma IterateXor(n: nat, x: Word, y: Word)
    ensures Iterate(n, Xor(x, y)) == Xor(Iterate(n, x), Iterate(n, y))
  {
    StepAdditive();
    RepeatXor(Step, n, x, y);
  }

  lemma IterateZero(n: nat)
    ensures Iterate(n, ZERO) == ZERO
  {
    IterateXor(n, ZERO, ZERO);
    XorSelf(ZERO);
    XorSelf(Iterate(n, ZERO));
  }

  // ------------------------------------------------------------------- nothing is lost

  lemma {:induction false} ShlFixedBit(x: Word, k: nat, i: nat)
    requires Xor(x, Shl(x, k)) == ZERO && k > 0 && i < 64
    ensures !x[i]
    decreases i
  {
    assert !Xor(x, Shl(x, k))[i];
    if i >= k {
      ShlFixedBit(x, k, i - k);
    }
  }

  lemma {:induction false} ShrFixedBit(x: Word, k: nat, i: nat)
    requires Xor(x, Shr(x, k)) == ZERO && k > 0 && i < 64
    ensures !x[i]
    decreases 64 - i
  {
    assert !Xor(x, Shr(x, k))[i];
    if i + k < 64 {
      ShrFixedBit(x, k, i + k);
    }
  }

  lemma ShlFixed(x: Word, k: nat)
    requires Xor(x, Shl(x, k)) == ZERO && k > 0
    ensures x == ZERO
  {
    forall i | 0 <= i < 64 ensures x[i] == ZERO[i] {
      ShlFixedBit(x, k, i);
    }
  }

  lemma ShrFixed(x: Word, k: nat)
    requires Xor(x, Shr(x, k)) == ZERO && k > 0
    ensures x == ZERO
  {
    forall i | 0 <= i < 64 ensures x[i] == ZERO[i] {
      ShrFixedBit(x, k, i);
    }
  }

  /** Only zero steps to zero: each shift-and-xor can be undone. */
  lemma StepZero(v: Word)
    requires Step(v) == ZERO
    ensures v == ZERO
  {
    var a: Word := Xor(v, Shl(v, 13));
    var b: Word := Xor(a, Shr(a, 7));
    ShlFixed(b, 17);
    ShrFixed(a, 7);
    ShlFixed(v, 13);
  }

  /** Different words stay different, over any number of steps. */
  lemma {:induction false} IterateInjective(n: nat, x: Word, y: Word)
    requires Iterate(n, x) == Iterate(n, y)
    ensures x == y
  {
    if n > 0 {
      var a, b := Iterate(n - 1, x), Iterate(n - 1, y);
      assert Step(a) == Step(b);
      StepXor(a, b);
      XorSelf(Step(a));
      StepZero(Xor(a, b));
      XorIsZero(a, b);
      IterateInjective(n - 1, x, y);
    }
  }

  lemma XorIsZero(a: Word, b: Word)
    requires Xor(a, b) == ZERO
    ensures a == b
  {
    forall i | 0 <= i < 64 ensures a[i] == b[i] {
      assert !Xor(a, b)[i];
    }
  }

  // ------------------------------------------------------- a jump computes the iteration

  /** The low `n` bits of `value`, the rest cleared. */
  function Low(value: Word, n: nat): Word {
    seq(64, i requires 0 <= i < 64 => i < n && value[i])
  }

  lemma LowSucc(value: Word, n: nat)
    requires n < 64
    ensures Low(value, n + 1) == if value[n] then Xor(Low(value, n), One(n)) else Low(value, n)
  {
  }

  lemma {:induction false} ApplyUpToIterates(m: seq<Word>, steps: nat, value: Word, n: nat)
    requires IsJump(m, steps) && n <= 64
    ensures ApplyUpTo(m, value, n) == Iterate(steps, Low(value, n))
  {
    if n == 0 {
      assert Low(value, 0) == ZERO;
      IterateZero(steps);
    } else {
      ApplyUpToIterates(m, steps, value, n - 1);
      LowSucc(value, n - 1);
      IterateXor(steps, Low(value, n - 1), One(n - 1));
    }
  }

  /** Applying the map for `steps` to any word equals stepping the generator `steps` times. */
  lemma ApplyJump(m: seq<Word>, steps: nat, value: Word)
    requires IsJump(m, steps)
    ensures Apply(m, value) == Iterate(steps, value)
  {
    ApplyUpToIterates(m, steps, value, 64);
    assert Low(value, 64) == value;
  }

  /** Composing two jumps entry by entry gives the jump of the summed step counts. */
  lemma ComposeJumps(outer: seq<Word>, inner: seq<Word>, result: seq<Word>, a: nat, b: nat)
    requires IsJump(outer, a) && IsJump(inner, b) && |result| == 64
    requires forall k :: 0 <= k < 64 ==> result[k] == Apply(outer, inner[k])
    ensures IsJump(result, a + b)
  {
    forall k | 0 <= k < 64
      ensures result[k] == Iterate(a + b, One(k))
    {
      ApplyJump(outer, a, inner[k]);
      RepeatAdd<Word>(Step, a, b, One(k));
    }
  }

  // ----------------------------------------------------------------------- the C routines

  method LinearMapApply(m: array<Word>, value: Word) returns (result: Word)
    requires m.Length == 64
    ensures result == Apply(m[..], value)
  {
    result := ZERO;
    for bit := 0 to 64
      invariant result == ApplyUpTo(m[..], value, bit)
    {
      if Shr(value, bit)[0] {
        result := Xor(result, m[bit]);
      }
    }
  }

  method LinearMapCompose(outer: array<Word>, inner: array<Word>, out: array<Word>)
    requires outer.Length == inner.Length == out.Length == 64
    requires out != outer && out != inner
    modifies out
    ensures forall k :: 0 <= k < 64 ==> out[k] == Apply(outer[..], inner[k])
  {
    for bit := 0 to 64
      invariant forall k :: 0 <= k < bit ==> out[k] == Apply(outer[..], inner[k])
    {
      out[bit] := LinearMapApply(outer, inner[bit]);
    }
  }

  lemma JumpOnce(m: seq<Word>)
    requires |m| == 64 && forall k :: 0 <= k < 64 ==> m[k] == Step(One(k))
    ensures IsJump(m, 1)
  {
    forall k | 0 <= k < 64 ensures m[k] == Iterate(1, One(k)) {
      assert Repeat<Word>(Step, 0, One(k)) == One(k);
    }
  }

  /** Compose into a scratch map, then copy the scratch map over `inner`. */
  method ComposeInto(outer: array<Word>, inner: array<Word>, temp: array<Word>, ghost a: nat, ghost b: nat)
    returns (ghost total: nat)
    requires outer.Length == inner.Length == temp.Length == 64 && temp != outer && temp != inner
    requires IsJump(outer[..], a) && IsJump(inner[..], b)
    modifies inner, temp
    ensures total == a + b && IsJump(inner[..], total)
    ensures outer != inner ==> outer[..] == old(outer[..])
  {
    LinearMapCompose(outer, inner, temp);
    ComposeJumps(outer[..], inner[..], temp[..], a, b);
    forall k | 0 <= k < 64 { inner[k] := temp[k]; }
    assert inner[..] == temp[..];
    total := a + b;
  }

  method IdentityAndStep(jump: array<Word>, base: array<Word>)
    requires jump.Length == base.Length == 64 && jump != base
    modifies jump, base
    ensures IsJump(jump[..], 0) && IsJump(base[..], 1)
  {
    for bit := 0 to 64
      invariant forall k :: 0 <= k < bit ==> jump[k] == One(k) && base[k] == Step(One(k))
    {
      jump[bit] := One(bit);
      base[bit] := Step(One(bit));
    }
    JumpOnce(base[..]);
  }

  lemma HalfTimes(rest: nat, power: nat)
    ensures rest * power == (rest % 2) * power + (rest / 2) * (power + power)
  {
    assert rest == rest / 2 * 2 + rest % 2;
  }

  /** One round of square and multiply: consume the low bit of `rest`. */
  method JumpRound(rest: nat, jump: array<Word>, base: array<Word>, temp: array<Word>, ghost made: nat,
                   ghost power: nat)
    returns (half: nat, ghost made': nat, ghost power': nat)
    requires jump.Length == base.Length == temp.Length == 64
    requires jump != base && jump != temp && base != temp
    requires IsJump(jump[..], made) && IsJump(base[..], power)
    modifies jump, base, temp
    ensures half == rest / 2 && made' == made + rest % 2 * power && power' == power + power
    ensures IsJump(jump[..], made')
    ensures half != 0 ==> IsJump(base[..], power')
  {
    made', power' := made, power;
    if rest % 2 == 1 {
      made' := ComposeInto(base, jump, temp, power, made);
    }
    half := rest / 2;
    if half != 0 {
      power' := ComposeInto(base, base, temp, power, power);
    } else {
      power' := power + power;
    }
  }

  /** Square and multiply over the bits of `iterations`. */
  method BuildXorshiftJump(iterations: u64, jump: array<Word>)
    requires jump.Length == 64
    modifies jump
    ensures IsJump(jump[..], iterations)
  {
    var base := new Word[64](_ => ZERO);
    var temp := new Word[64](_ => ZERO);
    IdentityAndStep(jump, base);
    var rest: nat := iterations;
    ghost var made: nat, power: nat := 0, 1;
    while rest != 0
      invariant IsJump(jump[..], made)
      invariant rest != 0 ==> IsJump(base[..], power)
      invariant made + rest * power == iterations
    {
      HalfTimes(rest, power);
      rest, made, power := JumpRound(rest, jump, base, temp, made, power);
    }
  }
}
