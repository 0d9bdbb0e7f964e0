/** The EP workload: a 46-bit congruential generator in 64-bit words, and bins that must add up. */
module Ep {
  import opened Arith
  import opened Division

  // -------------------------------------------------------------------------- arithmetic

  /** Bitwise and, bit by bit. */
  function BitAnd(a: nat, b: nat): nat {
    if a == 0 || b == 0 then 0 else (if a % 2 == 1 && b % 2 == 1 then 1 else 0) + 2 * BitAnd(a / 2, b / 2)
  }

  lemma AndWithOnes(a: nat, p: nat)
    requires a > 0 && p > 0
    ensures BitAnd(a, 2 * p - 1) == a % 2 + 2 * BitAnd(a / 2, p - 1)
  {
    assert (2 * p - 1) / 2 == p - 1 && (2 * p - 1) % 2 == 1;
  }

  lemma AndWithNothing(a: nat, b: nat)
    requires a == 0 || b == 0
    ensures BitAnd(a, b) == 0
  {
  }

  /** A mask of `k` ones keeps the remainder modulo 2^k. */
  lemma {:induction false} MaskIsRemainder(a: nat, k: nat)
    ensures BitAnd(a, Pow2(k) - 1) == a % Pow2(k)
    decreases k
  {
    hide BitAnd;
    if k == 0 {
      AndWithNothing(a, 0);
    } else if a == 0 {
      AndWithNothing(a, Pow2(k) - 1);
    } else {
      MaskIsRemainder(a / 2, k - 1);
      OneMoreBit(a, Pow2(k - 1));
    }
  }

  lemma OneMoreBit(a: nat, p: nat)
    requires a > 0 && p > 0 && BitAnd(a / 2, p - 1) == (a / 2) % p
    ensures BitAnd(a, 2 * p - 1) == a % (2 * p)
  {
    hide BitAnd;
    AndWithOnes(a, p);
    HalfMod(a, p);
  }

  // -------------------------------------------------------------------------- generator

  const MODULUS: nat := 0x4000_0000_0000
  const WORD: nat := 0x1_0000_0000_0000_0000
  const A: nat := 1220703125

  lemma Constants()
    ensures Pow2(46) == MODULUS && WORD == 0x4_0000 * MODULUS
    ensures A == 5 * 5 * 5 * 5 * 5 * 5 * 5 * 5 * 5 * 5 * 5 * 5 * 5
  {
    assert Pow2(10) == 1024;
    assert Pow2(20) == 0x10_0000;
    assert Pow2(30) == 0x4000_0000;
    assert Pow2(40) == 0x100_0000_0000;
  }

  /** The product wraps at 64 bits and is then masked to 46. */
  function NextState(s: nat): nat {
    BitAnd((A * s) % WORD, MODULUS - 1)
  }

  /** The wrap loses nothing: the generator is multiplication by 5^13 modulo 2^46. */
  lemma NextStateIs(s: nat)
    ensures NextState(s) == (A * s) % MODULUS
  {
    Constants();
    MaskIsRemainder((A * s) % WORD, 46);
    ModOfMod(A * s, MODULUS, 0x4_0000);
  }

  /** A state that is not 0 is never followed by 0: the multiplier is odd. */
  lemma NeverZero(s: nat)
    requires 0 < s < MODULUS
    ensures 0 < NextState(s) < MODULUS
  {
    NextStateIs(s);
    if (A * s) % MODULUS == 0 {
      ZeroFromZero(s);
    }
  }

  lemma ZeroFromZero(s: nat)
    requires (A * s) % MODULUS == 0
    ensures s % MODULUS == 0
  {
    Constants();
    var m := (A * s) / MODULUS;
    assert A * s == MODULUS * m;
    OddFactor(A, s, 46, m);
  }

  /** Seeds are masked; a seed that leaves nothing is replaced. */
  function Start(seed: int): nat {
    var state := if seed > 0 then BitAnd(seed, MODULUS - 1) else 0;
    if state == 0 then 271828183 else state
  }

  lemma StartInRange(seed: int)
    ensures 0 < Start(seed) < MODULUS
  {
    if seed > 0 {
      Constants();
      MaskIsRemainder(seed, 46);
    }
  }

  function State(seed: int, n: nat): nat {
    if n == 0 then Start(seed) else NextState(State(seed, n - 1))
  }

  lemma {:induction false} StateInRange(seed: int, n: nat)
    ensures 0 < State(seed, n) < MODULUS
  {
    if n == 0 {
      StartInRange(seed);
    } else {
      StateInRange(seed, n - 1);
      NeverZero(State(seed, n - 1));
    }
  }

  function PowA(n: nat): nat {
    if n == 0 then 1 else A * PowA(n - 1)
  }

  lemma MultiplyOnce(p: nat, s: nat)
    ensures (A * ((p * s) % MODULUS)) % MODULUS == ((A * p) * s) % MODULUS
  {
    MulMod(A, p * s, MODULUS);
    assert A * (p * s) == (A * p) * s;
  }

  /** The n-th state in closed form. */
  lemma {:induction false} StateClosedForm(seed: int, n: nat)
    ensures State(seed, n) == (PowA(n) * Start(seed)) % MODULUS
  {
    if n == 0 {
      StartInRange(seed);
      assert PowA(0) * Start(seed) == Start(seed);
    } else {
      hide NextState;
      StateClosedForm(seed, n - 1);
      NextStateIs(State(seed, n - 1));
      MultiplyOnce(PowA(n - 1), Start(seed));
    }
  }

  /** The uniform drawn from a state; division by a power of two is exact. */
  function Uniform(state: nat): real {
    state as real / MODULUS as real
  }

  /** Every uniform, from any seed, is below 1 and above 1e-15: the guard against a zero logarithm never acts. */
  lemma ClampNeverFires(seed: int, n: nat)
    ensures 0.000000000000001 < Uniform(State(seed, n)) < 1.0
  {
    StateInRange(seed, n);
    var s := State(seed, n) as real;
    assert 1.0 <= s < MODULUS as real;
    DivideBounds(s, MODULUS as real);
  }

  lemma DivideBounds(s: real, m: real)
    requires 1.0 <= s < m && m == 70368744177664.0
    ensures 0.000000000000001 < s / m < 1.0
  {
    var u := s / m;
    assert u * m == s;
    assert u >= 1.0 ==> u * m >= m;
    assert u <= 0.000000000000001 ==> u * m <= 0.000000000000001 * m;
  }

  // ------------------------------------------------------------------------ sums and bins

  const BINS: nat := 10

  /**
   * The transform of two uniforms into two deviates, of which nothing is assumed; `magnitude` is the integer part
   * of the larger of the two, without its sign.
   */
  datatype Gaussian<!T> = Gaussian(x: (real, real) -> T, y: (real, real) -> T, magnitude: (T, T) -> nat)

  function X<T>(seed: int, g: Gaussian<T>, i: nat): T {
    g.x(Uniform(State(seed, 2 * i + 1)), Uniform(State(seed, 2 * i + 2)))
  }

  function Y<T>(seed: int, g: Gaussian<T>, i: nat): T {
    g.y(Uniform(State(seed, 2 * i + 1)), Uniform(State(seed, 2 * i + 2)))
  }

  /** The bin of pair `i`. */
  function BinOf<T>(seed: int, g: Gaussian<T>, i: nat): (bin: nat)
    ensures bin < BINS
  {
    var m := g.magnitude(X(seed, g, i), Y(seed, g, i));
    if m >= BINS then BINS - 1 else m
  }

  /** The first deviates of the first `n` pairs, added in order. */
  function SumX<T>(ops: Ops<T>, seed: int, g: Gaussian<T>, n: nat): T {
    Sum(ops, (i: int) => if i >= 0 then X(seed, g, i) else ops.zero, 0, n)
  }

  function SumY<T>(ops: Ops<T>, seed: int, g: Gaussian<T>, n: nat): T {
    Sum(ops, (i: int) => if i >= 0 then Y(seed, g, i) else ops.zero, 0, n)
  }

  lemma SumsOneMore<T>(ops: Ops<T>, seed: int, g: Gaussian<T>, n: nat)
    ensures SumX(ops, seed, g, 0) == SumY(ops, seed, g, 0) == ops.zero
    ensures SumX(ops, seed, g, n + 1) == ops.add(SumX(ops, seed, g, n), X(seed, g, n))
    ensures SumY(ops, seed, g, n + 1) == ops.add(SumY(ops, seed, g, n), Y(seed, g, n))
  {
  }

  /** How many of the first `n` pairs fall into bin `b`. */
  function Counted<T>(seed: int, g: Gaussian<T>, n: nat, b: nat): nat
    decreases n
  {
    if n == 0 then 0
    else Counted(seed, g, n - 1, b) + if BinOf(seed, g, n - 1) == b then 1 else 0
  }

  function SumOf(s: seq<int>): int {
    if s == [] then 0 else SumOf(s[..|s| - 1]) + s[|s| - 1]
  }

  lemma {:induction false} SumAfterOneMore(s: seq<int>, t: seq<int>, k: nat)
    requires k < |s| == |t| && t == s[k := s[k] + 1]
    ensures SumOf(t) == SumOf(s) + 1
  {
    var last := |s| - 1;
    if k < last {
      assert t[..last] == s[..last][k := s[k] + 1];
      SumAfterOneMore(s[..last], t[..last], k);
    } else {
      assert t[..last] == s[..last];
    }
  }

  lemma {:induction false} SumOfZeros(s: seq<int>)
    requires forall k :: 0 <= k < |s| ==> s[k] == 0
    ensures SumOf(s) == 0
  {
    if s != [] {
      SumOfZeros(s[..|s| - 1]);
    }
  }

  predicate CountsUpTo<T>(seed: int, g: Gaussian<T>, n: nat, counts: seq<int>) {
    && |counts| == BINS && SumOf(counts) == n
    && forall b :: 0 <= b < BINS ==> counts[b] == Counted(seed, g, n, b)
  }

  lemma NoPairs<T>(seed: int, g: Gaussian<T>, counts: seq<int>)
    requires |counts| == BINS && forall b :: 0 <= b < BINS ==> counts[b] == 0
    ensures CountsUpTo(seed, g, 0, counts)
  {
    SumOfZeros(counts);
  }

  lemma OneMorePair<T>(seed: int, g: Gaussian<T>, n: nat, counts: seq<int>)
    requires CountsUpTo(seed, g, n, counts)
    ensures var bin := BinOf(seed, g, n);
            CountsUpTo(seed, g, n + 1, counts[bin := counts[bin] + 1])
  {
    hide BinOf;
    var bin := BinOf(seed, g, n);
    SumAfterOneMore(counts, counts[bin := counts[bin] + 1], bin);
  }

  lemma StatesOfPair(seed: int, i: nat)
    ensures State(seed, 2 * i + 1) == NextState(State(seed, 2 * i))
    ensures State(seed, 2 * (i + 1)) == State(seed, 2 * i + 2) == NextState(State(seed, 2 * i + 1))
  {
  }

  method FirstState(seed: int) returns (state: nat)
    ensures state == State(seed, 0)
  {
    state := if seed > 0 then BitAnd(seed, MODULUS - 1) else 0;
    if state == 0 {
      state := 271828183;
    }
  }

  /** The next state and the uniform it stands for. */
  method Draw(state: nat) returns (next: nat, u: real)
    ensures next == NextState(state) && u == Uniform(next)
  {
    next := NextState(state);
    u := next as real / MODULUS as real;
  }

  /** The two deviates of pair `i`; the guard against a zero logarithm changes nothing. */
  method Deviates<T>(state: nat, ghost seed: int, ghost i: nat, g: Gaussian<T>) returns (next: nat, x: T, y: T)
    requires state == State(seed, 2 * i)
    ensures next == State(seed, 2 * (i + 1)) && x == X(seed, g, i) && y == Y(seed, g, i)
  {
    hide State, NextState, Uniform;
    StatesOfPair(seed, i);
    var u1, u2;
    next, u1 := Draw(state);
    next, u2 := Draw(next);
    ClampNeverFires(seed, 2 * i + 1);
    if u1 < 0.000000000000001 {
      u1 := 0.000000000000001;
    }
    x, y := g.x(u1, u2), g.y(u1, u2);
  }

  /** All that one pair after another adds up to. */
  ghost predicate SumsUpTo<T>(ops: Ops<T>, seed: int, g: Gaussian<T>, n: nat, sx: T, sy: T, counts: seq<int>) {
    sx == SumX(ops, seed, g, n) && sy == SumY(ops, seed, g, n) && CountsUpTo(seed, g, n, counts)
  }

  lemma NothingYet<T>(ops: Ops<T>, seed: int, g: Gaussian<T>, counts: seq<int>)
    requires |counts| == BINS && forall b :: 0 <= b < BINS ==> counts[b] == 0
    ensures SumsUpTo(ops, seed, g, 0, ops.zero, ops.zero, counts)
  {
    NoPairs(seed, g, counts);
    SumsOneMore(ops, seed, g, 0);
  }

  method AddPair<T>(ops: Ops<T>, ghost seed: int, g: Gaussian<T>, ghost i: nat, x: T, y: T, sx: T, sy: T,
                    counts: seq<int>)
    returns (sx': T, sy': T, counts': seq<int>)
    requires SumsUpTo(ops, seed, g, i, sx, sy, counts) && x == X(seed, g, i) && y == Y(seed, g, i)
    ensures SumsUpTo(ops, seed, g, i + 1, sx', sy', counts')
  {
    SumsOneMore(ops, seed, g, i);
    OneMorePair(seed, g, i, counts);
    hide SumX, SumY, X, Y;
    sx', sy' := ops.add(sx, x), ops.add(sy, y);
    var bin := g.magnitude(x, y);
    if bin >= BINS {
      bin := BINS - 1;
    }
    counts' := counts[bin := counts[bin] + 1];
  }

  /**
   * Two draws, two deviates and one bin per pair. The sums are those of the pairs in order; the counts are those of
   * the pairs and total their number.
   */
  method EpCompute<T>(numPairs: int, seed: int, ops: Ops<T>, g: Gaussian<T>) returns (sx: T, sy: T, counts: seq<int>)
    ensures SumsUpTo(ops, seed, g, if numPairs < 0 then 0 else numPairs, sx, sy, counts)
  {
    hide State, SumsUpTo, BitAnd;
    sx, sy, counts := ops.zero, ops.zero, seq(BINS, _ => 0);
    NothingYet(ops, seed, g, counts);
    var state := FirstState(seed);
    var i := 0;
    while i < numPairs
      invariant 0 <= i && (i <= numPairs || i == 0)
      invariant state == State(seed, 2 * i)
      invariant SumsUpTo(ops, seed, g, i, sx, sy, counts)
    {
      var x, y;
      state, x, y := Deviates(state, seed, i, g);
      sx, sy, counts := AddPair(ops, seed, g, i, x, y, sx, sy, counts);
      i := i + 1;
    }
  }

  /** The seed's low 46 bits, unless they are all zero. */
  lemma StartIs(seed: int)
    ensures Start(seed) == if seed > 0 && seed % 0x4000_0000_0000 != 0 then seed % 0x4000_0000_0000 else 271828183
  {
    Constants();
    if seed > 0 {
      MaskIsRemainder(seed, 46);
    }
  }

  /** The uniform drawn `n`-th, in closed form. */
  ghost function Drawn(seed: int, n: nat): real {
    ((PowA(n) * Start(seed)) % 0x4000_0000_0000) as real / 70368744177664.0
  }

  lemma DrawnIs(seed: int, n: nat)
    ensures Uniform(State(seed, n)) == Drawn(seed, n)
  {
    StateClosedForm(seed, n);
    hide PowA, Start, State;
  }

  /** A pair is made of two consecutive draws, the earlier one first; its bin is its magnitude, or the last. */
  lemma PairIs<T>(seed: int, g: Gaussian<T>, i: nat)
    ensures X(seed, g, i) == g.x(Drawn(seed, 2 * i + 1), Drawn(seed, 2 * i + 2))
    ensures Y(seed, g, i) == g.y(Drawn(seed, 2 * i + 1), Drawn(seed, 2 * i + 2))
    ensures var m := g.magnitude(X(seed, g, i), Y(seed, g, i)); BinOf(seed, g, i) == if m < 9 then m else 9
  {
    DrawnIs(seed, 2 * i + 1);
    DrawnIs(seed, 2 * i + 2);
    hide Drawn, State, Uniform;
  }

  /** The pairs among the first `n` that fall into bin `b`. */
  ghost function InBin<T>(seed: int, g: Gaussian<T>, n: nat, b: nat): set<nat> {
    set i: nat | i < n && BinOf(seed, g, i) == b
  }

  lemma {:induction false} CountedIsSize<T>(seed: int, g: Gaussian<T>, n: nat, b: nat)
    ensures Counted(seed, g, n, b) == |InBin(seed, g, n, b)|
    decreases n
  {
    hide BinOf;
    if n == 0 {
      assert InBin(seed, g, 0, b) == {};
    } else {
      CountedIsSize(seed, g, n - 1, b);
      if BinOf(seed, g, n - 1) == b {
        assert InBin(seed, g, n, b) == InBin(seed, g, n - 1, b) + {n - 1};
      } else {
        assert InBin(seed, g, n, b) == InBin(seed, g, n - 1, b);
      }
    }
  }

  /** The ten counts added up. */
  lemma SumOfTen(s: seq<int>)
    requires |s| == BINS
    ensures SumOf(s) == s[0] + s[1] + s[2] + s[3] + s[4] + s[5] + s[6] + s[7] + s[8] + s[9]
  {
    SumOfPrefix(s, 0);
    SumOfPrefix(s, 1);
    SumOfPrefix(s, 2);
    SumOfPrefix(s, 3);
    SumOfPrefix(s, 4);
    SumOfPrefix(s, 5);
    SumOfPrefix(s, 6);
    SumOfPrefix(s, 7);
    SumOfPrefix(s, 8);
    SumOfPrefix(s, 9);
    assert s[..10] == s;
    assert SumOf(s[..0]) == 0;
    hide SumOf;
  }

  lemma SumOfPrefix(s: seq<int>, n: nat)
    requires n < |s|
    ensures SumOf(s[..n + 1]) == SumOf(s[..n]) + s[n]
  {
    assert s[..n + 1][..n] == s[..n];
  }

  // ------------------------------------------------------------------------- the master's check

  newtype int64 = x: int | -0x8000_0000_0000_0000 <= x < 0x8000_0000_0000_0000

  const INT64_MAX: int := 0x7FFF_FFFF_FFFF_FFFF

  function Ints(s: seq<int64>): (r: seq<int>)
    ensures |r| == |s| && forall k :: 0 <= k < |s| ==> r[k] == s[k] as int
  {
    seq(|s|, k requires 0 <= k < |s| => s[k] as int)
  }

  /** Counts a worker can have: none negative, and totalling the pairs it was given. */
  predicate Plausible(counts: seq<int64>, pairs: int) {
    && (forall b :: 0 <= b < |counts| ==> counts[b] >= 0)
    && SumOf(Ints(counts)) == pairs
  }

  lemma {:induction false} PrefixSum(counts: seq<int64>, b: nat)
    requires b <= |counts| && forall k :: 0 <= k < |counts| ==> counts[k] >= 0
    ensures 0 <= SumOf(Ints(counts)[..b]) <= SumOf(Ints(counts))
    decreases |counts| + b
  {
    var r := Ints(counts);
    if b < |counts| {
      var front := counts[..|counts| - 1];
      assert Ints(front) == r[..|r| - 1];
      assert Ints(front)[..b] == r[..b];
      PrefixSum(front, b);
    } else {
      assert r[..b] == r;
      if b > 0 {
        var front := counts[..b - 1];
        assert Ints(front) == r[..b - 1];
        assert Ints(front)[..b - 1] == Ints(front);
        PrefixSum(front, b - 1);
      }
    }
  }

  datatype WorkerResult<!T> = WorkerResult(counts: seq<int64>, sx: T, sy: T)

  /** A result the master takes: plausible counts and finite sums. */
  predicate Credible<T>(finite: T -> bool, wr: WorkerResult<T>, pairs: int) {
    Plausible(wr.counts, pairs) && finite(wr.sx) && finite(wr.sy)
  }

  /**
   * Checks one worker's result and adds its counts to the totals, refusing a count that is negative or larger than
   * what is left. All arithmetic is 64-bit and stays in range for any counts whatever.
   */
  method CheckAndAdd<T>(wr: WorkerResult<T>, finite: T -> bool, epN: int64, totals: array<int64>, ghost bound: int)
    returns (ok: bool)
    requires epN >= 0 && |wr.counts| == totals.Length == BINS && bound + epN as int <= INT64_MAX
    requires forall b :: 0 <= b < BINS ==> 0 <= totals[b] as int <= bound
    modifies totals
    ensures ok <==> Credible(finite, wr, epN as int)
    ensures ok ==> forall b :: 0 <= b < BINS ==> totals[b] as int == old(totals[b]) as int + wr.counts[b] as int
    ensures ok ==> forall b :: 0 <= b < BINS ==> 0 <= totals[b] as int <= bound + epN as int
  {
    var counts := wr.counts;
    var workerPairs: int64 := 0;
    ghost var r := Ints(counts);
    for b := 0 to BINS
      invariant 0 <= workerPairs <= epN
      invariant workerPairs as int == SumOf(r[..b])
      invariant forall k :: 0 <= k < b ==> counts[k] >= 0
      invariant forall k :: 0 <= k < b ==> totals[k] as int == old(totals[k]) as int + counts[k] as int
      invariant forall k :: b <= k < BINS ==> totals[k] == old(totals[k])
      invariant forall k :: 0 <= k < BINS ==> 0 <= totals[k] as int <= bound + epN as int
    {
      assert r[..b + 1][..b] == r[..b];
      if counts[b] < 0 || counts[b] > epN - workerPairs {
        if Plausible(counts, epN as int) {
          PrefixSum(counts, b + 1);
        }
        return false;
      }
      workerPairs := workerPairs + counts[b];
      totals[b] := totals[b] + counts[b];
    }
    assert r[..BINS] == r;
    ok := workerPairs == epN && finite(wr.sx) && finite(wr.sy);
  }

  /** The sum over the workers of their counts for one bin. */
  function BinTotal<T>(results: seq<WorkerResult<T>>, b: nat): int
    requires forall w :: 0 <= w < |results| ==> b < |results[w].counts|
  {
    if results == [] then 0 else BinTotal(results[..|results| - 1], b) + results[|results| - 1].counts[b] as int
  }

  /** The workers' sums, added in the order they arrive. */
  function TotalX<T>(ops: Ops<T>, results: seq<WorkerResult<T>>): T {
    if results == [] then ops.zero else ops.add(TotalX(ops, results[..|results| - 1]), results[|results| - 1].sx)
  }

  function TotalY<T>(ops: Ops<T>, results: seq<WorkerResult<T>>): T {
    if results == [] then ops.zero else ops.add(TotalY(ops, results[..|results| - 1]), results[|results| - 1].sy)
  }

  lemma BinTotalStep<T>(results: seq<WorkerResult<T>>, w: nat, b: nat)
    requires w < |results| && forall v :: 0 <= v < |results| ==> b < |results[v].counts|
    ensures BinTotal(results[..w + 1], b) == BinTotal(results[..w], b) + results[w].counts[b] as int
  {
    assert results[..w + 1][..w] == results[..w];
  }

  lemma NoResults<T>(ops: Ops<T>, results: seq<WorkerResult<T>>)
    ensures TotalX(ops, results[..0]) == TotalY(ops, results[..0]) == ops.zero
    ensures forall b :: BinTotal(results[..0], b) == 0
  {
  }

  lemma TotalsStep<T>(ops: Ops<T>, results: seq<WorkerResult<T>>, w: nat)
    requires w < |results|
    ensures TotalX(ops, results[..w + 1]) == ops.add(TotalX(ops, results[..w]), results[w].sx)
    ensures TotalY(ops, results[..w + 1]) == ops.add(TotalY(ops, results[..w]), results[w].sy)
  {
    assert results[..w + 1][..w] == results[..w];
  }

  lemma Headroom(w: nat, target: nat, epN: nat)
    requires w < target && epN <= INT64_MAX / target
    ensures w * epN + epN == (w + 1) * epN <= INT64_MAX
  {
    var d := target - w - 1;
    assert target * epN == (w + 1) * epN + d * epN;
    var q := INT64_MAX / target;
    assert target * q <= INT64_MAX;
    assert target * epN <= target * q;
  }

  /** Nothing overflows in the totals either: every worker adds at most its own pairs to a bin. */
  method GatherResults<T>(ops: Ops<T>, finite: T -> bool, results: seq<WorkerResult<T>>, epN: int64, target: nat)
    returns (ok: bool, sx: T, sy: T, totals: seq<int64>)
    requires 0 < target && |results| <= target && 0 <= epN && epN as int <= INT64_MAX / target
    requires forall w :: 0 <= w < |results| ==> |results[w].counts| == BINS
    ensures ok <==> forall w :: 0 <= w < |results| ==> Credible(finite, results[w], epN as int)
    ensures ok ==> sx == TotalX(ops, results) && sy == TotalY(ops, results)
    ensures ok ==> |totals| == BINS && forall b :: 0 <= b < BINS ==> totals[b] as int == BinTotal(results, b)
  {
    hide Credible, BinTotal, TotalX, TotalY;
    NoResults(ops, results);
    var sums := new int64[BINS](_ => 0);
    sx, sy, totals := ops.zero, ops.zero, [];
    for w := 0 to |results|
      invariant forall v :: 0 <= v < w ==> Credible(finite, results[v], epN as int)
      invariant sx == TotalX(ops, results[..w]) && sy == TotalY(ops, results[..w])
      invariant forall b :: 0 <= b < BINS ==> sums[b] as int == BinTotal(results[..w], b)
      invariant forall b :: 0 <= b < BINS ==> 0 <= sums[b] as int <= w * epN as int
    {
      Headroom(w, target, epN as int);
      ok := CheckAndAdd(results[w], finite, epN, sums, w * epN as int);
      if !ok {
        return;
      }
      TotalsStep(ops, results, w);
      sx := ops.add(sx, results[w].sx);
      sy := ops.add(sy, results[w].sy);
      forall b | 0 <= b < BINS ensures sums[b] as int == BinTotal(results[..w + 1], b) {
        BinTotalStep(results, w, b);
      }
    }
    assert results[..|results|] == results;
    ok := true;
    totals := sums[..];
  }

  /** The totals are those of all workers: counts bin by bin, and sums in the order the results arrive. */
  lemma {:induction false} TotalsAre<T>(ops: Ops<T>, results: seq<WorkerResult<T>>, fx: int -> T, fy: int -> T)
    requires forall w :: 0 <= w < |results| ==> fx(w) == results[w].sx && fy(w) == results[w].sy
    ensures TotalX(ops, results) == Sum(ops, fx, 0, |results|) && TotalY(ops, results) == Sum(ops, fy, 0, |results|)
    decreases |results|
  {
    if results != [] {
      TotalsAre(ops, results[..|results| - 1], fx, fy);
    }
  }

  lemma {:induction false} BinTotalIs<T>(results: seq<WorkerResult<T>>, b: nat, column: seq<int>)
    requires |column| == |results|
    requires forall w :: 0 <= w < |results| ==> b < |results[w].counts| && column[w] == results[w].counts[b] as int
    ensures BinTotal(results, b) == SumOf(column)
    decreases |results|
  {
    if results != [] {
      BinTotalIs(results[..|results| - 1], b, column[..|column| - 1]);
    }
  }
}
