/** The STREAM and VMAP checksums: rounded arithmetic that never rounds at the permitted sizes. */
module Checksums {
  import opened Protocol

  /**
   * Doubles are reals, and every operation rounds its real result. All that is assumed of rounding is that it
   * leaves alone the multiples of 1/512 whose numerator stays below 2^53, which a double holds exactly.
   */
  type Rounding = real -> real

  const LIMIT: int := 0x20_0000_0000_0000

  function Units(k: int): real {
    k as real / 512.0
  }

  ghost predicate Exact(round: Rounding) {
    forall k: int :: -LIMIT < k < LIMIT ==> round(Units(k)) == Units(k)
  }

  function Add(round: Rounding, a: real, b: real): real { round(a + b) }

  function Mul(round: Rounding, a: real, b: real): real { round(a * b) }

  function Div(round: Rounding, a: real, b: real): real
    requires b != 0.0
  {
    round(a / b)
  }

  lemma AddIsExact(round: Rounding, j: int, k: int)
    requires Exact(round) && -LIMIT < j + k < LIMIT
    ensures Add(round, Units(j), Units(k)) == Units(j + k)
  {
    assert Units(j) + Units(k) == Units(j + k);
  }

  function Elements(mib: nat): nat {
    mib * MIB_BYTES / 8
  }

  lemma ElementsBound(mib: nat)
    requires MIN_MIB <= mib <= MAX_MIB
    ensures 131072 <= Elements(mib) <= 16777216
  {
  }

  // ------------------------------------------------------------------------------ STREAM

  /** `b + 3 c` at b = 1 and c = 2. */
  lemma TriadIsSeven(round: Rounding)
    requires Exact(round)
    ensures Add(round, 1.0, Mul(round, 3.0, 2.0)) == 7.0 == Units(3584)
  {
    assert 3.0 * 2.0 == Units(3072);
    assert 1.0 + 6.0 == Units(3584);
    assert round(Units(3072)) == Units(3072) && round(Units(3584)) == Units(3584);
  }

  /** Both sides' `7.0 * (double)count`. */
  function ExpectedStream(round: Rounding, count: nat): real {
    Mul(round, 7.0, round(count as real))
  }

  lemma ExpectedStreamIsExact(round: Rounding, count: nat)
    requires Exact(round) && count <= 16777216
    ensures ExpectedStream(round, count) == Units(3584 * count) == 7.0 * count as real
  {
    assert count as real == Units(512 * count);
    assert round(Units(512 * count)) == Units(512 * count);
    assert 7.0 * count as real == Units(3584 * count);
    assert round(Units(3584 * count)) == Units(3584 * count);
  }

  method Triad(round: Rounding, a: array<real>, b: array<real>, c: array<real>)
    requires a.Length == b.Length == c.Length && a != b && a != c
    modifies a
    ensures forall i :: 0 <= i < a.Length ==> a[i] == Add(round, b[i], Mul(round, 3.0, c[i]))
  {
    for i := 0 to a.Length
      invariant forall k :: 0 <= k < i ==> a[k] == Add(round, b[k], Mul(round, 3.0, c[k]))
    {
      a[i] := Add(round, b[i], Mul(round, 3.0, c[i]));
    }
  }

  /** A worker's run, after any number of warm-up passes: the equality test always passes. */
  method StreamRun(round: Rounding, mib: nat, warmup: nat) returns (checksum: real, verified: bool)
    requires Exact(round) && MIN_MIB <= mib <= MAX_MIB
    ensures verified && checksum == ExpectedStream(round, Elements(mib)) == 917504.0 * mib as real
  {
    var count := Elements(mib);
    ElementsBound(mib);
    var a, b, c := new real[count](_ => 0.0), new real[count](_ => 1.0), new real[count](_ => 2.0);
    for pass := 0 to warmup
      invariant forall i :: 0 <= i < count ==> b[i] == 1.0 && c[i] == 2.0
    {
      Triad(round, a, b, c);
    }
    Triad(round, a, b, c);
    TriadIsSeven(round);
    assert forall i :: 0 <= i < count ==> a[i] == 7.0;
    checksum := 0.0;
    StreamTotal(mib);
    hide Exact, Add, Units, Mul, Elements;
    assert checksum == Units(0) by { UnitsZero(); }
    for i := 0 to count
      invariant checksum == Units(3584 * i) && forall k :: 0 <= k < count ==> a[k] == 7.0
    {
      AddIsExact(round, 3584 * i, 3584);
      checksum := Add(round, checksum, a[i]);
    }
    var expected := ExpectedStream(round, count);
    ExpectedStreamIsExact(round, count);
    verified := checksum == expected;
  }

  lemma StreamTotal(mib: nat)
    ensures 7.0 * Elements(mib) as real == 917504.0 * mib as real
  {
    assert Elements(mib) == 131072 * mib;
  }

  lemma UnitsZero()
    ensures Units(0) == 0.0
  {
  }

  // -------------------------------------------------------------------------------- VMAP

  /** The mapped value of element `i` in units of 1/512. */
  function MappedUnits(i: nat): int {
    5 * (i % 4096) - 4864
  }

  /** Over every 4096 elements the mapped values add up to the same. */
  const PERIOD_UNITS: int := 22009856

  /** Part of a period: the terms 5 m - 4864 for m < n. */
  lemma {:induction false} PartOfPeriod(base: nat, n: nat)
    requires base % 4096 == 0 && n <= 4096
    ensures 2 * (TotalUnits(base + n) - TotalUnits(base)) == 5 * n * (n - 1) - 9728 * n
    decreases n
  {
    if n > 0 {
      PartOfPeriod(base, n - 1);
      OneTerm(base, n - 1);
      hide TotalUnits, MappedUnits;
      Squares(n);
    }
  }

  lemma OneTerm(base: nat, m: nat)
    requires base % 4096 == 0 && m < 4096
    ensures TotalUnits(base + m + 1) == TotalUnits(base + m) + 5 * m - 4864
  {
    assert (base + m) % 4096 == m;
  }

  lemma Squares(n: int)
    ensures 5 * n * (n - 1) == 5 * (n - 1) * (n - 2) + 10 * (n - 1)
  {
  }

  lemma {:induction false} WholePeriods(k: nat)
    ensures TotalUnits(4096 * k) == PERIOD_UNITS * k
    decreases k
  {
    if k > 0 {
      WholePeriods(k - 1);
      PartOfPeriod(4096 * (k - 1), 4096);
    }
  }

  /** A checksum in closed form: 1375616 for every MiB. */
  lemma MappedTotal(mib: nat)
    ensures Units(TotalUnits(Elements(mib))) == 1375616.0 * mib as real
  {
    assert Elements(mib) == 4096 * (32 * mib);
    WholePeriods(32 * mib);
    assert PERIOD_UNITS * (32 * mib) == 512 * (1375616 * mib);
  }

  /** The exact sum of the first `n` mapped values, in units of 1/512. */
  function TotalUnits(n: nat): int {
    if n == 0 then 0 else TotalUnits(n - 1) + MappedUnits(n - 1)
  }

  function Input(round: Rounding, i: nat): real {
    Add(round, Div(round, round((i % 4096) as real), 128.0), -8.0)
  }

  function Transform(round: Rounding, value: real): real {
    Add(round, Mul(round, value, 1.25), 0.5)
  }

  lemma {:induction false} TotalBound(n: nat)
    ensures -4864 * n <= TotalUnits(n) <= 15611 * n
  {
    if n > 0 {
      TotalBound(n - 1);
    }
  }

  lemma InputIsExact(round: Rounding, i: nat)
    requires Exact(round)
    ensures Input(round, i) == Units(4 * (i % 4096) - 4096) == (i % 4096) as real / 128.0 - 8.0
  {
    var m := i % 4096;
    assert m as real == Units(512 * m);
    assert round(Units(512 * m)) == Units(512 * m);
    assert m as real / 128.0 == Units(4 * m);
    assert round(Units(4 * m)) == Units(4 * m);
    assert Units(4 * m) + -8.0 == Units(4 * m - 4096);
    assert round(Units(4 * m - 4096)) == Units(4 * m - 4096);
  }

  /** No step of `((i mod 4096) / 128 - 8) * 1.25 + 0.5` rounds. */
  lemma MappedIsExact(round: Rounding, i: nat)
    requires Exact(round)
    ensures Transform(round, Input(round, i)) == Units(MappedUnits(i))
            == ((i % 4096) as real / 128.0 - 8.0) * 1.25 + 0.5
  {
    var m := i % 4096;
    InputIsExact(round, i);
    assert Units(4 * m - 4096) * 1.25 == Units(5 * m - 5120);
    assert round(Units(5 * m - 5120)) == Units(5 * m - 5120);
    assert Units(5 * m - 5120) + 0.5 == Units(5 * m - 4864);
    assert round(Units(5 * m - 4864)) == Units(5 * m - 4864);
  }

  lemma OneMoreMapped(round: Rounding, i: nat)
    requires Exact(round) && i < 16777216
    ensures Add(round, Units(TotalUnits(i)), Transform(round, Input(round, i))) == Units(TotalUnits(i + 1))
  {
    TotalBound(i + 1);
    MappedIsExact(round, i);
    AddIsExact(round, TotalUnits(i), MappedUnits(i));
  }

  /** The master fills its block and adds up what it expects in the same loop. */
  method VmapMaster(round: Rounding, mib: nat, input: array<real>) returns (expected: real)
    requires Exact(round) && MIN_MIB <= mib <= MAX_MIB && input.Length == Elements(mib)
    modifies input
    ensures forall i :: 0 <= i < input.Length ==> input[i] == Input(round, i)
    ensures expected == Units(TotalUnits(Elements(mib))) == 1375616.0 * mib as real
    ensures forall i :: 0 <= i < input.Length ==> input[i] == (i % 4096) as real / 128.0 - 8.0
  {
    ElementsBound(mib);
    MappedTotal(mib);
    expected := 0.0;
    UnitsZero();
    hide Exact, Add, Input, Transform, Units;
    for i := 0 to input.Length
      invariant forall k :: 0 <= k < i ==> input[k] == Input(round, k)
      invariant expected == Units(TotalUnits(i))
    {
      OneMoreMapped(round, i);
      input[i] := Input(round, i);
      expected := Add(round, expected, Transform(round, input[i]));
    }
    forall i | 0 <= i < input.Length ensures input[i] == (i % 4096) as real / 128.0 - 8.0 {
      InputIsExact(round, i);
    }
  }

  /** The worker maps the whole block first and sums the output afterwards: the same, exact, total. */
  method VmapWorker(round: Rounding, mib: nat, input: array<real>, output: array<real>)
    returns (checksum: real, verified: bool)
    requires Exact(round) && MIN_MIB <= mib <= MAX_MIB && input.Length == output.Length == Elements(mib)
             && input != output
    requires forall i :: 0 <= i < input.Length ==> input[i] == Input(round, i)
    modifies output
    ensures verified && checksum == Units(TotalUnits(Elements(mib))) == 1375616.0 * mib as real
    ensures forall i :: 0 <= i < output.Length ==> output[i] == Transform(round, Input(round, i))
    ensures forall i :: 0 <= i < output.Length ==> output[i] == ((i % 4096) as real / 128.0 - 8.0) * 1.25 + 0.5
  {
    ElementsBound(mib);
    MappedTotal(mib);
    hide Exact, Input, Transform, Units, Elements;
    for i := 0 to input.Length
      invariant forall k :: 0 <= k < i ==> output[k] == Transform(round, Input(round, k))
    {
      output[i] := Transform(round, input[i]);
    }
    forall i | 0 <= i < output.Length ensures output[i] == ((i % 4096) as real / 128.0 - 8.0) * 1.25 + 0.5 {
      MappedIsExact(round, i);
    }
    checksum := SumMapped(round, output);
    verified := SamplesMatch(round, input, output);
  }

  method SumMapped(round: Rounding, output: array<real>) returns (checksum: real)
    requires Exact(round) && output.Length <= 16777216
    requires forall i :: 0 <= i < output.Length ==> output[i] == Transform(round, Input(round, i))
    ensures checksum == Units(TotalUnits(output.Length))
  {
    UnitsZero();
    hide Exact, Add, Input, Transform, Units;
    checksum := 0.0;
    for i := 0 to output.Length
      invariant checksum == Units(TotalUnits(i))
    {
      OneMoreMapped(round, i);
      checksum := Add(round, checksum, output[i]);
    }
  }

  /** First, middle and last element. */
  method SamplesMatch(round: Rounding, input: array<real>, output: array<real>) returns (ok: bool)
    requires 0 < input.Length == output.Length
    ensures ok <==>
              forall at :: at in {0, input.Length / 2, input.Length - 1} ==> output[at] == Transform(round, input[at])
  {
    hide Transform;
    ok := true;
    var samples := [0, input.Length / 2, input.Length - 1];
    for sample := 0 to 3
      invariant ok <==> forall k :: 0 <= k < sample ==> output[samples[k]] == Transform(round, input[samples[k]])
    {
      var at := samples[sample];
      if output[at] != Transform(round, input[at]) {
        ok := false;
      }
    }
    assert samples[0] == 0 && samples[1] == input.Length / 2 && samples[2] == input.Length - 1;
  }
}
