/** Facts about quotients and remainders shared by the modules that count modulo something. */
module Division {

  function Pow2(k: nat): (p: nat)
    ensures p > 0
  {
    if k == 0 then 1 else 2 * Pow2(k - 1)
  }

  lemma ModUnique(a: nat, n: nat, q: nat, r: nat)
    requires r < n && a == q * n + r
    ensures a % n == r
  {
    var d := q - a / n;
    assert d * n == a % n - r;
    assert d >= 1 ==> d * n >= n;
    assert d <= -1 ==> d * n + n <= 0;
  }

  lemma ModStep(a: nat, n: nat)
    requires n > 0
    ensures (a + 1) % n == if a % n + 1 == n then 0 else a % n + 1
  {
    var q, r := a / n, a % n;
    assert a + 1 == q * n + (r + 1);
    if r + 1 == n {
      assert a + 1 == (q + 1) * n;
      ModUnique(a + 1, n, q + 1, 0);
    } else {
      ModUnique(a + 1, n, q, r + 1);
    }
  }

  lemma Wrap(a: nat, r: nat, n: nat)
    requires r < n && (a == r || a == r + n)
    ensures a % n == r
  {
    ModUnique(a, n, if a == r then 0 else 1, r);
  }

  lemma DivMod(a: nat, n: nat) returns (q: nat, r: nat)
    requires n > 0
    ensures a == q * n + r && r == a % n
  {
    q, r := a / n, a % n;
  }

  lemma SumOfProducts(a: nat, b: nat, c: nat, n: nat)
    ensures (a + b + c) * n == a * n + b * n + c * n
  {
  }

  /** Reducing each summand first does not change the position. */
  lemma ModAdd(a: nat, b: nat, n: nat)
    requires n > 0
    ensures (a % n + b % n) % n == (a + b) % n
  {
    var qa, ra := DivMod(a, n);
    var qb, rb := DivMod(b, n);
    var qs, rs := DivMod(ra + rb, n);
    SumOfProducts(qa, qb, qs, n);
    ModUnique(a + b, n, qa + qb + qs, rs);
  }

  /** Reducing a factor first does not change the remainder of a product. */
  lemma MulMod(a: nat, x: nat, m: nat)
    requires m > 0
    ensures (a * (x % m)) % m == (a * x) % m
  {
    var q, r := DivMod(x, m);
    var q2, r2 := DivMod(a * r, m);
    assert a * x == a * (q * m) + a * r;
    assert a * (q * m) == (a * q) * m;
    assert (a * q) * m + q2 * m == (a * q + q2) * m;
    ModUnique(a * x, m, a * q + q2, r2);
  }

  /** A remainder modulo a multiple of `m` has the same remainder modulo `m`. */
  lemma ModOfMod(a: nat, m: nat, k: nat)
    requires m > 0 && k > 0
    ensures (a % (k * m)) % m == a % m
  {
    var q, r := DivMod(a, k * m);
    var q2, r2 := DivMod(r, m);
    assert q * (k * m) == (q * k) * m;
    assert (q * k) * m + q2 * m == (q * k + q2) * m;
    ModUnique(a, m, q * k + q2, r2);
  }

  /** Doubling the modulus keeps the lowest bit. */
  lemma HalfMod(a: nat, p: nat)
    requires p > 0
    ensures a % (2 * p) == 2 * ((a / 2) % p) + a % 2
  {
    var q, r := DivMod(a / 2, p);
    assert q * (2 * p) == 2 * (q * p);
    ModUnique(a, 2 * p, q, 2 * r + a % 2);
  }

  /** An odd factor adds no factors of two. */
  lemma {:induction false} OddFactor(a: nat, s: nat, k: nat, m: nat)
    requires a % 2 == 1 && a * s == Pow2(k) * m
    ensures s % Pow2(k) == 0
    decreases k
  {
    if k > 0 {
      var p := Pow2(k - 1);
      assert (2 * p) * m == 2 * (p * m);
      EvenProduct(a, s);
      var half := s / 2;
      assert a * s == 2 * (a * half) by { assert s == 2 * half; }
      OddFactor(a, half, k - 1, m);
      HalfMod(s, p);
    }
  }

  lemma EvenProduct(a: nat, s: nat)
    requires a % 2 == 1 && (a * s) % 2 == 0
    ensures s % 2 == 0
  {
    var b := a / 2;
    assert a * s == 2 * (b * s) + s by { assert a == 2 * b + 1; }
    assert (2 * (b * s) + s) % 2 == s % 2;
  }

  lemma HalfDiv(a: nat, p: nat)
    requires p > 0
    ensures a / (2 * p) == (a / 2) / p
  {
    var q, r := DivMod(a / 2, p);
    assert q * (2 * p) == 2 * (q * p);
    var r2 := 2 * r + a % 2;
    assert a == q * (2 * p) + r2 && r2 < 2 * p;
    QuotientUnique(a, 2 * p, q, r2);
  }

  lemma QuotientUnique(a: nat, n: nat, q: nat, r: nat)
    requires r < n && a == q * n + r
    ensures a / n == q
  {
    var d := q - a / n;
    assert d * n == a % n - r;
    assert d >= 1 ==> d * n >= n;
    assert d <= -1 ==> d * n + n <= 0;
  }

  predicate SameBits(a: nat, b: nat, k: nat) {
    forall i: nat :: i < k ==> a / Pow2(i) % 2 == b / Pow2(i) % 2
  }

  /** Numbers with the same low bits are the same modulo the power of two. */
  lemma {:induction false} BitsDecide(a: nat, b: nat, k: nat)
    requires SameBits(a, b, k)
    ensures a % Pow2(k) == b % Pow2(k)
    decreases k
  {
    if k > 0 {
      forall i: nat | i < k - 1 ensures (a / 2) / Pow2(i) % 2 == (b / 2) / Pow2(i) % 2 {
        assert a / Pow2(i + 1) % 2 == b / Pow2(i + 1) % 2;
        HalfDiv(a, Pow2(i));
        HalfDiv(b, Pow2(i));
      }
      BitsDecide(a / 2, b / 2, k - 1);
      LowBit(a, b, k);
      HalfMod(a, Pow2(k - 1));
      HalfMod(b, Pow2(k - 1));
    }
  }

  lemma LowBit(a: nat, b: nat, k: nat)
    requires k > 0 && SameBits(a, b, k)
    ensures a % 2 == b % 2
  {
    assert a / Pow2(0) % 2 == b / Pow2(0) % 2;
  }

  /** Numbers with the same remainder differ by a multiple. */
  lemma SameRemainder(u: nat, v: nat, p: nat) returns (m: nat)
    requires p > 0 && u <= v && u % p == v % p
    ensures v - u == p * m
  {
    var q, r := DivMod(u, p);
    var q', r' := DivMod(v, p);
    assert v - u == q' * p - q * p == (q' - q) * p;
    assert q' < q ==> (q' - q) * p < 0;
    m := q' - q;
  }

  lemma ProductStep(a: nat, x: nat, d: nat)
    ensures a * (x + d) == a * x + a * d
  {
  }

  /** An odd multiple of a number below a power of two is no multiple of that power, unless the number is 0. */
  lemma OddMultiple(a: nat, d: nat, k: nat, m: nat)
    requires a % 2 == 1 && d < Pow2(k) && a * d == Pow2(k) * m
    ensures d == 0
  {
    OddFactor(a, d, k, m);
  }

  /** Multiplying by an odd number modulo a power of two can be undone. */
  lemma OddProductInjective(a: nat, x: nat, y: nat, k: nat)
    requires a % 2 == 1 && x <= y < Pow2(k)
    requires (a * x) % Pow2(k) == (a * y) % Pow2(k)
    ensures x == y
  {
    ProductStep(a, x, y - x);
    var m := SameRemainder(a * x, a * y, Pow2(k));
    OddMultiple(a, y - x, k, m);
  }
}
