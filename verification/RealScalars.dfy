/** What the matrix kernels compute when the scalars are the reals, said without the kernels' own functions. */
module RealScalars {
  import opened Arith
  import Cg
  import Dgemm

  /** Exact arithmetic and an exact square root. */
  ghost predicate Reals(ops: Ops<real>) {
    && ops.zero == 0.0
    && (forall a, b :: ops.add(a, b) == a + b)
    && (forall a, b :: ops.mul(a, b) == a * b)
    && (forall a, b :: b != 0.0 ==> ops.div(a, b) == a / b)
    && (forall a :: ops.positive(a) <==> a > 0.0)
    && (forall a :: a >= 0.0 ==> ops.sqrt(a) >= 0.0 && ops.sqrt(a) * ops.sqrt(a) == a)
  }

  function Total(f: int -> real, lo: int, hi: int): real
    requires lo <= hi
    decreases hi - lo
  {
    if lo == hi then 0.0 else Total(f, lo, hi - 1) + f(hi - 1)
  }

  lemma {:induction false} SumIsTotal(ops: Ops<real>, f: int -> real, lo: int, hi: int)
    requires Reals(ops) && lo <= hi
    ensures Sum(ops, f, lo, hi) == Total(f, lo, hi)
    decreases hi - lo
  {
    if lo < hi {
      SumIsTotal(ops, f, lo, hi - 1);
    }
  }

  lemma {:induction false} SameTotals(f: int -> real, g: int -> real, lo: int, hi: int)
    requires lo <= hi && forall k :: lo <= k < hi ==> f(k) == g(k)
    ensures Total(f, lo, hi) == Total(g, lo, hi)
    decreases hi - lo
  {
    if lo < hi {
      SameTotals(f, g, lo, hi - 1);
    }
  }

  /** All terms but one are zero. */
  lemma {:induction false} OneTerm(f: int -> real, lo: int, hi: int, at: int)
    requires lo <= hi && forall k :: lo <= k < hi && k != at ==> f(k) == 0.0
    ensures Total(f, lo, hi) == if lo <= at < hi then f(at) else 0.0
    decreases hi - lo
  {
    if lo < hi {
      OneTerm(f, lo, hi - 1, at);
    }
  }

  /** The terms are added from the left, one after the other, starting from zero. */
  lemma LeftToRight<T>(ops: Ops<T>, f: int -> T, lo: int)
    ensures Sum(ops, f, lo, lo) == ops.zero
    ensures Sum(ops, f, lo, lo + 3) == ops.add(ops.add(ops.add(ops.zero, f(lo)), f(lo + 1)), f(lo + 2))
  {
    assert Sum(ops, f, lo, lo + 1) == ops.add(ops.zero, f(lo));
    assert Sum(ops, f, lo, lo + 2) == ops.add(Sum(ops, f, lo, lo + 1), f(lo + 1));
  }

  // ------------------------------------------------------------------- normalising a vector

  /** The sum of the squares of the elements. */
  function Squared(y: seq<real>): real {
    if y == [] then 0.0 else Squared(y[..|y| - 1]) + y[|y| - 1] * y[|y| - 1]
  }

  lemma {:induction false} SquaredIsTotal(y: seq<real>, f: int -> real, n: nat)
    requires n <= |y| && forall k :: 0 <= k < n ==> f(k) == y[k] * y[k]
    ensures Squared(y[..n]) == Total(f, 0, n)
    decreases n
  {
    if n > 0 {
      SquaredIsTotal(y, f, n - 1);
      assert y[..n][..n - 1] == y[..n - 1];
    }
  }

  lemma {:induction false} SquaredNotNegative(y: seq<real>)
    ensures Squared(y) >= 0.0
  {
    if y != [] {
      SquaredNotNegative(y[..|y| - 1]);
      SquareNotNegative(y[|y| - 1]);
    }
  }

  lemma SquareNotNegative(a: real)
    ensures a * a >= 0.0
  {
  }

  /** Dividing every element by `d` divides the sum of squares by its square. */
  lemma {:induction false} SquaredScaled(y: seq<real>, z: seq<real>, d: real)
    requires |y| == |z| && forall i :: 0 <= i < |y| ==> z[i] * d == y[i]
    ensures Squared(z) * (d * d) == Squared(y)
  {
    if y != [] {
      var last := |y| - 1;
      SquaredScaled(y[..last], z[..last], d);
      Scale(z[last], d, y[last]);
      Distribute(Squared(z[..last]), z[last] * z[last], d * d);
    }
  }

  lemma Scale(z: real, d: real, y: real)
    requires z * d == y
    ensures (z * z) * (d * d) == y * y
  {
    assert (z * z) * (d * d) == (z * d) * (z * d);
  }

  lemma Distribute(a: real, b: real, c: real)
    ensures (a + b) * c == a * c + b * c
  {
  }

  /** Every element over the length of the vector. */
  predicate Divides(norm: real, next: seq<real>, y: seq<real>) {
    && norm > 0.0 && norm * norm == Squared(y)
    && |next| == |y| && forall i :: 0 <= i < |y| ==> next[i] * norm == y[i]
  }

  /** `next` is `y` divided by its length, or `x` again when that length is zero. */
  ghost predicate Normal(next: seq<real>, y: seq<real>, x: seq<real>) {
    if Squared(y) > 0.0 then
      |next| == |y| && Squared(next) == 1.0 && exists norm :: Divides(norm, next, y)
    else next == x
  }

  lemma NormIs(ops: Ops<real>, y: seq<real>)
    requires Reals(ops)
    ensures Squared(y) >= 0.0 && Cg.Norm(ops, y) >= 0.0 && Cg.Norm(ops, y) * Cg.Norm(ops, y) == Squared(y)
  {
    hide Cg.Norm;
    var f := Cg.Squares(ops, y);
    Cg.NormOf(ops, y);
    SumIsTotal(ops, f, 0, |y|);
    SquaredIsTotal(y, f, |y|);
    assert y[..|y|] == y;
    SquaredNotNegative(y);
  }

  lemma PositiveRoot(r: real, s: real)
    requires r >= 0.0 && r * r == s
    ensures r > 0.0 <==> s > 0.0
  {
    if r > 0.0 {
      assert s / r == r;
    } else {
      assert r == 0.0 && r * r == 0.0;
    }
  }

  lemma DivideBack(a: real, b: real)
    requires b != 0.0
    ensures a / b * b == a
  {
  }

  lemma NormalisedIsNormal(ops: Ops<real>, y: seq<real>, x: seq<real>)
    requires Reals(ops) && |y| == |x|
    ensures Normal(Cg.Normalised(ops, y, x), y, x)
  {
    hide Cg.Norm, Reals, Squared;
    var norm, next := Cg.Norm(ops, y), Cg.Normalised(ops, y, x);
    NormIs(ops, y);
    PositiveRoot(norm, Squared(y));
    Positive(ops, norm);
    if norm > 0.0 {
      forall i | 0 <= i < |y| ensures next[i] * norm == y[i] {
        Divided(ops, y[i], norm);
      }
      assert Divides(norm, next, y);
      SquaredScaled(y, next, norm);
      UnitFactor(Squared(next), norm * norm, Squared(y));
    }
  }

  lemma Positive(ops: Ops<real>, a: real)
    requires Reals(ops)
    ensures ops.positive(a) <==> a > 0.0
  {
  }

  lemma Divided(ops: Ops<real>, a: real, b: real)
    requires Reals(ops) && b > 0.0
    ensures ops.div(a, b) * b == a
  {
    DivideBack(a, b);
  }

  lemma UnitFactor(a: real, b: real, c: real)
    requires a * b == c && b == c && c > 0.0
    ensures a == 1.0
  {
    SameFactor(a, 1.0, b);
  }

  lemma SameFactor(a: real, a': real, b: real)
    requires a * b == a' * b && b > 0.0
    ensures a == a'
  {
    var d := a - a';
    assert d * b == a * b - a' * b == 0.0;
    assert d == 0.0 by {
      assert d > 0.0 ==> d * b > 0.0;
      assert d < 0.0 ==> d * b < 0.0;
    }
  }

  // ---------------------------------------------------------------------- the sparse product

  /** The matrix element the sparse entries from `lo` to `hi` add up to in one column. */
  function Element(m: Cg.Csr<real>, lo: int, hi: int, column: int): real
    requires 0 <= lo <= hi <= |m.val| == |m.colIdx|
    decreases hi - lo
  {
    if lo == hi then 0.0 else Element(m, lo, hi - 1, column) + if m.colIdx[hi - 1] == column then m.val[hi - 1] else 0.0
  }

  /** The dense dot product of that row with a vector. */
  function DenseRow(m: Cg.Csr<real>, lo: int, hi: int, x: seq<real>, n: nat): real
    requires 0 <= lo <= hi <= |m.val| == |m.colIdx| && n <= |x|
    decreases n
  {
    if n == 0 then 0.0 else DenseRow(m, lo, hi, x, n - 1) + Element(m, lo, hi, n - 1) * x[n - 1]
  }

  lemma {:induction false} NoEntries(m: Cg.Csr<real>, lo: int, x: seq<real>, n: nat)
    requires 0 <= lo <= |m.val| == |m.colIdx| && n <= |x|
    ensures DenseRow(m, lo, lo, x, n) == 0.0
    decreases n
  {
    if n > 0 {
      NoEntries(m, lo, x, n - 1);
    }
  }

  lemma {:induction false} OneEntryMore(m: Cg.Csr<real>, lo: int, hi: int, x: seq<real>, n: nat)
    requires 0 <= lo <= hi < |m.val| == |m.colIdx| && n <= |x| && 0 <= m.colIdx[hi]
    ensures DenseRow(m, lo, hi + 1, x, n)
            == DenseRow(m, lo, hi, x, n) + if m.colIdx[hi] < n then m.val[hi] * x[m.colIdx[hi]] else 0.0
    decreases n
  {
    if n > 0 {
      OneEntryMore(m, lo, hi, x, n - 1);
      if m.colIdx[hi] == n - 1 {
        Distribute(Element(m, lo, hi, n - 1), m.val[hi], x[n - 1]);
      }
    }
  }

  lemma {:induction false} RowIsDense(ops: Ops<real>, m: Cg.Csr<real>, lo: int, hi: int, x: seq<real>)
    requires Reals(ops) && 0 <= lo <= hi <= |m.val| == |m.colIdx|
    requires forall k :: 0 <= k < |m.colIdx| ==> 0 <= m.colIdx[k] < |x|
    ensures Total(Cg.Terms(ops, m, x), lo, hi) == DenseRow(m, lo, hi, x, |x|)
    decreases hi - lo
  {
    if lo == hi {
      NoEntries(m, lo, x, |x|);
    } else {
      RowIsDense(ops, m, lo, hi - 1, x);
      OneEntryMore(m, lo, hi - 1, x, |x|);
    }
  }

  /** Every element of the sparse product is the dense dot product of its row: duplicates in a row add up. */
  lemma SpmvIsDense(ops: Ops<real>, m: Cg.Csr<real>, rows: nat, x: seq<real>, i: nat)
    requires Reals(ops) && Cg.Shaped(m, rows, |x|) && i < rows
    ensures Cg.Spmv(ops, m, rows, |x|, x)[i] == DenseAt(m, rows, x, i)
  {
    assert m.rowPtr[0] <= m.rowPtr[i] <= m.rowPtr[i + 1] <= m.rowPtr[rows];
    SumIsTotal(ops, Cg.Terms(ops, m, x), m.rowPtr[i], m.rowPtr[i + 1]);
    RowIsDense(ops, m, m.rowPtr[i], m.rowPtr[i + 1], x);
  }

  /** For any scalars: an element of the sparse product is the sum, from the left, of value times selected element. */
  lemma SparseElement<T>(ops: Ops<T>, m: Cg.Csr<T>, rows: nat, x: seq<T>, i: nat, f: int -> T)
    requires Cg.Shaped(m, rows, |x|) && i < rows
    requires forall k :: m.rowPtr[i] <= k < m.rowPtr[i + 1] ==>
               f(k) == if 0 <= k < |m.val| && k < |m.colIdx| && 0 <= m.colIdx[k] < |x|
                       then ops.mul(m.val[k], x[m.colIdx[k]]) else ops.zero
    ensures Cg.Spmv(ops, m, rows, |x|, x)[i] == Sum(ops, f, m.rowPtr[i], m.rowPtr[i + 1])
  {
    var g := Cg.Terms(ops, m, x);
    forall k | m.rowPtr[i] <= k < m.rowPtr[i + 1] ensures g(k) == f(k + 0) {
    }
    SumShifted(ops, g, f, m.rowPtr[i], m.rowPtr[i + 1], 0);
  }

  /** One iteration over the reals: `y` is the dense product, and the new vector is `y` normalised. */
  ghost predicate Iteration(m: Cg.Csr<real>, n: nat, x: seq<real>, next: seq<real>)
    requires Cg.Shaped(m, n, n) && |x| == n
  {
    exists y: seq<real> :: IsProduct(m, n, x, y) && Normal(next, y, x)
  }

  /** `y` is the dense product of the matrix and `x`. */
  predicate IsProduct(m: Cg.Csr<real>, n: nat, x: seq<real>, y: seq<real>)
    requires Cg.Shaped(m, n, n) && |x| == n
  {
    && |y| == n
    && forall i :: 0 <= i < n ==> y[i] == DenseAt(m, n, x, i)
  }

  function DenseAt(m: Cg.Csr<real>, rows: nat, x: seq<real>, i: nat): real
    requires Cg.Shaped(m, rows, |x|) && i < rows
  {
    assert m.rowPtr[0] <= m.rowPtr[i] <= m.rowPtr[i + 1] <= m.rowPtr[rows];
    DenseRow(m, m.rowPtr[i], m.rowPtr[i + 1], x, |x|)
  }

  /** Every iteration of a run, on one machine and so over any workers, is one of these. */
  lemma EveryIteration(ops: Ops<real>, m: Cg.Csr<real>, n: nat, workers: nat, x: seq<real>, k: nat)
    requires Reals(ops) && Cg.Shaped(m, n, n) && |x| == n && 0 < workers
    ensures Cg.Sequential(ops, m, n, x, 0) == x
    ensures Iteration(m, n, Cg.Sequential(ops, m, n, x, k), Cg.Sequential(ops, m, n, x, k + 1))
    ensures Cg.Distributed(ops, m, n, workers, x, k) == Cg.Sequential(ops, m, n, x, k)
  {
    Cg.DistributedIsSequential(ops, m, n, workers, x, k);
    var before := Cg.Sequential(ops, m, n, x, k);
    var y := Cg.Spmv(ops, m, n, n, before);
    NormalisedIsNormal(ops, y, before);
    forall i | 0 <= i < n ensures y[i] == DenseAt(m, n, before, i) {
      SpmvIsDense(ops, m, n, before, i);
    }
    hide Reals, Cg.Spmv, Cg.Normalised, Normal, DenseAt, Cg.Shaped;
  }

  // ----------------------------------------------------------------------- the dense product

  /** Element (row, column) of a flat matrix. */
  function At(s: seq<real>, n: nat, row: nat, column: nat): real {
    if 0 <= row * n + column < |s| then s[row * n + column] else 0.0
  }

  ghost predicate IsIdentity(s: seq<real>, n: nat) {
    && |s| == n * n
    && forall row: nat, column: nat :: row < n && column < n ==>
         At(s, n, row, column) == if row == column then 1.0 else 0.0
  }

  /** For any scalars: an element of the product is the sum, from the left, of the products along row and column. */
  lemma ProductElement<T>(ops: Ops<T>, a: seq<T>, b: seq<T>, inner: nat, columns: nat, rows: nat, row: nat, column: nat,
                          f: int -> T)
    requires |a| == rows * inner && |b| == inner * columns && row < rows && column < columns
    requires forall k :: 0 <= k < inner ==>
               f(k) == if 0 <= row * inner + k < |a| && 0 <= k * columns + column < |b|
                       then ops.mul(a[row * inner + k], b[k * columns + column]) else ops.zero
    ensures 0 <= row * columns + column < |Dgemm.Rows(ops, a, b, inner, columns, 0, rows)|
    ensures Dgemm.Rows(ops, a, b, inner, columns, 0, rows)[row * columns + column] == Sum(ops, f, 0, inner)
  {
    Dgemm.RowsAt(ops, a, b, inner, columns, rows, row, column);
    var g := Dgemm.Terms(ops, a, row * inner, b, columns, column);
    hide Dgemm.Rows;
    forall k | 0 <= k < inner ensures g(k) == f(k + 0) {
    }
    SumShifted(ops, g, f, 0, inner, 0);
  }

  /** Multiplying by the identity on the right gives the matrix back. */
  lemma TimesIdentity(ops: Ops<real>, a: seq<real>, e: seq<real>, n: nat, row: nat, column: nat)
    requires Reals(ops) && |a| == n * n && IsIdentity(e, n) && row < n && column < n
    ensures 0 <= row * n + column < |a|
    ensures 0 <= row * n + column < |Dgemm.Rows(ops, a, e, n, n, 0, n)|
    ensures Dgemm.Rows(ops, a, e, n, n, 0, n)[row * n + column] == a[row * n + column]
  {
    Dgemm.Cell(row, n, n, column);
    var f := (k: int) => if k == column then a[row * n + column] else 0.0;
    forall k | 0 <= k < n
      ensures f(k) == if 0 <= row * n + k < |a| && 0 <= k * n + column < |e|
                      then ops.mul(a[row * n + k], e[k * n + column]) else ops.zero
    {
      Dgemm.Cell(row, n, n, k);
      Dgemm.Cell(k, n, n, column);
      assert At(e, n, k, column) == if k == column then 1.0 else 0.0;
      Units(a[row * n + k]);
    }
    hide Dgemm.Rows, IsIdentity;
    ProductElement(ops, a, e, n, n, n, row, column, f);
    SumIsTotal(ops, f, 0, n);
    OneTerm(f, 0, n, column);
  }

  /** And so does multiplying by the identity on the left. */
  lemma IdentityTimes(ops: Ops<real>, e: seq<real>, b: seq<real>, n: nat, row: nat, column: nat)
    requires Reals(ops) && |b| == n * n && IsIdentity(e, n) && row < n && column < n
    ensures 0 <= row * n + column < |b|
    ensures 0 <= row * n + column < |Dgemm.Rows(ops, e, b, n, n, 0, n)|
    ensures Dgemm.Rows(ops, e, b, n, n, 0, n)[row * n + column] == b[row * n + column]
  {
    Dgemm.Cell(row, n, n, column);
    var f := (k: int) => if k == row then b[row * n + column] else 0.0;
    forall k | 0 <= k < n
      ensures f(k) == if 0 <= row * n + k < |e| && 0 <= k * n + column < |b|
                      then ops.mul(e[row * n + k], b[k * n + column]) else ops.zero
    {
      Dgemm.Cell(row, n, n, k);
      Dgemm.Cell(k, n, n, column);
      assert At(e, n, row, k) == if row == k then 1.0 else 0.0;
      Units(b[k * n + column]);
    }
    hide Dgemm.Rows, IsIdentity;
    ProductElement(ops, e, b, n, n, n, row, column, f);
    SumIsTotal(ops, f, 0, n);
    OneTerm(f, 0, n, row);
  }

  lemma Units(a: real)
    ensures a * 1.0 == a == 1.0 * a && a * 0.0 == 0.0 == 0.0 * a
  {
  }
}
