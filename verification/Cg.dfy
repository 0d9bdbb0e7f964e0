/** The CG workload: a sparse matrix split by rows, multiplied by the workers, and put together again. */
module Cg {
  import opened Arith
  import opened Wrappers
  import opened Protocol

  /** Compressed sparse rows: row `i` is the entries `rowPtr[i] .. rowPtr[i + 1]`. */
  datatype Csr<T> = Csr(rowPtr: seq<int>, colIdx: seq<int>, val: seq<T>)

  predicate Shaped<T>(m: Csr<T>, rows: nat, n: nat) {
    && |m.rowPtr| == rows + 1 && m.rowPtr[0] == 0
    && (forall i, j :: 0 <= i <= j <= rows ==> m.rowPtr[i] <= m.rowPtr[j])
    && m.rowPtr[rows] == |m.colIdx| == |m.val|
    && (forall k :: 0 <= k < |m.colIdx| ==> 0 <= m.colIdx[k] < n)
  }

  /** Entry `k` times the vector element its column selects. */
  function Term<T>(ops: Ops<T>, m: Csr<T>, x: seq<T>, k: int): T {
    if 0 <= k < |m.val| && k < |m.colIdx| && 0 <= m.colIdx[k] < |x| then ops.mul(m.val[k], x[m.colIdx[k]]) else ops.zero
  }

  function Terms<T>(ops: Ops<T>, m: Csr<T>, x: seq<T>): int -> T {
    k => Term(ops, m, x, k)
  }

  function Row<T>(ops: Ops<T>, m: Csr<T>, x: seq<T>, i: int): T
    requires 0 <= i < |m.rowPtr| - 1 && m.rowPtr[i] <= m.rowPtr[i + 1]
  {
    Sum(ops, Terms(ops, m, x), m.rowPtr[i], m.rowPtr[i + 1])
  }

  function Spmv<T>(ops: Ops<T>, m: Csr<T>, rows: nat, n: nat, x: seq<T>): (y: seq<T>)
    requires Shaped(m, rows, n)
    ensures |y| == rows
  {
    seq(rows, i requires 0 <= i < rows => Row(ops, m, x, i))
  }

  // -------------------------------------------------------------------- rows per worker

  function RowStart(n: nat, workers: nat, w: nat): nat
    requires workers > 0
  {
    w * (n / workers)
  }

  /** The last worker also takes the rows an even split leaves over. */
  function RowCount(n: nat, workers: nat, w: nat): int
    requires workers > 0
  {
    if w == workers - 1 then n - w * (n / workers) else n / workers
  }

  lemma ProductGrows(a: nat, b: nat, q: nat)
    requires a < b
    ensures a * q + q <= b * q
  {
    var d := b - a - 1;
    assert b * q == a * q + q + d * q;
  }

  lemma EvenSplitFits(n: nat, workers: nat, w: nat)
    requires w < workers
    ensures w * (n / workers) + n / workers <= n
  {
    ProductGrows(w, workers, n / workers);
  }

  /** Each range begins where the one before ends, from 0 to n, and none is negative. */
  lemma RangesAbut(n: nat, workers: nat, w: nat)
    requires w < workers
    ensures RowCount(n, workers, w) >= 0
    ensures RowStart(n, workers, 0) == 0
    ensures w + 1 < workers ==> RowStart(n, workers, w) + RowCount(n, workers, w) == RowStart(n, workers, w + 1)
    ensures w + 1 == workers ==> RowStart(n, workers, w) + RowCount(n, workers, w) == n
  {
    EvenSplitFits(n, workers, w);
    var q := n / workers;
    assert (w + 1) * q == w * q + q;
  }

  /** Everybody has an even share, and the last worker what is left over as well. */
  lemma Shares(n: nat, workers: nat, w: nat)
    requires w < workers
    ensures RowCount(n, workers, w) == n / workers + if w == workers - 1 then n % workers else 0
  {
    if w == workers - 1 {
      var q := n / workers;
      assert n == workers * q + n % workers;
      assert workers * q == w * q + q;
    }
  }

  /** The rows before worker `w`'s, and all of them once every worker is counted. */
  function Before(n: nat, workers: nat, w: nat): nat
    requires 0 < workers
    requires w <= workers
  {
    if w == workers then n else RowStart(n, workers, w)
  }

  lemma BeforeGrows(n: nat, workers: nat, w: nat)
    requires w < workers
    ensures RowCount(n, workers, w) >= 0
    ensures Before(n, workers, w) == RowStart(n, workers, w)
    ensures Before(n, workers, w + 1) == RowStart(n, workers, w) + RowCount(n, workers, w)
    ensures Before(n, workers, w + 1) <= n
  {
    RangesAbut(n, workers, w);
    if w + 1 < workers {
      EvenSplitFits(n, workers, w + 1);
    }
  }

  /** Every row belongs to exactly one worker. */
  lemma {:induction false} RowsArePartitioned(n: nat, workers: nat, i: nat) returns (owner: nat)
    requires 0 < workers && i < n
    ensures owner < workers
    ensures forall w :: 0 <= w < workers ==>
              (RowStart(n, workers, w) <= i < RowStart(n, workers, w) + RowCount(n, workers, w) <==> w == owner)
  {
    assert Before(n, workers, workers) == n;
    hide RowStart, RowCount, Before;
    owner := OwnerUpTo(n, workers, workers, i);
    forall w | 0 <= w < workers
      ensures RowStart(n, workers, w) <= i < RowStart(n, workers, w) + RowCount(n, workers, w) <==> w == owner
    {
      BeforeGrows(n, workers, w);
      BeforeGrows(n, workers, owner);
      if w < owner {
        BeforeMonotone(n, workers, w + 1, owner);
      } else if owner < w {
        BeforeMonotone(n, workers, owner + 1, w);
      }
    }
  }

  lemma {:induction false} BeforeMonotone(n: nat, workers: nat, v: nat, w: nat)
    requires v <= w <= workers && 0 < workers
    ensures Before(n, workers, v) <= Before(n, workers, w)
    decreases w
  {
    if v < w {
      hide RowStart, RowCount, Before;
      BeforeMonotone(n, workers, v, w - 1);
      BeforeGrows(n, workers, w - 1);
    }
  }

  lemma {:induction false} OwnerUpTo(n: nat, workers: nat, w: nat, i: nat) returns (owner: nat)
    requires 0 < workers && w <= workers && i < Before(n, workers, w)
    ensures owner < w
    ensures Before(n, workers, owner) <= i < Before(n, workers, owner + 1)
    decreases w
  {
    assert Before(n, workers, 0) == 0;
    if Before(n, workers, w - 1) <= i {
      owner := w - 1;
    } else {
      owner := OwnerUpTo(n, workers, w - 1, i);
    }
  }

  // --------------------------------------------------------------- a worker's own matrix

  /** Rows `rs .. rs + rc`, with the row pointers rebased to start at 0. */
  function Slice<T>(m: Csr<T>, rows: nat, n: nat, rs: nat, rc: nat): Csr<T>
    requires Shaped(m, rows, n) && rs + rc <= rows
  {
    var from, to := m.rowPtr[rs], m.rowPtr[rs + rc];
    assert m.rowPtr[0] <= from <= to <= m.rowPtr[rows];
    Csr(seq(rc + 1, r requires 0 <= r < rc + 1 => m.rowPtr[rs + r] - from), m.colIdx[from..to], m.val[from..to])
  }

  lemma SliceShaped<T>(m: Csr<T>, rows: nat, n: nat, rs: nat, rc: nat)
    requires Shaped(m, rows, n) && rs + rc <= rows
    ensures Shaped(Slice(m, rows, n, rs, rc), rc, n)
  {
    assert m.rowPtr[0] <= m.rowPtr[rs] <= m.rowPtr[rs + rc] <= m.rowPtr[rows];
  }

  lemma SliceTerm<T>(ops: Ops<T>, m: Csr<T>, rows: nat, n: nat, rs: nat, rc: nat, x: seq<T>, k: nat)
    requires Shaped(m, rows, n) && rs + rc <= rows && k < m.rowPtr[rs + rc] - m.rowPtr[rs]
    ensures Term(ops, Slice(m, rows, n, rs, rc), x, k) == Term(ops, m, x, k + m.rowPtr[rs])
  {
    assert m.rowPtr[0] <= m.rowPtr[rs] <= m.rowPtr[rs + rc] <= m.rowPtr[rows];
  }

  lemma SlicePointers<T>(m: Csr<T>, rows: nat, n: nat, rs: nat, rc: nat, i: nat)
    requires Shaped(m, rows, n) && rs + rc <= rows && i < rc
    ensures |m.rowPtr| == rows + 1 && |Slice(m, rows, n, rs, rc).rowPtr| == rc + 1
    ensures 0 <= m.rowPtr[rs] <= m.rowPtr[rs + i] <= m.rowPtr[rs + i + 1] <= m.rowPtr[rs + rc]
    ensures Slice(m, rows, n, rs, rc).rowPtr[i] == m.rowPtr[rs + i] - m.rowPtr[rs]
    ensures Slice(m, rows, n, rs, rc).rowPtr[i + 1] == m.rowPtr[rs + i + 1] - m.rowPtr[rs]
  {
    assert m.rowPtr[0] <= m.rowPtr[rs];
  }

  /** A worker's row is the full matrix's row, term by term in the same order. */
  lemma SliceRow<T>(ops: Ops<T>, m: Csr<T>, rows: nat, n: nat, rs: nat, rc: nat, x: seq<T>, i: nat)
    requires Shaped(m, rows, n) && rs + rc <= rows && i < rc
    ensures |m.rowPtr| == rows + 1 && |Slice(m, rows, n, rs, rc).rowPtr| == rc + 1
    ensures m.rowPtr[rs + i] <= m.rowPtr[rs + i + 1]
    ensures Slice(m, rows, n, rs, rc).rowPtr[i] <= Slice(m, rows, n, rs, rc).rowPtr[i + 1]
    ensures Row(ops, Slice(m, rows, n, rs, rc), x, i) == Row(ops, m, x, rs + i)
  {
    hide Shaped, Slice, Term;
    SlicePointers(m, rows, n, rs, rc, i);
    var s := Slice(m, rows, n, rs, rc);
    var from, lo, hi := m.rowPtr[rs], m.rowPtr[rs + i], m.rowPtr[rs + i + 1];
    forall k | lo - from <= k < hi - from ensures Terms(ops, s, x)(k) == Terms(ops, m, x)(k + from) {
      SliceTerm(ops, m, rows, n, rs, rc, x, k);
    }
    SumShifted(ops, Terms(ops, s, x), Terms(ops, m, x), lo - from, hi - from, from);
  }

  lemma SliceSpmv<T>(ops: Ops<T>, m: Csr<T>, rows: nat, n: nat, rs: nat, rc: nat, x: seq<T>)
    requires Shaped(m, rows, n) && rs + rc <= rows
    ensures Shaped(Slice(m, rows, n, rs, rc), rc, n)
    ensures Spmv(ops, Slice(m, rows, n, rs, rc), rc, n, x) == Spmv(ops, m, rows, n, x)[rs..rs + rc]
  {
    SliceShaped(m, rows, n, rs, rc);
    var mine, all := Spmv(ops, Slice(m, rows, n, rs, rc), rc, n, x), Spmv(ops, m, rows, n, x);
    forall i | 0 <= i < rc ensures mine[i] == all[rs + i] {
      SliceRow(ops, m, rows, n, rs, rc, x, i);
      SpmvAt(ops, m, rows, n, x, rs + i);
      SpmvAt(ops, Slice(m, rows, n, rs, rc), rc, n, x, i);
      hide Shaped, Slice, Spmv, Row;
    }
    hide Shaped, Slice, Spmv;
  }

  lemma SpmvAt<T>(ops: Ops<T>, m: Csr<T>, rows: nat, n: nat, x: seq<T>, i: nat)
    requires Shaped(m, rows, n) && i < rows
    ensures Spmv(ops, m, rows, n, x)[i] == Row(ops, m, x, i)
  {
  }

  // ----------------------------------------------------------- gathering and iterating

  /** The matrix worker `w` is sent. */
  function Part<T>(m: Csr<T>, n: nat, workers: nat, w: nat): Csr<T>
    requires Shaped(m, n, n) && w < workers
  {
    BeforeGrows(n, workers, w);
    Slice(m, n, n, RowStart(n, workers, w), RowCount(n, workers, w))
  }

  /** What the master holds after gathering the first `w` workers' rows. */
  function Gathered<T>(ops: Ops<T>, m: Csr<T>, n: nat, workers: nat, x: seq<T>, w: nat): seq<T>
    requires Shaped(m, n, n) && w <= workers
    decreases w
  {
    if w == 0 then []
    else
      BeforeGrows(n, workers, w - 1);
      SliceShaped(m, n, n, RowStart(n, workers, w - 1), RowCount(n, workers, w - 1));
      Gathered(ops, m, n, workers, x, w - 1)
        + Spmv(ops, Part(m, n, workers, w - 1), RowCount(n, workers, w - 1), n, x)
  }

  lemma GatheredStep<T>(ops: Ops<T>, m: Csr<T>, n: nat, workers: nat, x: seq<T>, w: nat)
    requires Shaped(m, n, n) && w < workers
    ensures Before(n, workers, w) <= Before(n, workers, w + 1) <= n
    ensures Gathered(ops, m, n, workers, x, w + 1)
            == Gathered(ops, m, n, workers, x, w)
               + Spmv(ops, m, n, n, x)[Before(n, workers, w)..Before(n, workers, w + 1)]
  {
    BeforeGrows(n, workers, w);
    SliceSpmv(ops, m, n, n, RowStart(n, workers, w), RowCount(n, workers, w), x);
    hide Shaped, Slice, Spmv, RowStart, RowCount, Before;
  }

  lemma {:induction false} GatheredIsPrefix<T>(ops: Ops<T>, m: Csr<T>, n: nat, workers: nat, x: seq<T>, w: nat)
    requires Shaped(m, n, n) && w <= workers && 0 < workers
    ensures Before(n, workers, w) <= n
    ensures Gathered(ops, m, n, workers, x, w) == Spmv(ops, m, n, n, x)[..Before(n, workers, w)]
    decreases w
  {
    hide Shaped, Spmv;
    if w == 0 {
      assert Before(n, workers, 0) == 0;
    } else {
      GatheredIsPrefix(ops, m, n, workers, x, w - 1);
      GatheredStep(ops, m, n, workers, x, w - 1);
      hide Before, Gathered;
      var y := Spmv(ops, m, n, n, x);
      assert y[..Before(n, workers, w - 1)] + y[Before(n, workers, w - 1)..Before(n, workers, w)]
          == y[..Before(n, workers, w)];
    }
  }

  /** The gathered vector is the product with the whole matrix, element for element. */
  lemma GatheredIsProduct<T>(ops: Ops<T>, m: Csr<T>, n: nat, workers: nat, x: seq<T>)
    requires Shaped(m, n, n) && 0 < workers
    ensures Gathered(ops, m, n, workers, x, workers) == Spmv(ops, m, n, n, x)
  {
    GatheredIsPrefix(ops, m, n, workers, x, workers);
    assert Before(n, workers, workers) == n;
    hide Spmv, Gathered, Shaped;
    assert Spmv(ops, m, n, n, x)[..n] == Spmv(ops, m, n, n, x);
  }

  function Norm<T>(ops: Ops<T>, y: seq<T>): T {
    ops.sqrt(Sum(ops, i => if 0 <= i < |y| then ops.mul(y[i], y[i]) else ops.zero, 0, |y|))
  }

  /** The squares of a vector's elements. */
  function Squares<T>(ops: Ops<T>, y: seq<T>): int -> T {
    k => if 0 <= k < |y| then ops.mul(y[k], y[k]) else ops.zero
  }

  /** The norm is the root of the squares added from left to right. */
  lemma NormOf<T>(ops: Ops<T>, y: seq<T>)
    ensures Norm(ops, y) == ops.sqrt(Sum(ops, Squares(ops, y), 0, |y|))
  {
    var f := (i: int) => if 0 <= i < |y| then ops.mul(y[i], y[i]) else ops.zero;
    assert Norm(ops, y) == ops.sqrt(Sum(ops, f, 0, |y|));
    forall j | 0 <= j < |y| ensures f(j) == Squares(ops, y)(j + 0) {
    }
    SumShifted(ops, f, Squares(ops, y), 0, |y|, 0);
  }

  /** The next vector: `y` over its norm, or the old one when the norm is not positive. */
  function Normalised<T>(ops: Ops<T>, y: seq<T>, x: seq<T>): (next: seq<T>)
    requires |y| == |x|
    ensures |next| == |x|
  {
    if ops.positive(Norm(ops, y)) then seq(|y|, i requires 0 <= i < |y| => ops.div(y[i], Norm(ops, y))) else x
  }

  /** One iteration on one machine. */
  function Next<T>(ops: Ops<T>, m: Csr<T>, n: nat, x: seq<T>): (r: seq<T>)
    requires Shaped(m, n, n) && |x| == n
    ensures |r| == n
  {
    Normalised(ops, Spmv(ops, m, n, n, x), x)
  }

  /** One iteration over the workers. */
  function NextGathered<T>(ops: Ops<T>, m: Csr<T>, n: nat, workers: nat, x: seq<T>): (r: seq<T>)
    requires Shaped(m, n, n) && |x| == n && 0 < workers
    ensures |r| == n
  {
    GatheredIsProduct(ops, m, n, workers, x);
    Normalised(ops, Gathered(ops, m, n, workers, x, workers), x)
  }

  /** The vector after `k` iterations on one machine. */
  function Sequential<T>(ops: Ops<T>, m: Csr<T>, n: nat, x: seq<T>, k: nat): (r: seq<T>)
    requires Shaped(m, n, n) && |x| == n
    ensures |r| == n
    decreases k
  {
    if k == 0 then x else Next(ops, m, n, Sequential(ops, m, n, x, k - 1))
  }

  /** The vector after `k` iterations over the workers. */
  function Distributed<T>(ops: Ops<T>, m: Csr<T>, n: nat, workers: nat, x: seq<T>, k: nat): (r: seq<T>)
    requires Shaped(m, n, n) && |x| == n && 0 < workers
    ensures |r| == n
    decreases k
  {
    if k == 0 then x else NextGathered(ops, m, n, workers, Distributed(ops, m, n, workers, x, k - 1))
  }

  lemma NextAgrees<T>(ops: Ops<T>, m: Csr<T>, n: nat, workers: nat, x: seq<T>)
    requires Shaped(m, n, n) && |x| == n && 0 < workers
    ensures NextGathered(ops, m, n, workers, x) == Next(ops, m, n, x)
  {
    GatheredIsProduct(ops, m, n, workers, x);
    hide Spmv, Gathered, Normalised, Shaped;
  }

  /** Every iterate is the same, for any number of workers and any scalar operations. */
  lemma {:induction false} DistributedIsSequential<T>(ops: Ops<T>, m: Csr<T>, n: nat, workers: nat, x: seq<T>, k: nat)
    requires Shaped(m, n, n) && |x| == n && 0 < workers
    ensures Distributed(ops, m, n, workers, x, k) == Sequential(ops, m, n, x, k)
    decreases k
  {
    hide Next, NextGathered, Shaped;
    if k > 0 {
      DistributedIsSequential(ops, m, n, workers, x, k - 1);
      NextAgrees(ops, m, n, workers, Distributed(ops, m, n, workers, x, k - 1));
    }
  }

  // ---------------------------------------------------------------------- the C routines

  /** One row, summed from left to right. */
  method RowKernel<T>(ops: Ops<T>, m: Csr<T>, nrows: nat, n: nat, x: seq<T>, i: nat) returns (sum: T)
    requires Shaped(m, nrows, n) && |x| == n && i < nrows
    ensures sum == Spmv(ops, m, nrows, n, x)[i]
  {
    SpmvAt(ops, m, nrows, n, x, i);
    hide Spmv;
    sum := ops.zero;
    var j := m.rowPtr[i];
    assert m.rowPtr[0] <= j <= m.rowPtr[i + 1] <= m.rowPtr[nrows];
    while j < m.rowPtr[i + 1]
      invariant m.rowPtr[i] <= j <= m.rowPtr[i + 1]
      invariant sum == Sum(ops, Terms(ops, m, x), m.rowPtr[i], j)
    {
      assert Terms(ops, m, x)(j) == ops.mul(m.val[j], x[m.colIdx[j]]);
      sum := ops.add(sum, ops.mul(m.val[j], x[m.colIdx[j]]));
      j := j + 1;
    }
  }

  /** `y = A x`, row by row. */
  method SpmvKernel<T>(ops: Ops<T>, m: Csr<T>, nrows: nat, n: nat, x: seq<T>, y: array<T>)
    requires Shaped(m, nrows, n) && |x| == n && y.Length == nrows
    modifies y
    ensures y[..] == Spmv(ops, m, nrows, n, x)
  {
    hide Spmv, Shaped;
    for i := 0 to nrows
      invariant forall r :: 0 <= r < i ==> y[r] == Spmv(ops, m, nrows, n, x)[r]
    {
      var sum := RowKernel(ops, m, nrows, n, x, i);
      y[i] := sum;
    }
  }

  /** The rebased row pointers of one worker, and its share of columns and values. */
  method CutPart<T>(m: Csr<T>, n: nat, rs: nat, rc: nat) returns (part: Csr<T>)
    requires Shaped(m, n, n) && rs + rc <= n
    ensures part == Slice(m, n, n, rs, rc)
    ensures |part.rowPtr| == rc + 1 && forall r :: 0 <= r <= rc ==> part.rowPtr[r] == m.rowPtr[rs + r] - m.rowPtr[rs]
    ensures |part.colIdx| == |part.val| == m.rowPtr[rs + rc] - m.rowPtr[rs]
    ensures forall k :: 0 <= k < |part.colIdx| ==>
              && 0 <= k + m.rowPtr[rs] < |m.colIdx| == |m.val|
              && part.colIdx[k] == m.colIdx[k + m.rowPtr[rs]] && part.val[k] == m.val[k + m.rowPtr[rs]]
  {
    var localRp := new int[rc + 1](_ => 0);
    for r := 0 to rc + 1
      invariant forall k :: 0 <= k < r ==> localRp[k] == m.rowPtr[rs + k] - m.rowPtr[rs]
    {
      localRp[r] := m.rowPtr[rs + r] - m.rowPtr[rs];
    }
    SliceShaped(m, n, n, rs, rc);
    assert m.rowPtr[0] <= m.rowPtr[rs] <= m.rowPtr[rs + rc] <= m.rowPtr[n];
    part := Csr(localRp[..], m.colIdx[m.rowPtr[rs]..m.rowPtr[rs + rc]], m.val[m.rowPtr[rs]..m.rowPtr[rs + rc]]);
  }

  /** One exchange: every worker multiplies its own rows, and its rows go to their place in `y`. */
  method ScatterGather<T>(ops: Ops<T>, parts: seq<Csr<T>>, ghost m: Csr<T>, n: nat, workers: nat, x: seq<T>,
                          y: array<T>)
    requires Shaped(m, n, n) && 0 < workers && |x| == n && y.Length == n
    requires |parts| == workers && forall w :: 0 <= w < workers ==> parts[w] == Part(m, n, workers, w)
    modifies y
    ensures y[..] == Spmv(ops, m, n, n, x)
  {
    hide Spmv, Slice;
    assert Before(n, workers, 0) == 0;
    for w := 0 to workers
      invariant Before(n, workers, w) <= n
      invariant y[..Before(n, workers, w)] == Gathered(ops, m, n, workers, x, w)
    {
      BeforeGrows(n, workers, w);
      var rs, rc := RowStart(n, workers, w), RowCount(n, workers, w);
      SliceShaped(m, n, n, rs, rc);
      var yw := new T[rc](_ => ops.zero);
      hide Shaped, RowStart, RowCount, Before;
      SpmvKernel(ops, parts[w], rc, n, x, yw);
      ghost var head := y[..rs];
      forall k | 0 <= k < rc { y[rs + k] := yw[k]; }
      assert y[..rs + rc] == head + yw[..];
    }
    GatheredIsProduct(ops, m, n, workers, x);
    assert Before(n, workers, workers) == n;
    assert y[..n] == y[..];
  }

  /** `x = y / ||y||` in place. */
  method UpdateX<T>(ops: Ops<T>, y: array<T>, x: array<T>)
    requires y.Length == x.Length && x != y
    modifies x
    ensures x[..] == Normalised(ops, y[..], old(x[..]))
    ensures var norm := ops.sqrt(Sum(ops, Squares(ops, y[..]), 0, y.Length));
            if ops.positive(norm) then forall i :: 0 <= i < x.Length ==> x[i] == ops.div(y[i], norm)
            else x[..] == old(x[..])
  {
    NormOf(ops, y[..]);
    hide Squares;
    var n := y.Length;
    var norm := ops.zero;
    norm := SumSquares(ops, y[..]);
    norm := ops.sqrt(norm);
    if ops.positive(norm) {
      for i := 0 to n
        invariant forall k :: 0 <= k < i ==> x[k] == ops.div(y[k], norm)
      {
        x[i] := ops.div(y[i], norm);
      }
    }
  }

  method SumSquares<T>(ops: Ops<T>, y: seq<T>) returns (norm: T)
    ensures ops.sqrt(norm) == Norm(ops, y)
  {
    ghost var f := (i: int) => if 0 <= i < |y| then ops.mul(y[i], y[i]) else ops.zero;
    norm := ops.zero;
    for i := 0 to |y|
      invariant norm == Sum(ops, f, 0, i)
    {
      assert f(i) == ops.mul(y[i], y[i]);
      norm := ops.add(norm, ops.mul(y[i], y[i]));
    }
    assert Norm(ops, y) == ops.sqrt(Sum(ops, f, 0, |y|));
  }

  /** Cuts the matrix for every worker. */
  method CutParts<T>(m: Csr<T>, n: nat, workers: nat) returns (parts: seq<Csr<T>>)
    requires Shaped(m, n, n) && 0 < workers
    ensures |parts| == workers && forall w :: 0 <= w < workers ==> parts[w] == Part(m, n, workers, w)
  {
    hide Slice;
    parts := [];
    for w := 0 to workers
      invariant |parts| == w && forall v :: 0 <= v < w ==> parts[v] == Part(m, n, workers, v)
    {
      BeforeGrows(n, workers, w);
      var part := CutPart(m, n, RowStart(n, workers, w), RowCount(n, workers, w));
      parts := parts + [part];
    }
  }

  method Iterate<T>(ops: Ops<T>, parts: seq<Csr<T>>, ghost m: Csr<T>, n: nat, workers: nat, x: array<T>, y: array<T>)
    requires Shaped(m, n, n) && 0 < workers && x.Length == y.Length == n && x != y
    requires |parts| == workers && forall w :: 0 <= w < workers ==> parts[w] == Part(m, n, workers, w)
    modifies x, y
    ensures x[..] == Next(ops, m, n, old(x[..]))
  {
    hide Spmv, Part, Normalised, Shaped;
    ghost var before := x[..];
    ScatterGather(ops, parts, m, n, workers, x[..], y);
    assert x[..] == before;
    UpdateX(ops, y, x);
  }

  /** One run: the matrix is cut and sent once, then `iters` exchanges, each followed by normalising `x`. */
  method CgRun<T>(ops: Ops<T>, m: Csr<T>, n: nat, workers: nat, iters: nat, x: array<T>)
    requires Shaped(m, n, n) && 0 < workers && x.Length == n
    modifies x
    ensures x[..] == Sequential(ops, m, n, old(x[..]), iters)
  {
    hide Shaped, Part, Next;
    ghost var start := x[..];
    var parts := CutParts(m, n, workers);
    var y := new T[n](_ => ops.zero);
    assert x[..] == start;
    for iter := 0 to iters
      invariant x[..] == Sequential(ops, m, n, start, iter)
    {
      Iterate(ops, parts, m, n, workers, x, y);
    }
  }

  // --------------------------------------------------------------- the generated matrix

  lemma RowEnds(i: nat, n: nat, each: nat)
    requires i < n
    ensures 0 <= i * each && i * each + each == (i + 1) * each <= n * each
  {
    var d := n - i - 1;
    assert n * each == (i + 1) * each + d * each;
  }

  lemma EvenRowsShaped<T>(m: Csr<T>, n: nat, each: nat)
    requires |m.rowPtr| == n + 1 && |m.colIdx| == |m.val| == n * each
    requires forall i :: 0 <= i <= n ==> m.rowPtr[i] == i * each
    requires forall k :: 0 <= k < |m.colIdx| ==> 0 <= m.colIdx[k] < n
    ensures Shaped(m, n, n)
  {
    forall i, j | 0 <= i <= j <= n ensures m.rowPtr[i] <= m.rowPtr[j] {
      var d := j - i;
      assert j * each == i * each + d * each;
    }
  }

  /**
   * `nzpc` entries in every row; `draw` and `weight` are the generator's successive outputs. Refused when empty
   * or when the entry count would not fit an int.
   */
  method GenerateSparseMatrix<T(0)>(n: int, nzpc: int, draw: int -> nat, weight: int -> T) returns (r: Option<Csr<T>>)
    ensures r.Some? <==> 0 < n && 0 < nzpc && n <= INT_MAX / nzpc
    ensures r.Some? ==>
              && Shaped(r.value, n, n)
              && (forall i :: 0 <= i < n ==> r.value.rowPtr[i + 1] - r.value.rowPtr[i] == nzpc)
              && |r.value.colIdx| == |r.value.val| == n * nzpc
              && forall k :: 0 <= k < |r.value.colIdx| ==>
                   r.value.colIdx[k] == draw(2 * k) % n && r.value.val[k] == weight(2 * k + 1)
  {
    if n <= 0 || nzpc <= 0 || n > INT_MAX / nzpc {
      return None;
    }
    var nnz := n * nzpc;
    var rowPtr := new int[n + 1](_ => 0);
    for i := 0 to n + 1
      invariant forall k :: 0 <= k < i ==> rowPtr[k] == k * nzpc
    {
      rowPtr[i] := i * nzpc;
    }
    var pointers := rowPtr[..];
    var colIdx := new int[nnz](_ => 0);
    var val := new T[nnz];
    for i := 0 to n
      invariant i * nzpc <= nnz
      invariant forall k :: 0 <= k < i * nzpc ==> colIdx[k] == draw(2 * k) % n && val[k] == weight(2 * k + 1)
    {
      RowEnds(i, n, nzpc);
      FillRow(i * nzpc, nzpc, n, draw, weight, colIdx, val);
    }
    var m := Csr(pointers, colIdx[..], val[..]);
    EvenRowsShaped(m, n, nzpc);
    forall i | 0 <= i < n ensures m.rowPtr[i + 1] - m.rowPtr[i] == nzpc {
      RowEnds(i, n, nzpc);
    }
    r := Some(m);
  }

  method FillRow<T>(at: nat, nzpc: nat, n: nat, draw: int -> nat, weight: int -> T, colIdx: array<int>, val: array<T>)
    requires at + nzpc <= colIdx.Length == val.Length && 0 < n && (colIdx as object) != val as object
    requires forall k :: 0 <= k < at ==> colIdx[k] == draw(2 * k) % n && val[k] == weight(2 * k + 1)
    modifies colIdx, val
    ensures forall k :: 0 <= k < at + nzpc ==> colIdx[k] == draw(2 * k) % n && val[k] == weight(2 * k + 1)
  {
    for j := 0 to nzpc
      invariant forall k :: 0 <= k < at + j ==> colIdx[k] == draw(2 * k) % n && val[k] == weight(2 * k + 1)
    {
      colIdx[at + j] := draw(2 * (at + j)) % n;
      val[at + j] := weight(2 * (at + j) + 1);
    }
  }
}
