/** Dense matrix multiplication by row blocks, in the order the kernel accumulates. */
module Dgemm {
  import opened Arith

  /** Matrices are flat, row after row. Term `k` of the product at one row, starting at `rowOff`, and column. */
  function Term<T>(ops: Ops<T>, a: seq<T>, rowOff: int, b: seq<T>, columns: int, column: int, k: int): T {
    if 0 <= rowOff + k < |a| && 0 <= k * columns + column < |b| then ops.mul(a[rowOff + k], b[k * columns + column])
    else ops.zero
  }

  function Terms<T>(ops: Ops<T>, a: seq<T>, rowOff: int, b: seq<T>, columns: int, column: int): int -> T {
    k => Term(ops, a, rowOff, b, columns, column, k)
  }

  /** The dot product of a row and a column, summed from left to right. */
  function Dot<T>(ops: Ops<T>, a: seq<T>, rowOff: int, b: seq<T>, columns: int, column: int, inner: nat): T {
    Sum(ops, Terms(ops, a, rowOff, b, columns, column), 0, inner)
  }

  function RowProduct<T>(ops: Ops<T>, a: seq<T>, rowOff: int, b: seq<T>, inner: nat, columns: nat): (r: seq<T>)
    ensures |r| == columns
  {
    seq(columns, column requires 0 <= column < columns => Dot(ops, a, rowOff, b, columns, column, inner))
  }

  /** Rows `lo .. hi` of the product, one after the other. */
  function Rows<T>(ops: Ops<T>, a: seq<T>, b: seq<T>, inner: nat, columns: nat, lo: nat, hi: nat): seq<T>
    requires lo <= hi
    decreases hi - lo
  {
    if lo == hi then []
    else Rows(ops, a, b, inner, columns, lo, hi - 1) + RowProduct(ops, a, (hi - 1) * inner, b, inner, columns)
  }

  lemma {:induction false} RowsLength<T>(ops: Ops<T>, a: seq<T>, b: seq<T>, inner: nat, columns: nat, lo: nat, hi: nat)
    requires lo <= hi
    ensures |Rows(ops, a, b, inner, columns, lo, hi)| == (hi - lo) * columns
    decreases hi - lo
  {
    if lo < hi {
      RowsLength(ops, a, b, inner, columns, lo, hi - 1);
      OneMore(hi - 1 - lo, columns);
    }
  }

  lemma OneMore(k: nat, n: nat)
    ensures (k + 1) * n == k * n + n && k * n >= 0
  {
  }

  lemma Cell(row: nat, rows: nat, columns: nat, column: nat)
    requires row < rows && column < columns
    ensures 0 <= row * columns + column < row * columns + columns <= rows * columns
  {
    var d := rows - row - 1;
    assert rows * columns == row * columns + columns + d * columns;
  }

  /** Every element of the product is the left-to-right dot product of its row and column. */
  lemma {:induction false} RowsAt<T>(ops: Ops<T>, a: seq<T>, b: seq<T>, inner: nat, columns: nat, hi: nat, row: nat,
                                     column: nat)
    requires row < hi && column < columns
    ensures 0 <= row * columns + column < |Rows(ops, a, b, inner, columns, 0, hi)|
    ensures Rows(ops, a, b, inner, columns, 0, hi)[row * columns + column]
            == Dot(ops, a, row * inner, b, columns, column, inner)
    decreases hi
  {
    hide Dot;
    RowsLength(ops, a, b, inner, columns, 0, hi);
    RowsLength(ops, a, b, inner, columns, 0, hi - 1);
    Cell(row, hi, columns, column);
    if row < hi - 1 {
      RowsAt(ops, a, b, inner, columns, hi - 1, row, column);
    }
  }

  lemma {:induction false} RowsJoin<T>(ops: Ops<T>, a: seq<T>, b: seq<T>, inner: nat, columns: nat, lo: nat, mid: nat,
                                       hi: nat)
    requires lo <= mid <= hi
    ensures Rows(ops, a, b, inner, columns, lo, mid) + Rows(ops, a, b, inner, columns, mid, hi)
            == Rows(ops, a, b, inner, columns, lo, hi)
    decreases hi - mid
  {
    hide RowProduct;
    if mid < hi {
      RowsJoin(ops, a, b, inner, columns, lo, mid, hi - 1);
      var x, y := Rows(ops, a, b, inner, columns, lo, mid), Rows(ops, a, b, inner, columns, mid, hi - 1);
      var last := RowProduct(ops, a, (hi - 1) * inner, b, inner, columns);
      assert x + (y + last) == (x + y) + last;
    }
  }

  // --------------------------------------------------------------------- a worker's block

  lemma BlockTerm<T>(ops: Ops<T>, a: seq<T>, block: seq<T>, at: nat, rowOff: nat, b: seq<T>, columns: int, column: int,
                     k: nat)
    requires at + |block| <= |a| && block == a[at..at + |block|] && rowOff + k < |block|
    ensures Term(ops, block, rowOff, b, columns, column, k) == Term(ops, a, at + rowOff, b, columns, column, k)
  {
  }

  lemma BlockDot<T>(ops: Ops<T>, a: seq<T>, block: seq<T>, at: nat, rowOff: nat, b: seq<T>, columns: int, column: int,
                    inner: nat)
    requires at + |block| <= |a| && block == a[at..at + |block|] && rowOff + inner <= |block|
    ensures Dot(ops, block, rowOff, b, columns, column, inner) == Dot(ops, a, at + rowOff, b, columns, column, inner)
  {
    hide Term;
    var f, g := Terms(ops, block, rowOff, b, columns, column), Terms(ops, a, at + rowOff, b, columns, column);
    forall k | 0 <= k < inner ensures f(k) == g(k + 0) {
      BlockTerm(ops, a, block, at, rowOff, b, columns, column, k);
    }
    SumShifted(ops, f, g, 0, inner, 0);
  }

  lemma BlockRow<T>(ops: Ops<T>, a: seq<T>, block: seq<T>, at: nat, rowOff: nat, b: seq<T>, inner: nat, columns: nat)
    requires at + |block| <= |a| && block == a[at..at + |block|] && rowOff + inner <= |block|
    ensures RowProduct(ops, block, rowOff, b, inner, columns) == RowProduct(ops, a, at + rowOff, b, inner, columns)
  {
    hide Dot;
    forall column | 0 <= column < columns
      ensures Dot(ops, block, rowOff, b, columns, column, inner) == Dot(ops, a, at + rowOff, b, columns, column, inner)
    {
      BlockDot(ops, a, block, at, rowOff, b, columns, column, inner);
    }
  }

  lemma RowFits(row: nat, rows: nat, inner: nat)
    requires row < rows
    ensures 0 <= row * inner && row * inner + inner <= rows * inner
  {
    var d := rows - row - 1;
    assert rows * inner == row * inner + inner + d * inner;
  }

  lemma Distribute(x: nat, y: nat, n: nat)
    ensures x * n + y * n == (x + y) * n
  {
  }

  /** Multiplying a block of rows gives those rows of the whole product. */
  lemma {:induction false} BlockRows<T>(ops: Ops<T>, a: seq<T>, block: seq<T>, first: nat, b: seq<T>, inner: nat,
                                        columns: nat, rows: nat, hi: nat)
    requires hi <= rows && |block| == rows * inner && first * inner + |block| <= |a|
    requires block == a[first * inner..first * inner + |block|]
    ensures Rows(ops, block, b, inner, columns, 0, hi) == Rows(ops, a, b, inner, columns, first, first + hi)
    decreases hi
  {
    hide RowProduct;
    if hi > 0 {
      BlockRows(ops, a, block, first, b, inner, columns, rows, hi - 1);
      RowFits(hi - 1, rows, inner);
      BlockRow(ops, a, block, first * inner, (hi - 1) * inner, b, inner, columns);
      Distribute(first, hi - 1, inner);
    }
  }

  // ------------------------------------------------------------------------- the routines

  /** Innermost loop: adds `value` times one row of `b` to one row of `c`. */
  method Accumulate<T>(ops: Ops<T>, value: T, b: seq<T>, bOff: nat, c: array<T>, cOff: nat, columns: nat)
    requires bOff + columns <= |b| && cOff + columns <= c.Length
    modifies c
    ensures c[..cOff] == old(c[..cOff]) && c[cOff + columns..] == old(c[cOff + columns..])
    ensures forall p :: cOff <= p < cOff + columns ==>
              c[p] == ops.add(old(c[..])[p], ops.mul(value, b[bOff + (p - cOff)]))
  {
    for column := 0 to columns
      invariant c[..cOff] == old(c[..cOff]) && c[cOff + columns..] == old(c[cOff + columns..])
      invariant forall p :: cOff <= p < cOff + column ==>
                  c[p] == ops.add(old(c[..])[p], ops.mul(value, b[bOff + (p - cOff)]))
      invariant forall p :: cOff + column <= p < cOff + columns ==> c[p] == old(c[..])[p]
    {
      c[cOff + column] := ops.add(c[cOff + column], ops.mul(value, b[bOff + column]));
    }
  }

  lemma TermIs<T>(ops: Ops<T>, a: seq<T>, rowOff: nat, b: seq<T>, inner: nat, columns: nat, column: nat, k: nat)
    requires rowOff + inner <= |a| && |b| == inner * columns && k < inner && column < columns
    ensures 0 <= k * columns && k * columns + columns <= |b|
    ensures Terms(ops, a, rowOff, b, columns, column)(k) == ops.mul(a[rowOff + k], b[k * columns + column])
  {
    RowFits(k, inner, columns);
  }

  /** Middle loop: accumulates one row of the product over a row of zeros. */
  method MultiplyRow<T>(ops: Ops<T>, a: seq<T>, rowOff: nat, b: seq<T>, c: array<T>, cOff: nat, innerDimension: nat,
                        columns: nat)
    requires rowOff + innerDimension <= |a| && |b| == innerDimension * columns && cOff + columns <= c.Length
    requires forall p :: cOff <= p < cOff + columns ==> c[p] == ops.zero
    modifies c
    ensures c[..cOff] == old(c[..cOff]) && c[cOff + columns..] == old(c[cOff + columns..])
    ensures c[cOff..cOff + columns] == RowProduct(ops, a, rowOff, b, innerDimension, columns)
  {
    for inner := 0 to innerDimension
      invariant c[..cOff] == old(c[..cOff]) && c[cOff + columns..] == old(c[cOff + columns..])
      invariant forall p :: cOff <= p < cOff + columns ==> c[p] == Dot(ops, a, rowOff, b, columns, p - cOff, inner)
    {
      hide Term, Terms;
      RowFits(inner, innerDimension, columns);
      var value := a[rowOff + inner];
      ghost var before := c[..];
      Accumulate(ops, value, b, inner * columns, c, cOff, columns);
      forall p | cOff <= p < cOff + columns ensures c[p] == Dot(ops, a, rowOff, b, columns, p - cOff, inner + 1) {
        TermIs(ops, a, rowOff, b, innerDimension, columns, p - cOff, inner);
        assert before[p] == Dot(ops, a, rowOff, b, columns, p - cOff, inner);
      }
    }
  }

  /** Clears `c`, then accumulates row by row. */
  method Multiply<T>(ops: Ops<T>, a: seq<T>, b: seq<T>, c: array<T>, rows: nat, inner: nat, columns: nat)
    requires |a| == rows * inner && |b| == inner * columns && c.Length == rows * columns
    modifies c
    ensures c[..] == Rows(ops, a, b, inner, columns, 0, rows)
  {
    hide RowProduct;
    forall k | 0 <= k < c.Length { c[k] := ops.zero; }
    for row := 0 to rows
      invariant row * columns <= c.Length
      invariant c[..row * columns] == Rows(ops, a, b, inner, columns, 0, row)
      invariant forall k :: row * columns <= k < c.Length ==> c[k] == ops.zero
    {
      RowFits(row, rows, inner);
      RowFits(row, rows, columns);
      OneMore(row, columns);
      MultiplyOne(ops, a, b, c, row, row * inner, row * columns, inner, columns);
    }
    assert c[..c.Length] == c[..];
  }

  method MultiplyOne<T>(ops: Ops<T>, a: seq<T>, b: seq<T>, c: array<T>, ghost row: nat, rowOff: nat, cOff: nat,
                        inner: nat, columns: nat)
    requires rowOff + inner <= |a| && |b| == inner * columns && cOff + columns <= c.Length
    requires rowOff == row * inner
    requires forall k :: cOff <= k < c.Length ==> c[k] == ops.zero
    requires c[..cOff] == Rows(ops, a, b, inner, columns, 0, row)
    modifies c
    ensures c[..cOff + columns] == Rows(ops, a, b, inner, columns, 0, row + 1)
    ensures forall k :: cOff + columns <= k < c.Length ==> c[k] == ops.zero
  {
    hide RowProduct;
    ghost var tail := c[cOff + columns..];
    MultiplyRow(ops, a, rowOff, b, c, cOff, inner, columns);
    assert c[..cOff + columns] == c[..cOff] + c[cOff..cOff + columns];
    forall k | cOff + columns <= k < c.Length ensures c[k] == ops.zero {
      assert c[cOff + columns..][k - cOff - columns] == tail[k - cOff - columns];
    }
  }

  lemma WorkerFits(w: nat, workers: nat, each: nat, m: nat)
    requires w < workers && workers * each == m
    ensures 0 <= w * each * m && 0 <= each * m
    ensures w * each * m + each * m <= m * m && (w * each) * m == w * each * m
    ensures (w + 1) * each * m == w * each * m + each * m && (w + 1) * each == w * each + each
    ensures w * each + each <= m
  {
    RowFits(w, workers, each);
    OneMore(w, each);
    Distribute(w * each, each, m);
    var d := m - (w * each + each);
    Distribute(w * each + each, d, m);
  }

  /** Every worker multiplies its block of rows by the whole of `b`; its rows go to their place in `c`. */
  method DistributedMultiply<T>(ops: Ops<T>, a: seq<T>, b: seq<T>, c: array<T>, m: nat, workers: nat)
    requires 0 < workers && m % workers == 0
    requires |a| == m * m && |b| == m * m && c.Length == m * m
    modifies c
    ensures c[..] == Rows(ops, a, b, m, m, 0, m)
  {
    hide Rows, RowProduct;
    var rowsPerWorker := m / workers;
    assert workers * rowsPerWorker == m;
    assert c[..0] == Rows(ops, a, b, m, m, 0, 0) by { NoRows(ops, a, b, m, m, 0); }
    for w := 0 to workers
      invariant 0 <= w * rowsPerWorker <= m
      invariant 0 <= w * rowsPerWorker * m <= c.Length
      invariant c[..w * rowsPerWorker * m] == Rows(ops, a, b, m, m, 0, w * rowsPerWorker)
    {
      WorkerFits(w, workers, rowsPerWorker, m);
      OneBlock(ops, a, b, c, m, w * rowsPerWorker, rowsPerWorker, w * rowsPerWorker * m);
    }
    assert c[..c.Length] == c[..];
  }

  lemma NoRows<T>(ops: Ops<T>, a: seq<T>, b: seq<T>, inner: nat, columns: nat, lo: nat)
    ensures Rows(ops, a, b, inner, columns, lo, lo) == []
  {
  }

  method OneBlock<T>(ops: Ops<T>, a: seq<T>, b: seq<T>, c: array<T>, m: nat, rs: nat, rc: nat, at: nat)
    requires |a| == m * m && |b| == m * m && c.Length == m * m
    requires rs + rc <= m && at == rs * m && at + rc * m <= m * m
    requires c[..at] == Rows(ops, a, b, m, m, 0, rs)
    modifies c
    ensures c[..at + rc * m] == Rows(ops, a, b, m, m, 0, rs + rc)
  {
    hide Rows;
    var n := rc * m;
    var block := a[at..at + n];
    var cBlock := new T[n](_ => ops.zero);
    Multiply(ops, block, b, cBlock, rc, m, m);
    BlockRows(ops, a, block, rs, b, m, m, rc, rc);
    RowsJoin(ops, a, b, m, m, 0, rs, rs + rc);
    ghost var head := c[..at];
    forall k | 0 <= k < n { c[at + k] := cBlock[k]; }
    assert c[..at + n] == head + cBlock[..];
  }

  /** Recomputes one row of the product and compares; `tooFar` is the relative-error test. */
  method VerifyRow<T>(ops: Ops<T>, tooFar: (T, T) -> bool, a: seq<T>, b: seq<T>, c: seq<T>, m: nat, row: nat)
    returns (ok: bool)
    requires |a| == m * m && |b| == m * m && |c| == m * m && row < m
    ensures 0 <= row * m && row * m + m <= m * m
    ensures ok <==> forall j :: 0 <= j < m ==> !tooFar(Dot(ops, a, row * m, b, m, j, m), c[row * m + j])
  {
    RowFits(row, m, m);
    hide Term, Terms, Dot;
    for j := 0 to m
      invariant forall i :: 0 <= i < j ==> !tooFar(Dot(ops, a, row * m, b, m, i, m), c[row * m + i])
    {
      var expected := DotProduct(ops, a, row * m, b, m, j);
      if tooFar(expected, c[row * m + j]) {
        return false;
      }
    }
    ok := true;
  }

  method DotProduct<T>(ops: Ops<T>, a: seq<T>, rowOff: nat, b: seq<T>, m: nat, j: nat) returns (expected: T)
    requires rowOff + m <= |a| && |b| == m * m && j < m
    ensures expected == Dot(ops, a, rowOff, b, m, j, m)
  {
    hide Term, Terms;
    expected := ops.zero;
    for k := 0 to m
      invariant expected == Dot(ops, a, rowOff, b, m, j, k)
    {
      TermIs(ops, a, rowOff, b, m, m, j, k);
      expected := ops.add(expected, ops.mul(a[rowOff + k], b[k * m + j]));
    }
  }

  /** What the workers computed passes the verification of any row, whatever the scalar operations. */
  method MultiplyAndVerify<T>(ops: Ops<T>, tooFar: (T, T) -> bool, a: seq<T>, b: seq<T>, m: nat, workers: nat, row: nat)
    returns (ok: bool)
    requires forall v :: !tooFar(v, v)
    requires 0 < workers && m % workers == 0 && |a| == m * m && |b| == m * m && row < m
    ensures ok
  {
    hide Rows, Dot;
    var c := new T[m * m](_ => ops.zero);
    DistributedMultiply(ops, a, b, c, m, workers);
    ok := VerifyRow(ops, tooFar, a, b, c[..], m, row);
    forall j | 0 <= j < m ensures !tooFar(Dot(ops, a, row * m, b, m, j, m), c[..][row * m + j]) {
      RowsAt(ops, a, b, m, m, m, row, j);
    }
  }
}
