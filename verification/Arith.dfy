/** The scalar operations of the numeric kernels, about which nothing is assumed: no floating-point law is used. */
module Arith {

  datatype Ops<!T> = Ops(
    zero: T,
    add: (T, T) -> T,
    mul: (T, T) -> T,
    div: (T, T) -> T,
    sqrt: T -> T,
    positive: T -> bool)

  /** Terms `f(lo), ..., f(hi - 1)` added from the left, starting from zero. */
  function Sum<T>(ops: Ops<T>, f: int -> T, lo: int, hi: int): T
    requires lo <= hi
    decreases hi - lo
  {
    if lo == hi then ops.zero else ops.add(Sum(ops, f, lo, hi - 1), f(hi - 1))
  }

  /** Sums whose terms agree, in the same order, are the same, wherever they are counted from. */
  lemma {:induction false} SumShifted<T>(ops: Ops<T>, f: int -> T, g: int -> T, lo: int, hi: int, shift: int)
    requires lo <= hi
    requires forall j :: lo <= j < hi ==> f(j) == g(j + shift)
    ensures Sum(ops, f, lo, hi) == Sum(ops, g, lo + shift, hi + shift)
    decreases hi - lo
  {
    if lo < hi {
      SumShifted(ops, f, g, lo, hi - 1, shift);
    }
  }
}
