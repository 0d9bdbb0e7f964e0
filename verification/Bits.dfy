/**
 Fixed-width unsigned words, least significant bit first, with the bitwise operators of C.
 A `uint64_t` is a sequence of 64 bits and a `uint8_t` a sequence of 8.
 */
module Bits {
  import opened Division

  type u64 = x: int | 0 <= x < 0x1_0000_0000_0000_0000

  type Word = w: seq<bool> | |w| == 64 witness Zeros(64)
  type Octet = w: seq<bool> | |w| == 8 witness Zeros(8)

  function Zeros(width: nat): (w: seq<bool>)
    ensures |w| == width && forall i :: 0 <= i < width ==> !w[i]
  {
    seq(width, i => false)
  }

  /** The low `width` bits of `n`: the conversion to an unsigned type of that width. */
  function OfNat(n: nat, width: nat): (w: seq<bool>)
    ensures |w| == width
  {
    seq(width, i requires 0 <= i < width => n / Pow2(i) % 2 == 1)
  }

  /** The number a word stands for. */
  function ToNat(w: seq<bool>): nat {
    if w == [] then 0 else (if w[0] then 1 else 0) + 2 * ToNat(w[1..])
  }

  const ZERO: Word := Zeros(64)

  function Xor(a: seq<bool>, b: seq<bool>): (w: seq<bool>)
    requires |a| == |b|
    ensures |w| == |a|
  {
    seq(|a|, i requires 0 <= i < |a| => a[i] != b[i])
  }

  function Shl(a: Word, k: nat): Word {
    seq(64, i requires 0 <= i < 64 => i >= k && a[i - k])
  }

  function Shr(a: Word, k: nat): Word {
    seq(64, i requires 0 <= i < 64 => i + k < 64 && a[i + k])
  }

  /** `1 << k`. */
  function One(k: nat): Word {
    seq(64, i => i == k)
  }

  lemma XorSelf(a: Word)
    ensures Xor(a, a) == ZERO
  {
  }

  /** Xor is associative and commutative in the one shape linearity proofs need. */
  lemma XorExchange(a: Word, b: Word, c: Word, d: Word)
    ensures Xor(Xor(a, b), Xor(c, d)) == Xor(Xor(a, c), Xor(b, d))
  {
  }

  lemma ShlXor(a: Word, b: Word, k: nat)
    ensures Shl(Xor(a, b), k) == Xor(Shl(a, k), Shl(b, k))
  {
  }

  lemma ShrXor(a: Word, b: Word, k: nat)
    ensures Shr(Xor(a, b), k) == Xor(Shr(a, k), Shr(b, k))
  {
  }
}
