/**
 * Which two tasks of a run share a token. The multiplier of the task id is odd, so it has an inverse modulo 2^64, and
 * for every run there is exactly one id whose raw token is zero and one whose raw token is the word that replaces it.
 */
module TokenCollision {
  import opened Division
  import opened Bits
  import opened Xorshift
  import opened TaskqData
  import opened TaskqSystem
  import opened Protocol

  const WORD: nat := 0x1_0000_0000_0000_0000
  const MIX: nat := 0x9e3779b97f4a7c15
  const INVERSE: nat := 0x96de1b173f119089

  // ------------------------------------------------------------------- words and numbers

  /** Above its lowest bit a number has the bits of its half. */
  lemma HigherBit(n: nat, i: nat)
    requires i > 0
    ensures n / Pow2(i) % 2 == (n / 2) / Pow2(i - 1) % 2
  {
    HalfDiv(n, Pow2(i - 1));
  }

  lemma LowestBit(n: nat)
    ensures n / Pow2(0) % 2 == n % 2
  {
    assert Pow2(0) == 1;
  }

  lemma {:induction false} WordIsItsNumber(w: seq<bool>)
    ensures OfNat(ToNat(w), |w|) == w
  {
    if w != [] {
      var n := ToNat(w[1..]);
      WordIsItsNumber(w[1..]);
      forall i | 0 <= i < |w| ensures OfNat(ToNat(w), |w|)[i] == w[i] {
        if i > 0 {
          assert OfNat(n, |w| - 1)[i - 1] == w[1..][i - 1];
          HigherBit(ToNat(w), i);
        } else {
          assert Pow2(0) == 1;
        }
      }
    }
  }

  /** The converse of `BitsDecide`. */
  lemma {:induction false} RemainderDecides(a: nat, b: nat, k: nat)
    requires a % Pow2(k) == b % Pow2(k)
    ensures SameBits(a, b, k)
    decreases k
  {
    if k > 0 {
      HalfMod(a, Pow2(k - 1));
      HalfMod(b, Pow2(k - 1));
      RemainderDecides(a / 2, b / 2, k - 1);
      forall i: nat | i < k ensures a / Pow2(i) % 2 == b / Pow2(i) % 2 {
        if i > 0 {
          HalfDiv(a, Pow2(i - 1));
          HalfDiv(b, Pow2(i - 1));
          assert (a / 2) / Pow2(i - 1) % 2 == (b / 2) / Pow2(i - 1) % 2;
        } else {
          assert Pow2(0) == 1;
        }
      }
    }
  }

  lemma SameRemainderSameWord(a: nat, b: nat)
    requires a % WORD == b % WORD
    ensures OfNat(a, 64) == OfNat(b, 64)
  {
    IdsFitWords();
    RemainderDecides(a, b, 64);
    hide Pow2;
    forall i: nat | i < 64 ensures OfNat(a, 64)[i] == OfNat(b, 64)[i] {
      assert a / Pow2(i) % 2 == b / Pow2(i) % 2;
    }
  }

  // -------------------------------------------------------------------- the two ids of a run

  /** Multiplying by the inverse is undone by the multiplier. */
  lemma Undo(t: nat)
    ensures (((INVERSE * t) % WORD) * MULTIPLIER) % WORD == t % WORD
  {
    MulMod(MULTIPLIER, INVERSE * t, WORD);
    var q := (MULTIPLIER * INVERSE) / WORD;
    assert MULTIPLIER * INVERSE == q * WORD + 1;
    assert MULTIPLIER * (INVERSE * t) == (MULTIPLIER * INVERSE) * t == (q * t) * WORD + t;
    var q', r := DivMod(t, WORD);
    ModUnique((q * t) * WORD + t, WORD, q * t + q', r);
  }

  /** The id whose raw token in the run is `token`. */
  function IdOf(token: Word, run: nat): (id: u64) {
    (INVERSE * ToNat(Xor(Xor(OfNat(MIX, 64), token), Shl(OfNat(run, 64), 32)))) % WORD
  }

  lemma XorSwaps(a: Word, b: Word, c: Word)
    ensures Xor(Xor(a, Xor(Xor(a, b), c)), c) == b
  {
  }

  /** For every word and run there is exactly one 64-bit id with that raw token. */
  lemma OneIdForToken(id: u64, token: Word, run: nat)
    ensures RawToken(id, run) == token <==> id == IdOf(token, run)
  {
    hide Xor, OfNat, Shl, ToNat;
    var w: Word := Xor(Xor(OfNat(MIX, 64), token), Shl(OfNat(run, 64), 32));
    Undo(ToNat(w));
    SameRemainderSameWord(IdOf(token, run) * MULTIPLIER, ToNat(w));
    WordIsItsNumber(w);
    XorSwaps(OfNat(MIX, 64), token, Shl(OfNat(run, 64), 32));
    assert RawToken(IdOf(token, run), run) == token;
    if RawToken(id, run) == token {
      RawTokensDiffer(id, IdOf(token, run), run);
    }
  }

  function ZeroId(run: nat): u64 {
    IdOf(ZERO, run)
  }

  function ReplacedId(run: nat): u64 {
    IdOf(REPLACEMENT, run)
  }

  /** Every run has exactly one pair of 64-bit ids that collide. */
  lemma OnePairCollides(id: u64, id': u64, run: nat)
    ensures ZeroId(run) != ReplacedId(run)
    ensures Collide(id, id', run) <==>
              (id == ZeroId(run) && id' == ReplacedId(run)) || (id == ReplacedId(run) && id' == ZeroId(run))
  {
    ReplacementNotZero();
    OneIdForToken(id, ZERO, run);
    OneIdForToken(id', ZERO, run);
    OneIdForToken(id, REPLACEMENT, run);
    OneIdForToken(id', REPLACEMENT, run);
    OneIdForToken(ZeroId(run), ZERO, run);
    OneIdForToken(ReplacedId(run), REPLACEMENT, run);
    hide RawToken, IdOf, ZERO, REPLACEMENT;
  }

  /** No two of the first `count` tasks of the run have the same token after `n` iterations. */
  ghost predicate TokensDiffer(run: nat, count: nat, n: nat) {
    forall id: nat, id': nat :: id < id' < count ==>
      Iterate(n, InitialToken(id, run)) != Iterate(n, InitialToken(id', run))
  }

  /** The tokens of a run are different exactly when one of the two ids is beyond its last task. */
  lemma TokensDifferIff(run: nat, count: nat, n: nat)
    requires count <= U64_MAX
    ensures TokensDiffer(run, count, n) <==> count <= ZeroId(run) || count <= ReplacedId(run)
  {
    hide ZeroId, ReplacedId, InitialToken, Iterate, Collide;
    var a, b := ZeroId(run), ReplacedId(run);
    OnePairCollides(a, b, run);
    var low, high := if a < b then a else b, if a < b then b else a;
    if high < count {
      OnePairCollides(low, high, run);
      TokensStayApart(low, high, run, n);
      assert low < high < count && Iterate(n, InitialToken(low, run)) == Iterate(n, InitialToken(high, run));
    } else {
      forall id: nat, id': nat | id < id' < count
        ensures Iterate(n, InitialToken(id, run)) != Iterate(n, InitialToken(id', run))
      {
        OnePairCollides(id, id', run);
        TokensStayApart(id, id', run, n);
      }
    }
  }

  // ------------------------------------------------------------------------------ an input

  function Differ(a: nat, b: nat): nat {
    if a % 2 == b % 2 then 0 else 1
  }

  /** Exclusive-or of numbers. */
  function XorNat(a: nat, b: nat): nat {
    if a == 0 && b == 0 then 0 else Differ(a, b) + 2 * XorNat(a / 2, b / 2)
  }

  lemma XorNatStep(a: nat, b: nat)
    ensures XorNat(a, b) == Differ(a, b) + 2 * XorNat(a / 2, b / 2)
    ensures XorNat(a, b) / 2 == XorNat(a / 2, b / 2) && XorNat(a, b) % 2 == Differ(a, b)
  {
  }

  lemma {:induction false} BitOfXor(a: nat, b: nat, i: nat)
    ensures (XorNat(a, b) / Pow2(i) % 2 == 1) <==> (a / Pow2(i) % 2 == 1) != (b / Pow2(i) % 2 == 1)
    decreases i
  {
    if i > 0 {
      HigherBit(a, i);
      HigherBit(b, i);
      HigherBit(XorNat(a, b), i);
      XorNatStep(a, b);
      hide XorNat, Pow2;
      BitOfXor(a / 2, b / 2, i - 1);
    } else {
      LowestBit(a);
      LowestBit(b);
      LowestBit(XorNat(a, b));
      XorNatStep(a, b);
      hide XorNat, Pow2;
    }
  }

  lemma XorOfNats(a: nat, b: nat)
    ensures Xor(OfNat(a, 64), OfNat(b, 64)) == OfNat(XorNat(a, b), 64)
  {
    hide Pow2, XorNat;
    forall i | 0 <= i < 64 ensures Xor(OfNat(a, 64), OfNat(b, 64))[i] == OfNat(XorNat(a, b), 64)[i] {
      BitOfXor(a, b, i);
    }
  }

  lemma DoubledProduct(n: nat, s: nat)
    requires s > 0
    ensures n * Pow2(s) / 2 == n * Pow2(s - 1) && n * Pow2(s) % 2 == 0
  {
    assert n * Pow2(s) == 2 * (n * Pow2(s - 1));
  }

  lemma {:induction false} ShiftedBit(n: nat, s: nat, i: nat)
    ensures n * Pow2(s) / Pow2(i) % 2 == if i < s then 0 else n / Pow2(i - s) % 2
    decreases s
  {
    if s == 0 {
      assert n * Pow2(0) == n;
    } else {
      DoubledProduct(n, s);
      hide Pow2;
      if i > 0 {
        HigherBit(n * Pow2(s), i);
        ShiftedBit(n, s - 1, i - 1);
      } else {
        LowestBit(n * Pow2(s));
      }
    }
  }

  lemma ShlOfNat(n: nat)
    ensures Shl(OfNat(n, 64), 32) == OfNat(n * Pow2(32), 64)
  {
    hide Pow2;
    forall i | 0 <= i < 64 ensures Shl(OfNat(n, 64), 32)[i] == OfNat(n * Pow2(32), 64)[i] {
      ShiftedBit(n, 32, i);
    }
  }

  /** The raw token as a number: the product enters modulo 2^64. */
  lemma RawTokenOf(id: nat, run: nat, product: nat)
    requires (id * MULTIPLIER) % WORD == product % WORD
    ensures RawToken(id, run) == OfNat(XorNat(XorNat(MIX, run * Pow2(32)), product), 64)
  {
    hide Xor, OfNat, Shl, Pow2, XorNat;
    SameRemainderSameWord(id * MULTIPLIER, product);
    ShlOfNat(run);
    XorReorders(OfNat(MIX, 64), OfNat(product, 64), OfNat(run * Pow2(32), 64));
    XorOfNats(MIX, run * Pow2(32));
    XorOfNats(XorNat(MIX, run * Pow2(32)), product);
  }

  lemma XorReorders(a: Word, b: Word, c: Word)
    ensures Xor(Xor(a, b), c) == Xor(Xor(a, c), b)
  {
  }

  lemma {:induction false} XorNatSelf(a: nat)
    ensures XorNat(a, a) == 0
  {
    if a > 0 {
      XorNatSelf(a / 2);
    }
  }

  lemma {:induction false} XorNatZero(a: nat)
    ensures XorNat(a, 0) == a
  {
    if a > 0 {
      XorNatZero(a / 2);
    }
  }

  lemma HalfOf(a: nat, p: nat, x: nat)
    ensures (a * (2 * p) + x) / 2 == a * p + x / 2 && (a * (2 * p) + x) % 2 == x % 2
  {
    assert a * (2 * p) == 2 * (a * p);
  }

  lemma PowStep(k: nat)
    ensures Pow2(0) == 1 && Pow2(k + 1) == 2 * Pow2(k)
  {
  }

  /** Exclusive-or goes by blocks of bits. */
  lemma {:induction false} XorBlocks(a: nat, b: nat, x: nat, y: nat, k: nat)
    requires x < Pow2(k) && y < Pow2(k)
    ensures XorNat(a * Pow2(k) + x, b * Pow2(k) + y) == XorNat(a, b) * Pow2(k) + XorNat(x, y)
    decreases k
  {
    hide XorNat, Pow2, Differ;
    if k == 0 {
      PowStep(0);
      assert a * Pow2(0) + x == a && b * Pow2(0) + y == b;
      XorNatSelf(0);
    } else {
      var p := Pow2(k - 1);
      PowStep(k - 1);
      XorBlocks(a, b, x / 2, y / 2, k - 1);
      OneBlockMore(a, b, x, y, p);
    }
  }

  lemma OneBlockMore(a: nat, b: nat, x: nat, y: nat, p: nat)
    requires XorNat(a * p + x / 2, b * p + y / 2) == XorNat(a, b) * p + XorNat(x / 2, y / 2)
    ensures XorNat(a * (2 * p) + x, b * (2 * p) + y) == XorNat(a, b) * (2 * p) + XorNat(x, y)
  {
    hide XorNat;
    HalfOf(a, p, x);
    HalfOf(b, p, y);
    XorNatStep(a * (2 * p) + x, b * (2 * p) + y);
    XorNatStep(x, y);
    assert XorNat(a, b) * (2 * p) == 2 * (XorNat(a, b) * p);
  }

  lemma Digit(x: nat, y: nat)
    requires x < 16 && y < 16
    ensures XorNat(x, y) == Differ(x, y) + 2 * Differ(x / 2, y / 2) + 4 * Differ(x / 4, y / 4)
            + 8 * Differ(x / 8, y / 8)
  {
    hide XorNat, Differ;
    assert x / 2 / 2 == x / 4 && x / 4 / 2 == x / 8 && x / 8 / 2 == 0;
    assert y / 2 / 2 == y / 4 && y / 4 / 2 == y / 8 && y / 8 / 2 == 0;
    XorNatStep(x, y);
    XorNatStep(x / 2, y / 2);
    XorNatStep(x / 4, y / 4);
    XorNatStep(x / 8, y / 8);
    XorNatSelf(0);
  }

  /** One hexadecimal digit more. */
  lemma HexDigit(a: nat, b: nat, x: nat, y: nat)
    requires x < 16 && y < 16
    ensures XorNat(16 * a + x, 16 * b + y)
            == 16 * XorNat(a, b) + Differ(x, y) + 2 * Differ(x / 2, y / 2) + 4 * Differ(x / 4, y / 4)
            + 8 * Differ(x / 8, y / 8)
  {
    assert Pow2(4) == 16;
    hide XorNat, Pow2, Differ;
    XorBlocks(a, b, x, y, 4);
    Digit(x, y);
  }

  /** Four of them. */
  lemma FourDigits(a: nat, b: nat, x: nat, y: nat)
    requires x < 0x1_0000 && y < 0x1_0000
    ensures XorNat(0x1_0000 * a + x, 0x1_0000 * b + y) == 0x1_0000 * XorNat(a, b) + XorNat(x, y)
  {
    assert Pow2(16) == 0x1_0000 by { assert Pow2(8) == 0x100; }
    hide XorNat, Pow2;
    XorBlocks(a, b, x, y, 16);
  }

  lemma MixDigits()
    ensures XorNat(0x79b9, 0x3) == 0x79ba
  {
    hide XorNat;
    XorNatSelf(0);
    HexDigit(0x0, 0x0, 0x7, 0x0);
    HexDigit(0x7, 0x0, 0x9, 0x0);
    HexDigit(0x79, 0x0, 0xb, 0x0);
    HexDigit(0x79b, 0x0, 0x9, 0x3);
  }

  lemma Digits3()
    ensures XorNat(0x9e37, 0x4f82) == 0xd1b5
  {
    hide XorNat;
    XorNatSelf(0);
    HexDigit(0x0, 0x0, 0x9, 0x4);
    HexDigit(0x9, 0x4, 0xe, 0xf);
    HexDigit(0x9e, 0x4f, 0x3, 0x8);
    HexDigit(0x9e3, 0x4f8, 0x7, 0x2);
  }

  lemma Digits2()
    ensures XorNat(0x79ba, 0x3388) == 0x4a32
  {
    hide XorNat;
    XorNatSelf(0);
    HexDigit(0x0, 0x0, 0x7, 0x3);
    HexDigit(0x7, 0x3, 0x9, 0x3);
    HexDigit(0x79, 0x33, 0xb, 0x8);
    HexDigit(0x79b, 0x338, 0xa, 0x8);
  }

  lemma Digits1()
    ensures XorNat(0x7f4a, 0xaed8) == 0xd192
  {
    hide XorNat;
    XorNatSelf(0);
    HexDigit(0x0, 0x0, 0x7, 0xa);
    HexDigit(0x7, 0xa, 0xf, 0xe);
    HexDigit(0x7f, 0xae, 0x4, 0xd);
    HexDigit(0x7f4, 0xaed, 0xa, 0x8);
  }

  lemma Digits0()
    ensures XorNat(0x7c15, 0x9116) == 0xed03
  {
    hide XorNat;
    XorNatSelf(0);
    HexDigit(0x0, 0x0, 0x7, 0x9);
    HexDigit(0x7, 0x9, 0xc, 0x1);
    HexDigit(0x7c, 0x91, 0x1, 0x1);
    HexDigit(0x7c1, 0x911, 0x5, 0x6);
  }

  lemma MixOfRunThree()
    ensures XorNat(MIX, 0x3_0000_0000) == 0x9e3779ba_7f4a7c15
  {
    hide XorNat;
    MixDigits();
    XorNatZero(0x9e37);
    XorNatZero(0x7f4a);
    XorNatZero(0x7c15);
    FourDigits(0x9e37, 0, 0x79b9, 0x3);
    FourDigits(0x9e3779b9, 0x3, 0x7f4a, 0);
    FourDigits(0x9e3779b97f4a, 0x3_0000, 0x7c15, 0);
  }

  lemma ProductOfRunThree()
    ensures XorNat(0x9e3779ba_7f4a7c15, 0x4f823388_aed89116) == 0xd1b54a32_d192ed03
  {
    hide XorNat;
    Digits3();
    Digits2();
    Digits1();
    Digits0();
    FourDigits(0x9e37, 0x4f82, 0x79ba, 0x3388);
    FourDigits(0x9e3779ba, 0x4f823388, 0x7f4a, 0xaed8);
    FourDigits(0x9e3779ba7f4a, 0x4f823388aed8, 0x7c15, 0x9116);
  }

  /** The pair of run 3, which a workload of 1917330092086265031 tasks hands out. */
  lemma PairOfRunThree()
    ensures ZeroId(3) == 998727945672275773
    ensures ReplacedId(3) == 1917330092086265030
  {
    hide OfNat, XorNat, RawToken, IdOf, Pow2;
    ShiftOfRun();
    MixOfRunThree();
    XorNatSelf(0x9e3779ba_7f4a7c15);
    ProductOfRunThree();
    RawTokenOf(998727945672275773, 3, 0x9e3779ba_7f4a7c15);
    RawTokenOf(1917330092086265030, 3, 0x4f823388_aed89116);
    ZeroOfNat();
    OneIdForToken(998727945672275773, ZERO, 3);
    OneIdForToken(1917330092086265030, REPLACEMENT, 3);
  }

  lemma ShiftOfRun()
    ensures Pow2(32) == 0x1_0000_0000
  {
    assert Pow2(8) == 0x100;
    assert Pow2(16) == 0x1_0000;
    assert Pow2(24) == 0x100_0000;
  }

  lemma ZeroOfNat()
    ensures OfNat(0, 64) == ZERO
  {
    hide Pow2;
  }

  /**
   * A workload the option parser admits, and whose counters last, in which two tasks of one run have the same token,
   * however often it is iterated.
   */
  lemma TokensCollide(jump: seq<Word>, n: nat)
    requires IsJump(jump, 1)
    ensures var p := Params(1, Config(3, 1917330092086265031, 1, 1), jump);
            p.Valid() && p.Fits() && !TokensDiffer(3, p.config.count, n)
  {
    PairOfRunThree();
    hide ZeroId, ReplacedId, TokensDiffer;
    TokensDifferIff(3, 1917330092086265031, n);
  }
}
