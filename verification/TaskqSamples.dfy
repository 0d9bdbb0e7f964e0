/**
 * The bytes of a task, bit by bit, and what the spot checks on them accept. `bit b of n` is the remainder of n / 2^b
 * modulo 2; none of the byte functions the two programs compute with is mentioned on this side.
 */
module TaskqSamples {
  import opened Division
  import opened Bits
  import opened Xorshift
  import opened TaskqData

  predicate Bit(n: nat, b: nat) {
    n / Pow2(b) % 2 == 1
  }

  /** Bit `b` of the input byte the master generates. */
  predicate InputBit(id: nat, run: nat, index: nat, b: nat) {
    Bit(id * 131 + run * 17 + index, b)
  }

  /** Bit `b` of the output byte for an input bit: it is flipped by the token's byte and by the lane's. */
  predicate OutputBit(input: bool, token: Word, id: nat, index: nat, b: nat)
    requires b < 8
  {
    (input != token[index % 8 * 8 + b]) != Bit(index * 29 + id, b)
  }

  predicate IsInput(o: Octet, id: nat, run: nat, index: nat) {
    forall b :: 0 <= b < 8 ==> o[b] == InputBit(id, run, index, b)
  }

  /** The byte a worker makes of the genuine input byte with the given token. */
  predicate IsOutput(o: Octet, token: Word, id: nat, run: nat, index: nat) {
    forall b :: 0 <= b < 8 ==> o[b] == OutputBit(InputBit(id, run, index, b), token, id, index, b)
  }

  lemma InputByteIs(o: Octet, id: nat, run: nat, index: nat)
    ensures o == InputByte(id, run, index) <==> IsInput(o, id, run, index)
  {
    hide Pow2;
    var i := InputByte(id, run, index);
    if IsInput(o, id, run, index) {
      forall b | 0 <= b < 8 ensures o[b] == i[b] {
      }
    }
  }

  lemma OutputByteBits(input: Octet, token: Word, id: nat, index: nat, b: nat)
    requires b < 8
    ensures OutputByte(input, token, id, index)[b] == OutputBit(input[b], token, id, index, b)
  {
    hide Pow2;
    assert index % 8 * 8 + b < 64;
    assert Shr(token, index % 8 * 8)[..8][b] == token[index % 8 * 8 + b];
  }

  lemma OutputByteIs(o: Octet, token: Word, id: nat, run: nat, index: nat)
    ensures o == OutputByte(InputByte(id, run, index), token, id, index) <==> IsOutput(o, token, id, run, index)
  {
    var i := InputByte(id, run, index);
    InputByteIs(i, id, run, index);
    forall b: nat | b < 8
      ensures OutputByte(i, token, id, index)[b] == OutputBit(InputBit(id, run, index, b), token, id, index, b)
    {
      OutputByteBits(i, token, id, index, b);
    }
    hide OutputByte, InputByte, InputBit, OutputBit;
    var right := OutputByte(i, token, id, index);
    if IsOutput(o, token, id, run, index) {
      forall b | 0 <= b < 8 ensures o[b] == right[b] {
      }
    }
  }

  /** The worker's check of its input accepts exactly data that is genuine at the three places it looks at. */
  lemma InputSampledIff(data: seq<Octet>, id: nat, run: nat)
    requires |data| > 0
    ensures InputSampled(data, id, run) <==>
              && IsInput(data[0], id, run, 0)
              && IsInput(data[|data| / 2], id, run, |data| / 2)
              && IsInput(data[|data| - 1], id, run, |data| - 1)
  {
    hide InputByte, IsInput;
    InputByteIs(data[0], id, run, 0);
    InputByteIs(data[|data| / 2], id, run, |data| / 2);
    InputByteIs(data[|data| - 1], id, run, |data| - 1);
  }

  /** The check of an output accepts exactly data that is right at the three places. */
  lemma OutputSampledIff(data: seq<Octet>, token: Word, id: nat, run: nat)
    requires |data| > 0
    ensures OutputSampled(data, token, id, run) <==>
              && IsOutput(data[0], token, id, run, 0)
              && IsOutput(data[|data| / 2], token, id, run, |data| / 2)
              && IsOutput(data[|data| - 1], token, id, run, |data| - 1)
  {
    hide OutputByte, InputByte, IsOutput;
    OutputByteIs(data[0], token, id, run, 0);
    OutputByteIs(data[|data| / 2], token, id, run, |data| / 2);
    OutputByteIs(data[|data| - 1], token, id, run, |data| - 1);
  }

  /** The raw token bit by bit. */
  lemma RawTokenBits(id: nat, run: nat, i: nat)
    requires i < 64
    ensures RawToken(id, run)[i] ==
            ((Bit(0x9e3779b97f4a7c15, i) != Bit(id * 0xbf58476d1ce4e5b9, i)) != (i >= 32 && Bit(run, i - 32)))
  {
    hide Pow2;
  }

  /** One generator step bit by bit: what the three shifts make of the word, all at once. */
  lemma StepBits(w: Word, i: nat)
    requires i < 64
    ensures Step(w)[i] ==
            (AfterRight(w, i) != (i >= 17 && AfterRight(w, i - 17)))
  {
  }

  /** Bit `i` after the first two shifts. */
  predicate AfterRight(w: Word, i: nat)
    requires i < 64
  {
    if i < 6 then w[i] != w[i + 7]
    else if i < 13 then (w[i] != w[i + 7]) != w[i - 6]
    else if i < 57 then ((w[i] != w[i - 13]) != w[i + 7]) != w[i - 6]
    else w[i] != w[i - 13]
  }

  /** Stepping is this and nothing else, so iterating is too. */
  lemma StepOfOne()
    ensures forall i :: 0 <= i < 64 ==> (Step(One(0))[i] <==> i in {0, 6, 13, 17, 23, 30})
  {
    forall i | 0 <= i < 64 ensures Step(One(0))[i] <==> i in {0, 6, 13, 17, 23, 30} {
      StepBits(One(0), i);
    }
  }

  /** Iterating is stepping once after iterating once less often. */
  lemma OneStepMore(n: nat, w: Word)
    ensures Iterate(0, w) == w && Iterate(n + 1, w) == Step(Iterate(n, w))
  {
    hide Step;
  }
}
