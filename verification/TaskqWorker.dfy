/** The worker's computation of one task on its input and output buffers. */
module TaskqWorker {
  import opened Bits
  import opened Xorshift
  import opened TaskqData
  import opened TaskqSamples
  import opened TaskqMaster
  import opened Protocol

  /** Steps the generator one step at a time. */
  method IterateToken(start: Word, iterations: u64) returns (token: Word)
    ensures token == Iterate(iterations, start)
  {
    token := start;
    for iteration := 0 to iterations
      invariant token == Iterate(iteration, start)
    {
      assert Iterate(iteration + 1, start) == Step(Repeat<Word>(Step, iteration, start));
      token := Step(token);
    }
  }

  method CheckInputSamples(input: array<Octet>, id: nat, run: nat) returns (ok: bool)
    requires input.Length > 0
    ensures ok == InputSampled(input[..], id, run)
    ensures ok <==>
              && IsInput(input[0], id, run, 0)
              && IsInput(input[input.Length / 2], id, run, input.Length / 2)
              && IsInput(input[input.Length - 1], id, run, input.Length - 1)
  {
    InputSampledIff(input[..], id, run);
    hide IsInput, InputByte;
    var samples := [0, input.Length / 2, input.Length - 1];
    ok := true;
    for sample := 0 to 3
      invariant ok == forall s :: 0 <= s < sample ==> input[samples[s]] == InputByte(id, run, samples[s])
    {
      var index := samples[sample];
      if input[index] != InputByte(id, run, index) {
        ok := false;
      }
    }
    assert samples[0] == 0 && samples[1] == input.Length / 2 && samples[2] == input.Length - 1;
  }

  method FillOutput(input: array<Octet>, output: array<Octet>, token: Word, id: nat)
    requires input.Length == output.Length && input != output
    modifies output
    ensures output[..] == OutputBytes(input[..], token, id)
    ensures forall k, b :: 0 <= k < output.Length && 0 <= b < 8 ==>
              output[k][b] == OutputBit(input[k][b], token, id, k, b)
  {
    hide OutputByte, OutputBit;
    for i := 0 to input.Length
      invariant forall k :: 0 <= k < i ==> output[k] == OutputByte(input[k], token, id, k)
    {
      output[i] := OutputByte(input[i], token, id, i);
    }
    forall k, b | 0 <= k < output.Length && 0 <= b < 8 ensures output[k][b] == OutputBit(input[k][b], token, id, k, b) {
      OutputByteBits(input[k], token, id, k, b);
    }
  }

  /** The worker's check of its own output never fails on a sampled input that is genuine. */
  lemma GenuineInputPasses(input: seq<Octet>, output: seq<Octet>, token: Word, id: nat, run: nat)
    requires |input| > 0 && InputSampled(input, id, run) && output == OutputBytes(input, token, id)
    ensures OutputSampled(output, token, id, run)
  {
    hide InputByte, OutputByte;
  }

  /** Sampled input check, generator loop, output loop, sampled output check. */
  method ProcessTask(config: Config, id: nat, run: nat, input: array<Octet>, output: array<Octet>)
    returns (token: Word, verified: bool)
    requires 0 < input.Length == output.Length && input != output && config.iters <= U64_MAX
    modifies output
    ensures Work(id, token, verified, output[..]) == Compute(config, id, run, input[..])
    ensures token == Iterate(config.iters, InitialToken(id, run))
    ensures forall k, b :: 0 <= k < output.Length && 0 <= b < 8 ==>
              output[k][b] == OutputBit(input[k][b], token, id, k, b)
    ensures verified <==>
              && IsInput(input[0], id, run, 0)
              && IsInput(input[input.Length / 2], id, run, input.Length / 2)
              && IsInput(input[input.Length - 1], id, run, input.Length - 1)
  {
    hide InputSampled, IsInput, InputByte, OutputBit, OutputByte;
    verified := CheckInputSamples(input, id, run);
    token := IterateToken(InitialToken(id, run), config.iters);
    FillOutput(input, output, token, id);
    var sampled := CheckSamples(output[..], token, id, run);
    if verified {
      GenuineInputPasses(input[..], output[..], token, id, run);
    }
    verified := verified && sampled;
  }
}
