/** The sum statistic (lib/encoding/sum.go). */
module SumEncoding {
  import opened Common
  import opened Seqs

  /**
   * EncodeSumWithProofs: sums the provider's values and encrypts the sum.
   * With no signatures there is no proof; otherwise exactly one proof
   * request, for the sum under range (u, l).
   */
  method EncodeSumWithProofs(input: seq<int>, sigs: Option<seq<PublishSignature>>, l: int, u: int)
    returns (enc: CipherText, clear: seq<int>, proofs: Option<seq<CreateProof>>)
    ensures enc.plain == Sum(input)
    ensures clear == [Sum(input)]
    ensures sigs.None? ==> proofs.None?
    ensures sigs.Some? ==> proofs == Some([CreateProof(sigs.value, u, l, Sum(input), enc)])
  {
    var sum := 0;
    var i := 0;
    while i < |input|
      invariant 0 <= i <= |input|
      invariant sum == Sum(input[..i])
    {
      assert input[..i + 1][..i] == input[..i];
      sum := sum + input[i];
      i := i + 1;
    }
    assert input[..|input|] == input;
    enc := CipherText(sum);
    clear := [sum];
    if sigs.None? {
      proofs := None;
    } else {
      proofs := Some([CreateProof(sigs.value, u, l, sum, enc)]);
    }
  }

  /** EncodeSum: the encoding without signatures and with u = l = 0. */
  method EncodeSum(input: seq<int>) returns (enc: CipherText, clear: seq<int>)
    ensures enc.plain == Sum(input) && clear == [Sum(input)]
  {
    var proofs;
    enc, clear, proofs := EncodeSumWithProofs(input, None, 0, 0);
  }

  /** DecodeSum: the decryption of the aggregated ciphertext. */
  function DecodeSum(result: CipherText): (s: int)
    ensures CipherText(s) == result
  {
    result.plain
  }

  /** The servers' homomorphic aggregation of one ciphertext per provider. */
  function Aggregate(cs: seq<CipherText>): CipherText
  {
    if |cs| == 0 then CipherText(0) else AddCipher(Aggregate(cs[..|cs| - 1]), cs[|cs| - 1])
  }

  /** All providers' values, provider after provider. */
  function Flatten(inputs: seq<seq<int>>): seq<int>
  {
    if |inputs| == 0 then [] else Flatten(inputs[..|inputs| - 1]) + inputs[|inputs| - 1]
  }

  /**
   * Decoding the aggregate of every provider's encrypted sum gives the sum
   * of all providers' values together.
   */
  lemma {:induction false} DecodeAggregatedSums(inputs: seq<seq<int>>)
    ensures DecodeSum(Aggregate(seq(|inputs|, i requires 0 <= i < |inputs| => CipherText(Sum(inputs[i]))))) == Sum(Flatten(inputs))
  {
    var cs := seq(|inputs|, i requires 0 <= i < |inputs| => CipherText(Sum(inputs[i])));
    if |inputs| > 0 {
      var front := inputs[..|inputs| - 1];
      var cs' := seq(|front|, i requires 0 <= i < |front| => CipherText(Sum(front[i])));
      assert cs[..|cs| - 1] == cs';
      DecodeAggregatedSums(front);
      SumAppend(Flatten(front), inputs[|inputs| - 1]);
    }
  }
}
