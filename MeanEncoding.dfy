/** The mean statistic (lib/encoding/mean.go). */
module MeanEncoding {
  import opened Common
  import opened Seqs
  import opened RangeProof
  import opened Encoding

  /**
   * EncodeMeanWithProofs: the clear response is [sum, N]; each entry is
   * encrypted into the same slot; without signatures the proofs are nil,
   * otherwise entry i gets a proof request with column i of the signatures
   * and range i.
   */
  method EncodeMeanWithProofs(input: seq<int>, sigs: Option<seq<seq<PublishSignature>>>, lu: seq<RangeBound>)
    returns (enc: seq<CipherText>, clear: seq<int>, proofs: Option<seq<CreateProof>>)
    requires sigs.Some? ==> ProofInputsCover(sigs.value, lu, 2)
    ensures clear == [Sum(input), |input|]
    ensures Plains(enc) == clear
    ensures proofs == if sigs.None? then None else Some(ProofRequests(clear, enc, sigs.value, lu))
  {
    var sum := 0;
    var i := 0;
    while i < |input|
      invariant 0 <= i <= |input|
      invariant sum == Sum(input[..i])
    {
      assert input[..i + 1][..i] == input[..i];
      sum := sum + input[i];
      i := i + 1;
    }
    assert input[..|input|] == input;
    clear := [sum, |input|];
    enc := EncryptValues(clear);
    if sigs.None? {
      proofs := None;
    } else {
      var cps := BuildProofs(clear, enc, sigs.value, lu);
      proofs := Some(cps);
    }
  }

  /** EncodeMean: the encoding without signatures or ranges. */
  method EncodeMean(input: seq<int>) returns (enc: seq<CipherText>, clear: seq<int>)
    ensures clear == [Sum(input), |input|] && Plains(enc) == clear
  {
    var proofs;
    enc, clear, proofs := EncodeMeanWithProofs(input, None, []);
  }

  /**
   * DecodeMean: plaintext 0 divided by plaintext 1. A zero count, where the
   * floating-point division gives an infinity or NaN, is None.
   */
  function DecodeMean(result: seq<CipherText>): (mean: Option<real>)
    requires |result| >= 2
    ensures mean.Some? <==> result[1].plain != 0
    ensures mean.Some? ==> mean.value * (result[1].plain as real) == result[0].plain as real
  {
    if result[1].plain == 0 then None
    else Some(result[0].plain as real / result[1].plain as real)
  }

  /**
   * Adding two providers' encodings slot by slot and decoding gives the
   * mean of their values together.
   */
  lemma MeanOfAggregate(a: seq<int>, b: seq<int>)
    requires |a + b| > 0
    ensures DecodeMean(AddCipherVectors(EncryptAll([Sum(a), |a|]), EncryptAll([Sum(b), |b|])))
         == Some(Sum(a + b) as real / |a + b| as real)
  {
    SumAppend(a, b);
  }
}
