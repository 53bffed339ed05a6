/** The variance statistic (lib/encoding/variance.go). */
module VarianceEncoding {
  import opened Common
  import opened Seqs
  import opened RangeProof
  import opened Encoding

  /**
   * EncodeVarianceWithProofs: the clear response is [sum, N, sum of
   * squares]; each entry is encrypted into the same slot; proofs as for the
   * mean, one request per entry.
   */
  method EncodeVarianceWithProofs(input: seq<int>, sigs: Option<seq<seq<PublishSignature>>>, lu: seq<RangeBound>)
    returns (enc: seq<CipherText>, clear: seq<int>, proofs: Option<seq<CreateProof>>)
    requires sigs.Some? ==> ProofInputsCover(sigs.value, lu, 3)
    ensures clear == [Sum(input), |input|, SumSquares(input)]
    ensures Plains(enc) == clear
    ensures proofs == if sigs.None? then None else Some(ProofRequests(clear, enc, sigs.value, lu))
  {
    var sum, sumSquares := 0, 0;
    var i := 0;
    while i < |input|
      invariant 0 <= i <= |input|
      invariant sum == Sum(input[..i]) && sumSquares == SumSquares(input[..i])
    {
      assert input[..i + 1][..i] == input[..i];
      sum := sum + input[i];
      sumSquares := sumSquares + input[i] * input[i];
      i := i + 1;
    }
    assert input[..|input|] == input;
    clear := [sum, |input|, sumSquares];
    enc := EncryptValues(clear);
    if sigs.None? {
      proofs := None;
    } else {
      var cps := BuildProofs(clear, enc, sigs.value, lu);
      proofs := Some(cps);
    }
  }

  /** EncodeVariance: the encoding without signatures or ranges. */
  method EncodeVariance(input: seq<int>) returns (enc: seq<CipherText>, clear: seq<int>)
    ensures clear == [Sum(input), |input|, SumSquares(input)] && Plains(enc) == clear
  {
    var proofs;
    enc, clear, proofs := EncodeVarianceWithProofs(input, None, []);
  }

  /**
   * DecodeVariance: entry 2 over entry 1, minus the square of entry 0 over
   * entry 1. None where a zero count makes the floating-point result
   * infinite or NaN.
   */
  function DecodeVariance(result: seq<CipherText>): (variance: Option<real>)
    requires |result| >= 3
    ensures variance.Some? <==> result[1].plain != 0
    ensures variance.Some? ==>
      variance.value * (result[1].plain as real) * (result[1].plain as real)
      == (result[2].plain as real) * (result[1].plain as real) - (result[0].plain as real) * (result[0].plain as real)
  {
    if result[1].plain == 0 then None
    else
      var n := result[1].plain as real;
      var mean := result[0].plain as real / n;
      Some(result[2].plain as real / n - mean * mean)
  }

  lemma SquareNonNegative(t: int)
    ensures t * t >= 0
  {
  }

  lemma DeviationStep(q: int, s: int, n: int, y: int, z: int)
    ensures (q + z * z) - 2 * y * (s + z) + (n + 1) * y * y == (q - 2 * y * s + n * y * y) + (z - y) * (z - y)
  {
  }

  lemma SpreadStep(q: int, s: int, n: int, z: int)
    ensures (n + 1) * (q + z * z) - (s + z) * (s + z) == (n * q - s * s) + (q - 2 * z * s + n * z * z)
  {
  }

  /**
   * The sum of squared deviations from y, written without the
   * deviations, is never negative.
   */
  lemma {:induction false} SquaredDeviations(x: seq<int>, y: int)
    ensures SumSquares(x) - 2 * y * Sum(x) + |x| * y * y >= 0
  {
    if |x| > 0 {
      var x', z := x[..|x| - 1], x[|x| - 1];
      SquaredDeviations(x', y);
      DeviationStep(SumSquares(x'), Sum(x'), |x'|, y, z);
      SquareNonNegative(z - y);
    }
  }

  /** N times the sum of squares is at least the square of the sum. */
  lemma {:induction false} SpreadNonNegative(x: seq<int>)
    ensures |x| * SumSquares(x) - Sum(x) * Sum(x) >= 0
  {
    if |x| > 0 {
      var x', z := x[..|x| - 1], x[|x| - 1];
      SpreadNonNegative(x');
      SquaredDeviations(x', z);
      SpreadStep(SumSquares(x'), Sum(x'), |x'|, z);
    }
  }

  /** A real whose product with a positive square is non-negative is non-negative. */
  lemma NonNegativeFactor(w: real, n: real, d: real)
    requires n > 0.0 && w * n * n == d && d >= 0.0
    ensures w >= 0.0
  {
    if w < 0.0 {
      NegativeTimesPositive(w, n);
      NegativeTimesPositive(w * n, n);
    }
  }

  /** A decoded triple with N > 0 and N·Q >= S² gives a non-negative variance. */
  lemma DecodedSign(r: seq<CipherText>)
    requires |r| >= 3 && r[1].plain > 0
    requires r[1].plain * r[2].plain - r[0].plain * r[0].plain >= 0
    ensures DecodeVariance(r).Some? && DecodeVariance(r).value >= 0.0
  {
    var n, q, s := r[1].plain, r[2].plain, r[0].plain;
    assert (n * q - s * s) as real == (q as real) * (n as real) - (s as real) * (s as real);
    NonNegativeFactor(DecodeVariance(r).value, n as real, (q as real) * (n as real) - (s as real) * (s as real));
  }

  lemma NegativeTimesPositive(w: real, m: real)
    requires m > 0.0 && w < 0.0
    ensures w * m < 0.0
  {
  }

  /** The decoded variance of a non-empty provider's encoding is never negative. */
  lemma VarianceNonNegative(x: seq<int>)
    requires |x| > 0
    ensures DecodeVariance(EncryptAll([Sum(x), |x|, SumSquares(x)])).Some?
    ensures DecodeVariance(EncryptAll([Sum(x), |x|, SumSquares(x)])).value >= 0.0
  {
    var clear := [Sum(x), |x|, SumSquares(x)];
    var enc := EncryptAll(clear);
    assert Plains(enc) == clear;
    assert enc[0].plain == Sum(x) && enc[1].plain == |x| && enc[2].plain == SumSquares(x);
    SpreadNonNegative(x);
    assert enc[1].plain * enc[2].plain - enc[0].plain * enc[0].plain >= 0;
    DecodedSign(enc);
  }

  /**
   * Adding two providers' encodings slot by slot yields the encoding of
   * their values together.
   */
  lemma AggregateIsEncodingOfUnion(a: seq<int>, b: seq<int>)
    ensures AddCipherVectors(EncryptAll([Sum(a), |a|, SumSquares(a)]), EncryptAll([Sum(b), |b|, SumSquares(b)]))
         == EncryptAll([Sum(a + b), |a + b|, SumSquares(a + b)])
  {
    SumAppend(a, b);
    SumSquaresAppend(a, b);
  }
}
