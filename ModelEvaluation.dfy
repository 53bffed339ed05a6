/** The R² model-evaluation statistic (lib/encoding/model_evaluation.go). */
module ModelEvaluation {
  import opened Common
  import opened Seqs
  import opened RangeProof
  import opened Encoding
  import VarianceEncoding

  /** Σ (pred[i] − y[i])² over the indices of y. */
  function SquaredErrors(y: seq<int>, pred: seq<int>): int
    requires |pred| >= |y|
  {
    if |y| == 0 then 0
    else
      var i := |y| - 1;
      SquaredErrors(y[..i], pred) + (pred[i] - y[i]) * (pred[i] - y[i])
  }

  /** The four plaintexts, in the order they are encrypted. */
  function EvaluationSums(y: seq<int>, pred: seq<int>): seq<int>
    requires |pred| >= |y|
  {
    [|y|, Sum(y), SumSquares(y), SquaredErrors(y, pred)]
  }

  /**
   * EncodeModelEvaluationWithProofs: the plaintexts are [len(y), Σy, Σy²,
   * Σ(pred − y)²], encrypted in that order. The clear response is the
   * placeholder [0] in both branches; the proofs are nil without
   * signatures, otherwise one request per plaintext.
   */
  method EncodeModelEvaluationWithProofs(y: seq<int>, pred: seq<int>, sigs: Option<seq<seq<PublishSignature>>>, ranges: seq<RangeBound>)
    returns (enc: seq<CipherText>, clear: seq<int>, proofs: Option<seq<CreateProof>>)
    requires |pred| >= |y|
    requires sigs.Some? ==> ProofInputsCover(sigs.value, ranges, 4)
    ensures Plains(enc) == EvaluationSums(y, pred)
    ensures clear == [0]
    ensures proofs == if sigs.None? then None else Some(ProofRequests(EvaluationSums(y, pred), enc, sigs.value, ranges))
  {
    var sumY, sumYSquare, sumDiffSquare := 0, 0, 0;
    var i := 0;
    while i < |y|
      invariant 0 <= i <= |y|
      invariant sumY == Sum(y[..i]) && sumYSquare == SumSquares(y[..i])
      invariant sumDiffSquare == SquaredErrors(y[..i], pred)
    {
      assert y[..i + 1][..i] == y[..i];
      var el := y[i];
      sumY := sumY + el;
      sumYSquare := sumYSquare + el * el;
      sumDiffSquare := sumDiffSquare + (pred[i] - el) * (pred[i] - el);
      i := i + 1;
    }
    assert y[..|y|] == y;
    var plaintextValues := [|y|, sumY, sumYSquare, sumDiffSquare];
    enc := [CipherText(|y|), CipherText(sumY), CipherText(sumYSquare), CipherText(sumDiffSquare)];
    clear := [0];
    if sigs.None? {
      proofs := None;
    } else {
      var cps := BuildProofs(plaintextValues, enc, sigs.value, ranges);
      proofs := Some(cps);
    }
  }

  /** The denominator B = Σy² − (Σy)²/N, with Go's integer division. */
  function TotalVariation(result: seq<CipherText>): (b: int)
    requires |result| >= 4 && result[0].plain != 0
    ensures result[0].plain > 0 && result[0].plain * result[2].plain >= result[1].plain * result[1].plain ==> b >= 0
  {
    var n, s, s2 := result[0].plain, result[1].plain, result[2].plain;
    if n > 0 && n * s2 >= s * s then
      VarianceEncoding.SquareNonNegative(s);
      QuotientBelow(s * s, n, s2);
      s2 - TruncDiv(s * s, n)
    else
      s2 - TruncDiv(s * s, n)
  }

  /**
   * DecodeModelEvaluation: 1 − Σ(pred − y)² / B. The count N must be
   * non-zero (the integer division panics otherwise); a zero B, where the
   * floating-point result is infinite or NaN, is None.
   */
  function DecodeModelEvaluation(result: seq<CipherText>): (r2: Option<real>)
    requires |result| >= 4 && result[0].plain != 0
    ensures r2.Some? <==> TotalVariation(result) != 0
    ensures r2.Some? ==> (1.0 - r2.value) * (TotalVariation(result) as real) == result[3].plain as real
  {
    var b := TotalVariation(result);
    if b == 0 then None else Some(1.0 - result[3].plain as real / b as real)
  }

  /** A prediction that matches every label has no squared error. */
  lemma {:induction false} PerfectPredictionNoError(y: seq<int>, pred: seq<int>)
    requires |pred| >= |y| && pred[..|y|] == y
    ensures SquaredErrors(y, pred) == 0
  {
    if |y| > 0 {
      var i := |y| - 1;
      assert pred[..i] == y[..i] by {
        assert pred[..i] == pred[..|y|][..i];
      }
      assert pred[i] == pred[..|y|][i];
      PerfectPredictionNoError(y[..i], pred);
    }
  }

  lemma {:induction false} SquaredErrorsNonNegative(y: seq<int>, pred: seq<int>)
    requires |pred| >= |y|
    ensures SquaredErrors(y, pred) >= 0
  {
    if |y| > 0 {
      var i := |y| - 1;
      SquaredErrorsNonNegative(y[..i], pred);
      VarianceEncoding.SquareNonNegative(pred[i] - y[i]);
    }
  }

  /** (Σy)²/N never exceeds Σy² when N·Σy² >= (Σy)² and N > 0. */
  lemma QuotientBelow(s2: int, n: int, q: int)
    requires n > 0 && s2 >= 0 && n * q >= s2
    ensures s2 / n <= q
  {
    var k := s2 / n;
    assert n * k <= s2;
    if k > q {
      MultiplyMonotone(n, q + 1, k);
      assert false;
    }
  }

  lemma MultiplyMonotone(n: int, a: int, b: int)
    requires n > 0 && a <= b
    ensures n * a <= n * b
  {
  }

  lemma RealQuotientNonNegative(d: real, b: real)
    requires d >= 0.0 && b > 0.0
    ensures d / b >= 0.0
  {
  }

  /**
   * The decoder reads the plaintexts in the order the encoder writes them:
   * for one provider with labels y, N is len(y), B is never negative, and
   * wherever the score is defined it is at most 1, reaching 1 for perfect
   * predictions.
   */
  lemma DecodedScoreAtMostOne(y: seq<int>, pred: seq<int>)
    requires |pred| >= |y| > 0
    ensures var enc := EncryptAll(EvaluationSums(y, pred));
      TotalVariation(enc) >= 0 &&
      (DecodeModelEvaluation(enc).Some? ==> DecodeModelEvaluation(enc).value <= 1.0) &&
      (DecodeModelEvaluation(enc).Some? && pred[..|y|] == y ==> DecodeModelEvaluation(enc).value == 1.0)
  {
    var enc := EncryptAll(EvaluationSums(y, pred));
    assert Plains(enc) == EvaluationSums(y, pred);
    assert enc[0].plain == |y| && enc[1].plain == Sum(y) && enc[2].plain == SumSquares(y);
    assert enc[3].plain == SquaredErrors(y, pred);
    VarianceEncoding.SpreadNonNegative(y);
    VarianceEncoding.SquareNonNegative(Sum(y));
    QuotientBelow(Sum(y) * Sum(y), |y|, SumSquares(y));
    SquaredErrorsNonNegative(y, pred);
    if DecodeModelEvaluation(enc).Some? {
      RealQuotientNonNegative(enc[3].plain as real, TotalVariation(enc) as real);
      if pred[..|y|] == y {
        PerfectPredictionNoError(y, pred);
      }
    }
  }
}
