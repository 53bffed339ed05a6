/**
 * Evaluation of a logistic-regression prediction: the four confusion
 * counts and the accuracy computed from them.
 */
module LogisticEval {
  import opened Common

  /**
   * The number of positions i below |predicted| where the prediction is p
   * and the true label is a.
   */
  function Pairs(predicted: seq<int>, actual: seq<int>, p: int, a: int): (c: nat)
    requires |actual| >= |predicted|
    ensures c <= |predicted|
  {
    if |predicted| == 0 then 0
    else
      var n := |predicted| - 1;
      Pairs(predicted[..n], actual, p, a) + (if predicted[n] == p && actual[n] == a then 1 else 0)
  }

  /** The counting loop shared by the four confusion counts. */
  method CountPairs(predicted: seq<int>, actual: seq<int>, p: int, a: int) returns (count: int)
    requires |actual| >= |predicted|
    ensures count == Pairs(predicted, actual, p, a)
  {
    count := 0;
    var i := 0;
    while i < |predicted|
      invariant 0 <= i <= |predicted|
      invariant count == Pairs(predicted[..i], actual, p, a)
    {
      assert predicted[..i + 1][..i] == predicted[..i];
      if predicted[i] == p && actual[i] == a {
        count := count + 1;
      }
      i := i + 1;
    }
    assert predicted[..i] == predicted;
  }

  method TruePositive(predicted: seq<int>, actual: seq<int>) returns (count: int)
    requires |actual| >= |predicted|
    ensures count == Pairs(predicted, actual, 1, 1)
  {
    count := CountPairs(predicted, actual, 1, 1);
  }

  method TrueNegative(predicted: seq<int>, actual: seq<int>) returns (count: int)
    requires |actual| >= |predicted|
    ensures count == Pairs(predicted, actual, 0, 0)
  {
    count := CountPairs(predicted, actual, 0, 0);
  }

  method FalsePositive(predicted: seq<int>, actual: seq<int>) returns (count: int)
    requires |actual| >= |predicted|
    ensures count == Pairs(predicted, actual, 1, 0)
  {
    count := CountPairs(predicted, actual, 1, 0);
  }

  method FalseNegative(predicted: seq<int>, actual: seq<int>) returns (count: int)
    requires |actual| >= |predicted|
    ensures count == Pairs(predicted, actual, 0, 1)
  {
    count := CountPairs(predicted, actual, 0, 1);
  }

  /** Every entry is a 0/1 label. */
  predicate Binary(s: seq<int>)
  {
    forall i :: 0 <= i < |s| ==> s[i] == 0 || s[i] == 1
  }

  /** With 0/1 labels every prediction falls in exactly one of the four cells. */
  lemma {:induction false} ConfusionTotal(predicted: seq<int>, actual: seq<int>)
    requires |actual| >= |predicted|
    requires Binary(predicted) && Binary(actual[..|predicted|])
    ensures Pairs(predicted, actual, 1, 1) + Pairs(predicted, actual, 0, 0)
      + Pairs(predicted, actual, 1, 0) + Pairs(predicted, actual, 0, 1) == |predicted|
  {
    if |predicted| > 0 {
      var n := |predicted| - 1;
      assert actual[..n] == actual[..|predicted|][..n];
      assert actual[n] == actual[..|predicted|][n];
      ConfusionTotal(predicted[..n], actual);
    }
  }

  /** Whatever the labels, the matches never outnumber the predictions. */
  lemma {:induction false} MatchesBound(predicted: seq<int>, actual: seq<int>)
    requires |actual| >= |predicted|
    ensures Pairs(predicted, actual, 1, 1) + Pairs(predicted, actual, 0, 0) <= |predicted|
  {
    if |predicted| > 0 {
      MatchesBound(predicted[..|predicted| - 1], actual);
    }
  }

  /**
   * Accuracy: (TP + TN) / |actual|. With no labels the quotient is 0/0,
   * which is not a number; the model returns None there.
   */
  method Accuracy(predicted: seq<int>, actual: seq<int>) returns (r: Option<real>)
    requires |actual| >= |predicted|
    ensures r.None? <==> |actual| == 0
    ensures r.Some? ==>
      r.value * (|actual| as real) == (Pairs(predicted, actual, 1, 1) + Pairs(predicted, actual, 0, 0)) as real
    ensures r.Some? ==> 0.0 <= r.value <= 1.0
  {
    var tp := TruePositive(predicted, actual);
    var tn := TrueNegative(predicted, actual);
    if |actual| == 0 {
      return None;
    }
    MatchesBound(predicted, actual);
    var q := (tp + tn) as real / |actual| as real;
    QuotientAtMostOne((tp + tn) as real, |actual| as real, q);
    r := Some(q);
  }

  /** A quotient of a non-negative number by a larger positive one lies in [0, 1]. */
  lemma QuotientAtMostOne(num: real, den: real, q: real)
    requires 0.0 <= num <= den && den > 0.0 && q == num / den
    ensures q * den == num && 0.0 <= q <= 1.0
  {
    assert q * den == num;
    assert (1.0 - q) * den == den - num;
  }
}
