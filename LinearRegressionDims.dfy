/**
 * d-dimensional linear regression (lib/encoding/linear_regression_dims.go).
 * With z_i = [1] ++ x_i the augmented record, the encrypted tuple is the
 * upper triangle, row by row, of the (d+1)×(d+1) matrix G[a][b] = Σ_i
 * z_i[a]·z_i[b], followed by Σy and Σ_i y_i·x_i[j]. That is N, the d
 * column sums, the d(d+1)/2 cross sums for j ≤ k, Σy and the d sums
 * Σx_j·y: (d² + 5d + 4)/2 entries. The decoder rebuilds the augmented
 * normal-equation matrix [G | rhs] from that layout.
 */
module LinearRegressionDims {
  import opened Common
  import opened Seqs
  import opened RangeProof
  import opened Encoding

  /** Every one of the first n records has at least d features. */
  predicate Records(x: seq<seq<int>>, d: nat)
  {
    forall i :: 0 <= i < |x| ==> |x[i]| >= d
  }

  /** Entry a of the augmented record [1] ++ row. */
  function Augmented(row: seq<int>, a: nat): int
    requires a <= |row|
  {
    if a == 0 then 1 else row[a - 1]
  }

  /** G[a][b] over the first n records. */
  function Gram(x: seq<seq<int>>, d: nat, a: nat, b: nat, n: nat): int
    requires Records(x, d) && a <= d && b <= d && n <= |x|
  {
    if n == 0 then 0
    else Gram(x, d, a, b, n - 1) + Augmented(x[n - 1], a) * Augmented(x[n - 1], b)
  }

  /** Σ_i y_i·x_i[j] over the first n records. */
  function DotY(x: seq<seq<int>>, y: seq<int>, d: nat, j: nat, n: nat): int
    requires Records(x, d) && j < d && n <= |x| && n <= |y|
  {
    if n == 0 then 0 else DotY(x, y, d, j, n - 1) + y[n - 1] * x[n - 1][j]
  }

  /** Row a of the upper triangle: G[a][a], ..., G[a][d]. */
  function GramRow(x: seq<seq<int>>, d: nat, a: nat): (row: seq<int>)
    requires Records(x, d) && a <= d
    ensures |row| == d + 1 - a
    ensures forall t :: 0 <= t < |row| ==> row[t] == Gram(x, d, a, a + t, |x|)
  {
    seq(d + 1 - a, t requires 0 <= t < d + 1 - a => Gram(x, d, a, a + t, |x|))
  }

  /** Rows 0 .. m−1 of the upper triangle, concatenated. */
  function GramRows(x: seq<seq<int>>, d: nat, m: nat): (r: seq<int>)
    requires Records(x, d) && m <= d + 1
    ensures |r| == RowStart(d, m)
  {
    if m == 0 then [] else GramRows(x, d, m - 1) + GramRow(x, d, m - 1)
  }

  /** Offset of row a in the triangle of a (d+1)×(d+1) matrix. */
  function RowStart(d: nat, a: nat): nat
    requires a <= d + 1
  {
    if a == 0 then 0 else RowStart(d, a - 1) + (d + 1 - (a - 1))
  }

  /** Position of G[a][b], a ≤ b, in the row-major upper triangle. */
  function TriPos(d: nat, a: nat, b: nat): (p: nat)
    requires a <= b <= d
    ensures RowStart(d, a) <= p < RowStart(d, a + 1)
  {
    RowStart(d, a) + (b - a)
  }

  /** Σ_i y_i·x_i[j] for every feature j. */
  function DotYs(x: seq<seq<int>>, y: seq<int>, d: nat): (r: seq<int>)
    requires Records(x, d) && (d > 0 ==> |y| >= |x|)
    ensures |r| == d && forall j :: 0 <= j < d ==> r[j] == DotY(x, y, d, j, |x|)
  {
    seq(d, j requires 0 <= j < d => DotY(x, y, d, j, |x|))
  }

  /** Length of the tuple for d features: the triangle, Σy and the d sums Σx_j·y. */
  function TupleLength(d: nat): nat
  {
    RowStart(d, d + 1) + 1 + d
  }

  /** The plaintext tuple, in encryption order. */
  function Tuple(x: seq<seq<int>>, y: seq<int>, d: nat): (r: seq<int>)
    requires Records(x, d) && (d > 0 ==> |y| >= |x|)
    ensures |r| == TupleLength(d)
  {
    GramRows(x, d, d + 1) + [Sum(y)] + DotYs(x, y, d)
  }

  lemma {:induction false} RowStartMonotone(d: nat, a: nat, b: nat)
    requires a <= b <= d + 1
    ensures RowStart(d, a) <= RowStart(d, b)
    decreases b - a
  {
    if a < b {
      RowStartMonotone(d, a, b - 1);
    }
  }

  /** Every triangle position lies before the end of the triangle. */
  lemma TriPosBelowTotal(d: nat)
    ensures forall a, b :: 0 <= a <= b <= d ==> TriPos(d, a, b) < RowStart(d, d + 1)
  {
    forall a, b | 0 <= a <= b <= d
      ensures TriPos(d, a, b) < RowStart(d, d + 1)
    {
      RowStartMonotone(d, a + 1, d + 1);
    }
  }

  /** The triangle of a (d+1)×(d+1) matrix has (d+1)(d+2)/2 entries. */
  lemma {:induction false} RowStartClosedForm(d: nat, a: nat)
    requires a <= d + 1
    ensures 2 * RowStart(d, a) == a * (2 * d + 3 - a)
  {
    if a > 0 {
      RowStartClosedForm(d, a - 1);
    }
  }

  /** 1 + d + d(d+1)/2 + 1 + d = (d² + 5d + 4)/2. */
  lemma TupleLengthClosedForm(d: nat)
    ensures 2 * TupleLength(d) == d * d + 5 * d + 4
  {
    RowStartClosedForm(d, d + 1);
  }

  /** Two triangle positions are equal only for the same entry. */
  lemma TriPosUnique(d: nat, a: nat, b: nat, a2: nat, b2: nat)
    requires a <= b <= d && a2 <= b2 <= d && TriPos(d, a, b) == TriPos(d, a2, b2)
    ensures a == a2 && b == b2
  {
    if a < a2 {
      RowStartMonotone(d, a + 1, a2);
    } else if a2 < a {
      RowStartMonotone(d, a2 + 1, a);
    }
  }

  /** Rows 0 .. m−1 hold G[a][b] at TriPos(d, a, b). */
  lemma {:induction false} GramRowsLayout(x: seq<seq<int>>, d: nat, m: nat)
    requires Records(x, d) && m <= d + 1
    ensures |GramRows(x, d, m)| == RowStart(d, m)
    ensures forall a, b :: 0 <= a < m && a <= b <= d ==>
      TriPos(d, a, b) < RowStart(d, m) && GramRows(x, d, m)[TriPos(d, a, b)] == Gram(x, d, a, b, |x|)
  {
    if m > 0 {
      GramRowsLayout(x, d, m - 1);
      forall a, b | 0 <= a < m && a <= b <= d
        ensures TriPos(d, a, b) < RowStart(d, m) && GramRows(x, d, m)[TriPos(d, a, b)] == Gram(x, d, a, b, |x|)
      {
        RowStartMonotone(d, a + 1, m);
      }
    }
  }

  /**
   * The tuple has 1 + d + d(d+1)/2 + 1 + d = (d² + 5d + 4)/2 entries and
   * its layout is N, Σx_j, Σx_j·x_k (j ≤ k, row-major), Σy, Σx_j·y.
   */
  lemma TupleLayout(x: seq<seq<int>>, y: seq<int>, d: nat)
    requires Records(x, d) && (d > 0 ==> |y| >= |x|)
    ensures 2 * |Tuple(x, y, d)| == d * d + 5 * d + 4
    ensures |Tuple(x, y, d)| == RowStart(d, d + 1) + 1 + d
    ensures Tuple(x, y, d)[0] == |x|
    ensures forall a, b :: 0 <= a <= b <= d ==>
      TriPos(d, a, b) < RowStart(d, d + 1) && Tuple(x, y, d)[TriPos(d, a, b)] == Gram(x, d, a, b, |x|)
    ensures RowStart(d, d + 1) < |Tuple(x, y, d)| && Tuple(x, y, d)[RowStart(d, d + 1)] == Sum(y)
    ensures forall j :: 0 <= j < d ==> Tuple(x, y, d)[RowStart(d, d + 1) + 1 + j] == DotY(x, y, d, j, |x|)
  {
    GramRowsLayout(x, d, d + 1);
    TupleLengthClosedForm(d);
    GramCount(x, d, |x|);
    assert TriPos(d, 0, 0) == 0;
  }

  /** G[0][0] is the number of records. */
  lemma {:induction false} GramCount(x: seq<seq<int>>, d: nat, n: nat)
    requires Records(x, d) && n <= |x|
    ensures Gram(x, d, 0, 0, n) == n
  {
    if n > 0 {
      GramCount(x, d, n - 1);
    }
  }

  /** G is symmetric, so the decoded left block is symmetric. */
  lemma {:induction false} GramSymmetric(x: seq<seq<int>>, d: nat, a: nat, b: nat, n: nat)
    requires Records(x, d) && a <= d && b <= d && n <= |x|
    ensures Gram(x, d, a, b, n) == Gram(x, d, b, a, n)
  {
    if n > 0 {
      GramSymmetric(x, d, a, b, n - 1);
    }
  }

  /** Σ over the records of z[a]·z[b], accumulated record by record. */
  method AccumulateGram(x: seq<seq<int>>, d: nat, a: nat, b: nat) returns (acc: int)
    requires Records(x, d) && a <= d && b <= d
    ensures acc == Gram(x, d, a, b, |x|)
  {
    acc := 0;
    var i := 0;
    while i < |x|
      invariant 0 <= i <= |x| && acc == Gram(x, d, a, b, i)
    {
      acc := acc + Augmented(x[i], a) * Augmented(x[i], b);
      i := i + 1;
    }
  }

  /**
   * The first dimension loop: N, then for each feature j its column sum
   * (the tuple's row 0) and its stored Σx_j·y.
   */
  method ColumnSums(input1: seq<seq<int>>, input2: seq<int>, d: nat) returns (row0: seq<int>, storedVals: seq<int>)
    requires Records(input1, d) && (d > 0 ==> |input2| >= |input1|)
    ensures row0 == GramRow(input1, d, 0)
    ensures storedVals == DotYs(input1, input2, d)
  {
    var n := |input1|;
    GramCount(input1, d, n);
    row0 := [n];
    storedVals := [];
    var j := 0;
    while j < d
      invariant 0 <= j <= d
      invariant row0 == GramRow(input1, d, 0)[..j + 1]
      invariant storedVals == DotYs(input1, input2, d)[..j]
    {
      var sumXj := 0;
      var sumXjY := 0;
      var i := 0;
      while i < n
        invariant 0 <= i <= n
        invariant sumXj == Gram(input1, d, 0, j + 1, i)
        invariant sumXjY == DotY(input1, input2, d, j, i)
      {
        var x := input1[i][j];
        sumXj := sumXj + x;
        sumXjY := sumXjY + input2[i] * x;
        i := i + 1;
      }
      assert GramRow(input1, d, 0)[..j + 2] == GramRow(input1, d, 0)[..j + 1] + [sumXj];
      assert DotYs(input1, input2, d)[..j + 1] == DotYs(input1, input2, d)[..j] + [sumXjY];
      row0 := row0 + [sumXj];
      storedVals := storedVals + [sumXjY];
      j := j + 1;
    }
  }

  /** The inner cross-sum loop: appends row a of the triangle. */
  method AppendGramRow(x: seq<seq<int>>, d: nat, a: nat, values: seq<int>) returns (extended: seq<int>)
    requires Records(x, d) && a <= d
    ensures extended == values + GramRow(x, d, a)
  {
    extended := values;
    var k := a;
    while k <= d
      invariant a <= k <= d + 1
      invariant extended == values + GramRow(x, d, a)[..k - a]
    {
      var sumXjX := AccumulateGram(x, d, a, k);
      assert GramRow(x, d, a)[..k - a + 1] == GramRow(x, d, a)[..k - a] + [sumXjX];
      extended := extended + [sumXjX];
      k := k + 1;
    }
    assert GramRow(x, d, a)[..d + 1 - a] == GramRow(x, d, a);
  }

  /**
   * EncodeLinearRegressionDimsWithProofs. The number of features is the
   * length of the first record. Without signatures the clear response is
   * the placeholder [0] and there are no proofs; with them there is one
   * proof request per tuple entry.
   */
  method EncodeLinearRegressionDimsWithProofs(input1: seq<seq<int>>, input2: seq<int>, sigs: Option<seq<seq<PublishSignature>>>, lu: seq<RangeBound>)
    returns (enc: seq<CipherText>, clear: seq<int>, proofs: Option<seq<CreateProof>>)
    requires |input1| > 0 && Records(input1, |input1[0]|)
    requires |input1[0]| > 0 ==> |input2| >= |input1|
    requires sigs.Some? ==> ProofInputsCover(sigs.value, lu, TupleLength(|input1[0]|))
    ensures Plains(enc) == Tuple(input1, input2, |input1[0]|)
    ensures clear == [0]
    ensures proofs == if sigs.None? then None
                      else Some(ProofRequests(Plains(enc), enc, sigs.value, lu))
  {
    var d := |input1[0]|;
    var plaintextValues, storedVals := ColumnSums(input1, input2, d);
    assert plaintextValues == GramRows(input1, d, 1);
    var j := 0;
    while j < d
      invariant 0 <= j <= d
      invariant plaintextValues == GramRows(input1, d, j + 1)
    {
      plaintextValues := AppendGramRow(input1, d, j + 1, plaintextValues);
      j := j + 1;
    }
    var sumY := 0;
    var i := 0;
    while i < |input2|
      invariant 0 <= i <= |input2| && sumY == Sum(input2[..i])
    {
      assert input2[..i + 1][..i] == input2[..i];
      sumY := sumY + input2[i];
      i := i + 1;
    }
    assert input2[..|input2|] == input2;
    plaintextValues := plaintextValues + [sumY];
    j := 0;
    ghost var prefix := plaintextValues;
    while j < |storedVals|
      invariant 0 <= j <= |storedVals|
      invariant plaintextValues == prefix + storedVals[..j]
    {
      assert storedVals[..j + 1] == storedVals[..j] + [storedVals[j]];
      plaintextValues := plaintextValues + [storedVals[j]];
      j := j + 1;
    }
    assert storedVals[..|storedVals|] == storedVals;
    enc := EncryptValues(plaintextValues);
    assert Plains(enc) == plaintextValues;
    TupleLayout(input1, input2, d);
    clear := [0];
    if sigs.None? {
      proofs := None;
    } else {
      var cps := BuildProofs(plaintextValues, enc, sigs.value, lu);
      proofs := Some(cps);
    }
  }

  /** EncodeLinearRegressionDims: no signatures, so no proofs. */
  method EncodeLinearRegressionDims(input1: seq<seq<int>>, input2: seq<int>)
    returns (enc: seq<CipherText>, clear: seq<int>)
    requires |input1| > 0 && Records(input1, |input1[0]|)
    requires |input1[0]| > 0 ==> |input2| >= |input1|
    ensures Plains(enc) == Tuple(input1, input2, |input1[0]|)
    ensures clear == [0]
  {
    var proofs;
    enc, clear, proofs := EncodeLinearRegressionDimsWithProofs(input1, input2, None, []);
  }

  /**
   * Entry (a, b) of the augmented matrix the decoder builds from a tuple of
   * d features: the triangle entry of (min(a, b), max(a, b)) on the first
   * d+1 columns, and entry a of the right-hand side in column d+1.
   */
  function MatrixEntry(result: seq<CipherText>, d: nat, a: nat, b: nat): int
    requires |result| == TupleLength(d)
    requires a <= d && b <= d + 1
  {
    TriPosBelowTotal(d);
    if b == d + 1 then result[RowStart(d, d + 1) + a].plain
    else if a <= b then result[TriPos(d, a, b)].plain
    else result[TriPos(d, b, a)].plain
  }

  /**
   * The matrix-building part of DecodeLinearRegressionDims: the counters
   * (i, s) walk the triangle row by row, each entry is written at [i][i+s]
   * and mirrored at [i+s][i], and the last d+1 entries fill the last
   * column.
   */
  method BuildAugmentedMatrix(result: seq<CipherText>, d: nat) returns (m: array2<int>)
    requires |result| == TupleLength(d)
    ensures fresh(m) && m.Length0 == d + 1 && m.Length1 == d + 2
    ensures forall a, b :: 0 <= a <= d && 0 <= b <= d + 1 ==> m[a, b] == MatrixEntry(result, d, a, b)
  {
    m := new int[d + 1, d + 2];
    FillTriangle(m, result, d);
    FillLastColumn(m, result, d);
  }

  /** The triangle loop: entry j of the tuple goes to [i, i+s] and [i+s, i]. */
  method FillTriangle(m: array2<int>, result: seq<CipherText>, d: nat)
    requires |result| == TupleLength(d) && m.Length0 == d + 1 && m.Length1 == d + 2
    modifies m
    ensures forall a, b :: 0 <= a <= b <= d ==>
      m[a, b] == MatrixEntry(result, d, a, b) && m[b, a] == MatrixEntry(result, d, b, a)
  {
    TriPosBelowTotal(d);
    var total := |result| - d - 1;
    assert total == RowStart(d, d + 1);
    var s := 0;
    var l := d + 1;
    var k := d + 1;
    var i := 0;
    var j := 0;
    while j < total
      invariant 0 <= j <= total && 0 <= i <= d
      invariant k == d + 1 - i && l == RowStart(d, i + 1)
      invariant RowStart(d, i) <= j <= l && s == j - RowStart(d, i)
      invariant TriangleFilled(m, result, d, j)
    {
      if j == l {
        k := k - 1;
        l := l + k;
        i := i + 1;
        s := 0;
      }
      assert j == TriPos(d, i, i + s);
      WriteEntry(m, result, d, i, i + s, j);
      s := s + 1;
      j := j + 1;
    }
  }

  /** The triangle entries before tuple position j, and their mirrors, are in place. */
  predicate TriangleFilled(m: array2<int>, result: seq<CipherText>, d: nat, j: int)
    requires |result| == TupleLength(d) && m.Length0 == d + 1 && m.Length1 == d + 2
    reads m
  {
    forall a, b :: 0 <= a <= b <= d && TriPos(d, a, b) < j ==>
      m[a, b] == MatrixEntry(result, d, a, b) && m[b, a] == MatrixEntry(result, d, b, a)
  }

  /** One step of the triangle loop: tuple entry j goes to [a][b] and its mirror [b][a]. */
  method WriteEntry(m: array2<int>, result: seq<CipherText>, d: nat, a: nat, b: nat, j: nat)
    requires |result| == TupleLength(d) && m.Length0 == d + 1 && m.Length1 == d + 2
    requires a <= b <= d && j == TriPos(d, a, b) && TriangleFilled(m, result, d, j)
    modifies m
    ensures TriangleFilled(m, result, d, j + 1)
  {
    TriPosBelowTotal(d);
    forall x, y | 0 <= x <= y <= d && TriPos(d, x, y) == j
      ensures x == a && y == b
    {
      TriPosUnique(d, x, y, a, b);
    }
    m[a, b] := result[j].plain;
    if a != b {
      m[b, a] := result[j].plain;
    }
  }

  /** The last-column loop: the final d+1 tuple entries fill column d+1 and nothing else changes. */
  method FillLastColumn(m: array2<int>, result: seq<CipherText>, d: nat)
    requires |result| == TupleLength(d) && m.Length0 == d + 1 && m.Length1 == d + 2
    modifies m
    ensures forall a, b :: 0 <= a <= d && 0 <= b <= d ==> m[a, b] == old(m[a, b])
    ensures forall a, c :: 0 <= a <= d && c == d + 1 ==> m[a, c] == MatrixEntry(result, d, a, c)
  {
    TriPosBelowTotal(d);
    var total := |result| - d - 1;
    assert total == RowStart(d, d + 1);
    var j := total;
    while j < |result|
      invariant total <= j <= |result|
      invariant forall a, b :: 0 <= a <= d && 0 <= b <= d ==> m[a, b] == old(m[a, b])
      invariant forall a, c :: 0 <= a < j - total && c == d + 1 ==> m[a, c] == MatrixEntry(result, d, a, c)
    {
      m[j - total, d + 1] := result[j].plain;
      j := j + 1;
    }
  }

  /**
   * Decoding an encoded tuple gives the normal equations: the left block
   * is G (so row 0 is [N, Σx_0, ..., Σx_{d−1}] and it is symmetric), and
   * the last column is [Σy, Σx_0·y, ..., Σx_{d−1}·y].
   */
  lemma DecodedNormalEquations(x: seq<seq<int>>, y: seq<int>, d: nat)
    requires Records(x, d) && (d > 0 ==> |y| >= |x|)
    ensures |EncryptAll(Tuple(x, y, d))| == TupleLength(d)
    ensures forall a, b :: 0 <= a <= d && 0 <= b <= d ==>
      MatrixEntry(EncryptAll(Tuple(x, y, d)), d, a, b) == Gram(x, d, a, b, |x|)
    ensures MatrixEntry(EncryptAll(Tuple(x, y, d)), d, 0, d + 1) == Sum(y)
    ensures forall j :: 0 <= j < d ==> MatrixEntry(EncryptAll(Tuple(x, y, d)), d, j + 1, d + 1) == DotY(x, y, d, j, |x|)
  {
    TupleLayout(x, y, d);
    var enc := EncryptAll(Tuple(x, y, d));
    forall a, b | 0 <= a <= d && 0 <= b <= d
      ensures MatrixEntry(enc, d, a, b) == Gram(x, d, a, b, |x|)
    {
      if b < a {
        GramSymmetric(x, d, a, b, |x|);
      }
    }
  }
}
