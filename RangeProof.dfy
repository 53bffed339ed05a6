/**
 * The plaintext side of range proofs (lib/range_proof.go): the base-u digit
 * decomposition of a secret, the column reads over the signature matrix,
 * the shape of a proof and the no-proof shortcut. The pairing algebra is
 * not modelled: every proof scalar and point is the opaque value `Opaque`,
 * and the outcome of the pairing equations is a parameter of verification.
 */
module RangeProof {
  import opened Common
  import opened Seqs

  const Opaque: Point := 0

  /** Little-endian base-b digits of n, none for n <= 0. */
  function Digits(n: int, b: int): seq<int>
    requires n <= 0 || b >= 2
    decreases if n > 0 then n else 0
  {
    if n <= 0 then [] else [n % b] + Digits(n / b, b)
  }

  /** Value of a little-endian digit string. */
  function Weighted(ds: seq<int>, b: int): int
  {
    if |ds| == 0 then 0 else ds[0] + b * Weighted(ds[1..], b)
  }

  function Zeros(k: int): (z: seq<int>)
    ensures |z| == if k > 0 then k else 0
    ensures forall i :: 0 <= i < |z| ==> z[i] == 0
  {
    if k <= 0 then [] else Zeros(k - 1) + [0]
  }

  function Max(a: int, b: int): int { if a >= b then a else b }

  /** What ToBase returns: the digits of n padded with zeros up to length l. */
  function ToBaseSpec(n: int, b: int, l: int): seq<int>
    requires n <= 0 || b >= 2
  {
    Digits(n, b) + Zeros(l - |Digits(n, b)|)
  }

  lemma {:induction false} DigitsInRange(n: int, b: int)
    requires n <= 0 || b >= 2
    ensures forall i :: 0 <= i < |Digits(n, b)| ==> 0 <= Digits(n, b)[i] < b
    decreases if n > 0 then n else 0
  {
    if n > 0 {
      DigitsInRange(n / b, b);
    }
  }

  lemma {:induction false} DigitsValue(n: int, b: int)
    requires n <= 0 || b >= 2
    ensures Weighted(Digits(n, b), b) == if n > 0 then n else 0
    decreases if n > 0 then n else 0
  {
    if n > 0 {
      DigitsValue(n / b, b);
      assert ([n % b] + Digits(n / b, b))[1..] == Digits(n / b, b);
    }
  }

  lemma {:induction false} WeightedZeroPadding(ds: seq<int>, b: int, k: int)
    ensures Weighted(ds + Zeros(k), b) == Weighted(ds, b)
  {
    if |ds| == 0 {
      ZerosWeightNothing(k, b);
      assert ds + Zeros(k) == Zeros(k);
    } else {
      assert (ds + Zeros(k))[1..] == ds[1..] + Zeros(k);
      WeightedZeroPadding(ds[1..], b, k);
    }
  }

  lemma {:induction false} ZerosWeightNothing(k: int, b: int)
    ensures Weighted(Zeros(k), b) == 0
    decreases if k > 0 then k else 0
  {
    if k > 0 {
      var z := Zeros(k);
      assert z == [0] + Zeros(k - 1)[..] by {
        ZerosPrepend(k);
      }
      assert z[1..] == Zeros(k - 1);
      ZerosWeightNothing(k - 1, b);
    }
  }

  lemma {:induction false} ZerosPrepend(k: int)
    requires k > 0
    ensures Zeros(k) == [0] + Zeros(k - 1)
  {
    assert |Zeros(k)| == |[0] + Zeros(k - 1)|;
    forall i | 0 <= i < |Zeros(k)| ensures Zeros(k)[i] == ([0] + Zeros(k - 1))[i] { }
  }

  /**
   * ToBase (lib/range_proof.go): repeatedly takes n % b and divides n by b,
   * then pads with zeros to length l. The digits lie in [0, b), their
   * weighted sum is n, and there are max(l, number of digits of n) of them.
   */
  method ToBase(n: int, b: int, l: int) returns (digits: seq<int>)
    requires n <= 0 || b >= 2
    ensures digits == ToBaseSpec(n, b, l)
    ensures b >= 1 ==> forall i :: 0 <= i < |digits| ==> 0 <= digits[i] < b
    ensures Weighted(digits, b) == if n > 0 then n else 0
    ensures |digits| == Max(l, |Digits(n, b)|)
  {
    digits := [];
    var m := n;
    while m > 0
      invariant m <= 0 || b >= 2
      invariant digits + Digits(m, b) == Digits(n, b)
      decreases if m > 0 then m else 0
    {
      DivStep(m, b);
      var d, q := m % b, m / b;
      assert Digits(m, b) == [d] + Digits(q, b);
      assert (digits + [d]) + Digits(q, b) == digits + ([d] + Digits(q, b));
      digits := digits + [d];
      m := q;
    }
    ghost var ds := Digits(n, b);
    assert digits == ds;
    while |digits| < l
      invariant digits == ds + Zeros(|digits| - |ds|)
      invariant |digits| <= Max(l, |ds|)
      decreases l - |digits|
    {
      assert Zeros(|digits| + 1 - |ds|) == Zeros(|digits| - |ds|) + [0];
      digits := digits + [0];
    }
    ToBaseSpecFacts(n, b, l);
  }

  lemma ToBaseSpecFacts(n: int, b: int, l: int)
    requires n <= 0 || b >= 2
    ensures b >= 1 ==> forall i :: 0 <= i < |ToBaseSpec(n, b, l)| ==> 0 <= ToBaseSpec(n, b, l)[i] < b
    ensures Weighted(ToBaseSpec(n, b, l), b) == if n > 0 then n else 0
    ensures |ToBaseSpec(n, b, l)| == Max(l, |Digits(n, b)|)
  {
    var ds := Digits(n, b);
    DigitsInRange(n, b);
    DigitsValue(n, b);
    WeightedZeroPadding(ds, b, l - |ds|);
  }

  /**
   * In base 1 the only digit is 0, so no digit sequence weighs a positive
   * n: ToBase's loop keeps n (n / 1 == n) and never ends. Base 0 divides
   * by zero. Hence ToBase requires b >= 2 whenever n > 0.
   */
  lemma {:induction false} BaseOneWeighsNothing(ds: seq<int>)
    requires forall i :: 0 <= i < |ds| ==> 0 <= ds[i] < 1
    ensures Weighted(ds, 1) == 0
  {
    if |ds| > 0 {
      BaseOneWeighsNothing(ds[1..]);
    }
  }

  lemma DivStep(m: int, b: int)
    requires m > 0 && b >= 2
    ensures 0 <= m / b < m && 0 <= m % b < b
  {
  }

  lemma DivBound(n: int, b: int, p: int)
    requires n >= 0 && b >= 1 && p >= 1
    ensures n / b < p <==> n < b * p
  {
    var q, r := n / b, n % b;
    assert n == b * q + r && 0 <= r < b;
    if q < p {
      MulLe(b, q, p - 1);
      assert b * (p - 1) == b * p - b;
    } else {
      MulLe(b, p, q);
    }
  }

  lemma MulLe(b: int, x: int, y: int)
    requires b >= 0 && x <= y
    ensures b * x <= b * y
  {
    var d := y - x;
    assert b * y == b * x + b * d;
    assert b * d >= 0;
  }

  /** A non-negative n has at most l base-b digits exactly when n < b^l. */
  lemma {:induction false} DigitCountBound(n: int, b: int, l: nat)
    requires n >= 0 && b >= 2
    ensures |Digits(n, b)| <= l <==> n < Pow(b, l)
    decreases l
  {
    PowPositive(b, l);
    if n > 0 && l > 0 {
      DigitCountBound(n / b, b, l - 1);
      PowPositive(b, l - 1);
      DivBound(n, b, Pow(b, l - 1));
    }
  }

  /** ReadColumnWithYs: column `column` of every row, with each public key. */
  method ReadColumnWithYs(sigs: seq<seq<PublishSignature>>, column: int) returns (sigi: seq<PublishSignature>, sigiY: seq<Point>)
    requires 0 <= column
    requires forall j :: 0 <= j < |sigs| ==> column < |sigs[j]|
    ensures |sigi| == |sigs| && |sigiY| == |sigs|
    ensures forall j :: 0 <= j < |sigs| ==> sigi[j] == sigs[j][column] && sigiY[j] == sigs[j][column].public
  {
    sigi, sigiY := [], [];
    var j := 0;
    while j < |sigs|
      invariant 0 <= j <= |sigs| && |sigi| == j && |sigiY| == j
      invariant forall k :: 0 <= k < j ==> sigi[k] == sigs[k][column] && sigiY[k] == sigi[k].public
    {
      sigi := sigi + [sigs[j][column]];
      sigiY := sigiY + [sigs[j][column].public];
      j := j + 1;
    }
  }

  /** The signatures of one column, as the encoders hand them to proof creation. */
  function Column(sigs: seq<seq<PublishSignature>>, column: int): (sigi: seq<PublishSignature>)
    requires 0 <= column
    requires forall j :: 0 <= j < |sigs| ==> column < |sigs[j]|
    ensures |sigi| == |sigs|
    ensures forall j :: 0 <= j < |sigs| ==> sigi[j] == sigs[j][column]
  {
    seq(|sigs|, j requires 0 <= j < |sigs| => sigs[j][column])
  }

  /** ReadColumn: the signature projection of ReadColumnWithYs. */
  method ReadColumn(sigs: seq<seq<PublishSignature>>, column: int) returns (sigi: seq<PublishSignature>)
    requires 0 <= column
    requires forall j :: 0 <= j < |sigs| ==> column < |sigs[j]|
    ensures sigi == Column(sigs, column)
  {
    var ys;
    sigi, ys := ReadColumnWithYs(sigs, column);
  }

  /** ReadColumnYs: the public keys of one column, in row order. */
  method ReadColumnYs(sigs: seq<seq<PublishSignature>>, column: int) returns (sigiY: seq<Point>)
    requires 0 <= column
    requires forall j :: 0 <= j < |sigs| ==> column < |sigs[j]|
    ensures |sigiY| == |sigs|
    ensures forall j :: 0 <= j < |sigs| ==> sigiY[j] == sigs[j][column].public
  {
    sigiY := [];
    var j := 0;
    while j < |sigs|
      invariant 0 <= j <= |sigs| && |sigiY| == j
      invariant forall k :: 0 <= k < j ==> sigiY[k] == sigs[k][column].public
    {
      sigiY := sigiY + [sigs[j][column].public];
      j := j + 1;
    }
  }

  /** The proof data; only the dimensions of each component are modelled. */
  datatype RangeProofData = RangeProofData(zphi: seq<Point>, zv: seq<seq<Point>>, v: seq<seq<Point>>, a: seq<seq<Point>>)

  /** A committed value and its proof, absent when no range is requested. */
  datatype RangeProof = RangeProof(commit: CipherText, rp: Option<RangeProofData>)

  function OpaqueRow(len: nat): (row: seq<Point>)
    ensures |row| == len
  {
    seq(len, _ => Opaque)
  }

  function OpaqueMatrix(rows: nat, len: nat): (m: seq<seq<Point>>)
    ensures |m| == rows
    ensures forall i :: 0 <= i < rows ==> |m[i]| == len
  {
    seq(rows, _ => OpaqueRow(len))
  }

  /**
   * Every signature holds one point per possible digit: proof creation
   * looks up signature[digit] for each digit of the secret.
   */
  predicate SignaturesCoverDigits(sigs: seq<PublishSignature>, base: seq<int>)
  {
    forall i, j :: 0 <= i < |sigs| && 0 <= j < |base| ==> 0 <= base[j] < |sigs[i].signature|
  }

  /**
   * CreatePredicateRangeProofForAllServ: with u = l = 0 only the commitment
   * is sent; otherwise every proof component has one entry per digit of the
   * secret, and Zv, V and A have one row per signature.
   */
  function CreatePredicateRangeProofForAllServ(cp: CreateProof): (p: RangeProof)
    requires !(cp.u == 0 && cp.l == 0) ==> cp.secret <= 0 || cp.u >= 2
    requires !(cp.u == 0 && cp.l == 0) ==> SignaturesCoverDigits(cp.sigs, ToBaseSpec(cp.secret, cp.u, cp.l))
    ensures p.commit == cp.cipher
    ensures p.rp.None? <==> cp.u == 0 && cp.l == 0
    ensures p.rp.Some? ==>
      var n := |ToBaseSpec(cp.secret, cp.u, cp.l)|;
      |p.rp.value.zphi| == n && |p.rp.value.zv| == |cp.sigs| && |p.rp.value.v| == |cp.sigs| && |p.rp.value.a| == |cp.sigs| &&
      forall i :: 0 <= i < |cp.sigs| ==> |p.rp.value.zv[i]| == n && |p.rp.value.v[i]| == n && |p.rp.value.a[i]| == n
  {
    if cp.u == 0 && cp.l == 0 then RangeProof(cp.cipher, None)
    else
      var n := |ToBaseSpec(cp.secret, cp.u, cp.l)|;
      var k := |cp.sigs|;
      RangeProof(cp.cipher, Some(RangeProofData(OpaqueRow(n), OpaqueMatrix(k, n), OpaqueMatrix(k, n), OpaqueMatrix(k, n))))
  }

  /**
   * CreatePredicateRangeProof, the single-signature variant: the same
   * shortcut, and each component is one row of one entry per digit.
   */
  function CreatePredicateRangeProof(sig: PublishSignature, u: int, l: int, secret: int, cipher: CipherText): (p: RangeProof)
    requires !(u == 0 && l == 0) ==> secret <= 0 || u >= 2
    requires !(u == 0 && l == 0) ==> SignaturesCoverDigits([sig], ToBaseSpec(secret, u, l))
    ensures p.commit == cipher
    ensures p.rp.None? <==> u == 0 && l == 0
    ensures p.rp.Some? ==>
      var n := |ToBaseSpec(secret, u, l)|;
      |p.rp.value.zphi| == n && |p.rp.value.zv| == 1 && |p.rp.value.v| == 1 && |p.rp.value.a| == 1 &&
      |p.rp.value.zv[0]| == n && |p.rp.value.v[0]| == n && |p.rp.value.a[0]| == n
  {
    if u == 0 && l == 0 then RangeProof(cipher, None)
    else
      var n := |ToBaseSpec(secret, u, l)|;
      RangeProof(cipher, Some(RangeProofData(OpaqueRow(n), OpaqueMatrix(1, n), OpaqueMatrix(1, n), OpaqueMatrix(1, n))))
  }

  /** The verifier reads row 0 of Zv, A and V, so a proof must have one. */
  predicate Inspectable(p: RangeProof)
  {
    p.rp.Some? && |p.rp.value.zv| > 0 && |p.rp.value.a| > 0 && |p.rp.value.v| > 0
  }

  /**
   * RangeProofVerification: u = l = 0 accepts at once; otherwise a proof
   * whose four components do not have 4·l entries in all is rejected, and
   * the remaining pairing and commitment equations are `algebraHolds`.
   */
  function RangeProofVerification(p: RangeProof, u: int, l: int, algebraHolds: bool): (ok: bool)
    requires !(l == 0 && u == 0) ==> Inspectable(p)
    ensures l == 0 && u == 0 ==> ok
    ensures !(l == 0 && u == 0) ==>
      (ok <==> (algebraHolds &&
                |p.rp.value.zphi| + |p.rp.value.zv[0]| + |p.rp.value.a[0]| + |p.rp.value.v[0]| == 4 * l))
  {
    if l == 0 && u == 0 then true
    else
      var d := p.rp.value;
      if 4 * l - |d.zphi| - |d.zv[0]| - |d.a[0]| - |d.v[0]| != 0 then false
      else algebraHolds
  }

  /**
   * The size check is exact: a proof built by a data provider with at
   * least one signature passes it iff the secret, taken as non-negative,
   * is below u^l, that is iff it has at most l digits in base u.
   */
  lemma ProofPassesSizeCheckIff(cp: CreateProof)
    requires cp.u >= 2 && cp.l >= 0 && cp.secret >= 0 && |cp.sigs| > 0
    requires SignaturesCoverDigits(cp.sigs, ToBaseSpec(cp.secret, cp.u, cp.l))
    ensures RangeProofVerification(CreatePredicateRangeProofForAllServ(cp), cp.u, cp.l, true) <==> cp.secret < Pow(cp.u, cp.l)
  {
    DigitCountBound(cp.secret, cp.u, cp.l);
  }
}
