/** The cosine-similarity statistic (lib/encoding/cosim.go). */
module CosimEncoding {
  import opened Common
  import opened Seqs
  import opened RangeProof
  import opened Encoding

  /** Σ a[i]·b[i] over the indices of a; b may be longer. */
  function Dot(a: seq<int>, b: seq<int>): int
    requires |b| >= |a|
  {
    if |a| == 0 then 0 else Dot(a[..|a| - 1], b) + a[|a| - 1] * b[|a| - 1]
  }

  /** The five sums of the cosine similarity, over the pairs (rij[i], rik[i]). */
  function CosimSums(rijs: seq<int>, riks: seq<int>): seq<int>
    requires |riks| >= |rijs|
  {
    var paired := riks[..|rijs|];
    [Sum(rijs), Sum(paired), SumSquares(rijs), SumSquares(paired), Dot(rijs, riks)]
  }

  /**
   * EncodeCosimWithProofs: one pass over rijs pairs each value with the
   * riks value of the same index; the clear response is [Σrij, Σrik,
   * Σrij², Σrik², Σrij·rik]; one ciphertext per entry, and one proof
   * request per entry when signatures are given.
   */
  method EncodeCosimWithProofs(rijs: seq<int>, riks: seq<int>, sigs: Option<seq<seq<PublishSignature>>>, lu: seq<RangeBound>)
    returns (enc: seq<CipherText>, clear: seq<int>, proofs: Option<seq<CreateProof>>)
    requires |riks| >= |rijs|
    requires sigs.Some? ==> ProofInputsCover(sigs.value, lu, 5)
    ensures clear == CosimSums(rijs, riks)
    ensures Plains(enc) == clear
    ensures proofs == if sigs.None? then None else Some(ProofRequests(clear, enc, sigs.value, lu))
  {
    var rijsSum, riksSum, rijs2Sum, riks2Sum, productSum := 0, 0, 0, 0, 0;
    var i := 0;
    while i < |rijs|
      invariant 0 <= i <= |rijs|
      invariant rijsSum == Sum(rijs[..i]) && riksSum == Sum(riks[..i])
      invariant rijs2Sum == SumSquares(rijs[..i]) && riks2Sum == SumSquares(riks[..i])
      invariant productSum == Dot(rijs[..i], riks)
    {
      assert rijs[..i + 1][..i] == rijs[..i];
      assert riks[..i + 1][..i] == riks[..i];
      var el, el2 := rijs[i], riks[i];
      rijsSum := rijsSum + el;
      riksSum := riksSum + el2;
      rijs2Sum := rijs2Sum + el * el;
      riks2Sum := riks2Sum + el2 * el2;
      productSum := productSum + el * el2;
      i := i + 1;
    }
    assert rijs[..|rijs|] == rijs;
    clear := [rijsSum, riksSum, rijs2Sum, riks2Sum, productSum];
    enc := EncryptValues(clear);
    if sigs.None? {
      proofs := None;
    } else {
      var cps := BuildProofs(clear, enc, sigs.value, lu);
      proofs := Some(cps);
    }
  }

  /** EncodeCosim: the encoding without signatures and with no ranges. */
  method EncodeCosim(rijs: seq<int>, riks: seq<int>) returns (enc: seq<CipherText>, clear: seq<int>)
    requires |riks| >= |rijs|
    ensures clear == CosimSums(rijs, riks) && Plains(enc) == clear
  {
    var proofs;
    enc, clear, proofs := EncodeCosimWithProofs(rijs, riks, None, []);
  }

  /**
   * The three decrypted entries DecodeCosim combines: the cosine
   * similarity is dot / (sqrt(normSqJ) · sqrt(normSqK)).
   */
  datatype CosimTerms = CosimTerms(dot: int, normSqJ: int, normSqK: int)

  /** DecodeCosim: reads entries 4, 2 and 3 of the decrypted tuple. */
  function DecodeCosim(result: seq<CipherText>): (t: CosimTerms)
    requires |result| >= 5
    ensures EncryptAll([t.dot, t.normSqJ, t.normSqK]) == [result[4], result[2], result[3]]
  {
    CosimTerms(result[4].plain, result[2].plain, result[3].plain)
  }

  lemma SquareNonNegative(t: int)
    ensures t * t >= 0
  {
  }

  lemma CrossStep(a2: int, b2: int, ab: int, x: int, y: int, u: int, v: int)
    ensures (a2 + u * u) * y * y + (b2 + v * v) * x * x - 2 * (ab + u * v) * x * y
         == (a2 * y * y + b2 * x * x - 2 * ab * x * y) + (u * y - v * x) * (u * y - v * x)
  {
  }

  lemma GramStep(a2: int, b2: int, ab: int, x: int, y: int)
    ensures (a2 + x * x) * (b2 + y * y) - (ab + x * y) * (ab + x * y)
         == (a2 * b2 - ab * ab) + (a2 * y * y + b2 * x * x - 2 * ab * x * y)
  {
  }

  /** Σ (a[i]·y − b[i]·x)², expanded, is never negative. */
  lemma {:induction false} CrossDeviations(a: seq<int>, b: seq<int>, x: int, y: int)
    requires |a| == |b|
    ensures SumSquares(a) * y * y + SumSquares(b) * x * x - 2 * Dot(a, b) * x * y >= 0
  {
    if |a| > 0 {
      var a', b' := a[..|a| - 1], b[..|b| - 1];
      CrossDeviations(a', b', x, y);
      DotPrefix(a', b);
      CrossStep(SumSquares(a'), SumSquares(b'), Dot(a', b'), x, y, a[|a| - 1], b[|b| - 1]);
      SquareNonNegative(a[|a| - 1] * y - b[|b| - 1] * x);
    }
  }

  /** Dot only reads the first |a| entries of b. */
  lemma {:induction false} DotPrefix(a: seq<int>, b: seq<int>)
    requires |b| >= |a|
    ensures Dot(a, b) == Dot(a, b[..|a|])
  {
    if |a| > 0 {
      DotPrefix(a[..|a| - 1], b);
      DotPrefix(a[..|a| - 1], b[..|a|]);
      assert b[..|a|][..|a| - 1] == b[..|a| - 1];
    }
  }

  /** Cauchy–Schwarz: (Σab)² <= Σa² · Σb². */
  lemma {:induction false} CauchySchwarz(a: seq<int>, b: seq<int>)
    requires |a| == |b|
    ensures Dot(a, b) * Dot(a, b) <= SumSquares(a) * SumSquares(b)
  {
    if |a| > 0 {
      var a', b' := a[..|a| - 1], b[..|b| - 1];
      var x, y := a[|a| - 1], b[|b| - 1];
      CauchySchwarz(a', b');
      DotPrefix(a', b);
      CrossDeviations(a', b', x, y);
      GramStep(SumSquares(a'), SumSquares(b'), Dot(a', b'), x, y);
    }
  }

  /**
   * For one provider's encoding, the decoded dot product squared never
   * exceeds the product of the decoded squared norms, so the cosine
   * similarity lies in [-1, 1] wherever it is defined.
   */
  lemma DecodedCosimBounded(rijs: seq<int>, riks: seq<int>)
    requires |riks| >= |rijs|
    ensures var t := DecodeCosim(EncryptAll(CosimSums(rijs, riks)));
      t.dot * t.dot <= t.normSqJ * t.normSqK
  {
    var enc := EncryptAll(CosimSums(rijs, riks));
    assert Plains(enc) == CosimSums(rijs, riks);
    DotPrefix(rijs, riks);
    CauchySchwarz(rijs, riks[..|rijs|]);
  }

  /** The dot product of two concatenations of equal-length pairs splits at the seam. */
  lemma {:induction false} DotAppend(a: seq<int>, b: seq<int>, c: seq<int>, d: seq<int>)
    requires |a| == |b| && |c| == |d|
    ensures Dot(a + c, b + d) == Dot(a, b) + Dot(c, d)
  {
    if |c| == 0 {
      assert a + c == a;
      DotPrefix(a, b + d);
      assert (b + d)[..|a|] == b;
      DotPrefix(a, b);
    } else {
      var c', d' := c[..|c| - 1], d[..|d| - 1];
      DotAppend(a, b, c', d');
      assert (a + c)[..|a + c| - 1] == a + c';
      DotPrefix(a + c', b + d);
      DotPrefix(a + c', b + d');
      assert (b + d)[..|a + c'|] == b + d';
      assert (b + d')[..|a + c'|] == b + d';
      DotPrefix(c', d);
      assert d[..|c'|] == d';
      DotPrefix(c', d');
      assert d'[..|c'|] == d';
    }
  }

  /**
   * Adding two providers' cosine-similarity encodings slot by slot yields
   * the encoding of their pairs together.
   */
  lemma AggregateIsEncodingOfUnion(rijA: seq<int>, rikA: seq<int>, rijB: seq<int>, rikB: seq<int>)
    requires |rikA| == |rijA| && |rikB| == |rijB|
    ensures AddCipherVectors(EncryptAll(CosimSums(rijA, rikA)), EncryptAll(CosimSums(rijB, rikB)))
         == EncryptAll(CosimSums(rijA + rijB, rikA + rikB))
  {
    assert rikA[..|rijA|] == rikA && rikB[..|rijB|] == rikB;
    assert (rikA + rikB)[..|rijA + rijB|] == rikA + rikB;
    SumAppend(rijA, rijB);
    SumAppend(rikA, rikB);
    SumSquaresAppend(rijA, rijB);
    SumSquaresAppend(rikA, rikB);
    DotAppend(rijA, rikA, rijB, rikB);
  }
}
