/** The histogram statistic (lib/encoding/frequency_count.go). */
module FrequencyCount {
  import opened Common
  import opened Seqs
  import opened RangeProof
  import opened Encoding

  /** Bucket k counts the occurrences of min + k, for every k in [0, max − min]. */
  function Histogram(input: seq<int>, min: int, max: int): (h: seq<int>)
    requires max - min + 1 >= 0
    ensures |h| == max - min + 1
  {
    seq(max - min + 1, k => Count(input, min + k))
  }

  /**
   * EncodeFreqCountWithProofs: counts each input value in bucket
   * value − min of a zeroed array of max − min + 1 buckets, encrypts each
   * bucket into the slot of the same index, returns the placeholder clear
   * response [0], and one proof request per bucket when signatures are
   * given. Every input must lie in [min, max]: the bucket index would be
   * out of bounds otherwise.
   */
  method EncodeFreqCountWithProofs(input: seq<int>, min: int, max: int, sigs: Option<seq<seq<PublishSignature>>>, lu: seq<RangeBound>)
    returns (enc: seq<CipherText>, clear: seq<int>, proofs: Option<seq<CreateProof>>)
    requires max - min + 1 >= 0 && InRange(input, min, max)
    requires sigs.Some? ==> ProofInputsCover(sigs.value, lu, max - min + 1)
    ensures Plains(enc) == Histogram(input, min, max)
    ensures clear == [0]
    ensures proofs == if sigs.None? then None else Some(ProofRequests(Histogram(input, min, max), enc, sigs.value, lu))
  {
    var freqcount := new int[max - min + 1];
    var i := 0;
    while i <= max - min
      invariant 0 <= i <= max - min + 1
      invariant forall k :: 0 <= k < i ==> freqcount[k] == 0
    {
      freqcount[i] := 0;
      i := i + 1;
    }
    var j := 0;
    while j < |input|
      invariant 0 <= j <= |input|
      invariant forall k :: 0 <= k < freqcount.Length ==> freqcount[k] == Count(input[..j], min + k)
    {
      assert input[..j + 1][..j] == input[..j];
      var el := input[j];
      freqcount[el - min] := freqcount[el - min] + 1;
      j := j + 1;
    }
    assert input[..|input|] == input;
    assert freqcount[..] == Histogram(input, min, max);
    enc := EncryptValues(freqcount[..]);
    clear := [0];
    if sigs.None? {
      proofs := None;
    } else {
      var cps := BuildProofs(freqcount[..], enc, sigs.value, lu);
      proofs := Some(cps);
    }
  }

  /** EncodeFreqCount: the encoding without signatures or ranges. */
  method EncodeFreqCount(input: seq<int>, min: int, max: int) returns (enc: seq<CipherText>, clear: seq<int>)
    requires max - min + 1 >= 0 && InRange(input, min, max)
    ensures Plains(enc) == Histogram(input, min, max) && clear == [0]
  {
    var proofs;
    enc, clear, proofs := EncodeFreqCountWithProofs(input, min, max, None, []);
  }

  /** DecodeFreqCount: decrypts every bucket into the slot of the same index. */
  method DecodeFreqCount(result: seq<CipherText>) returns (counts: seq<int>)
    ensures |counts| == |result|
    ensures forall i :: 0 <= i < |result| ==> counts[i] == result[i].plain
  {
    counts := [];
    var i := 0;
    while i < |result|
      invariant 0 <= i <= |result| && |counts| == i
      invariant forall k :: 0 <= k < i ==> counts[k] == result[k].plain
    {
      counts := counts + [result[i].plain];
      i := i + 1;
    }
  }

  lemma {:induction false} SumIncrement(s: seq<int>, k: int)
    requires 0 <= k < |s|
    ensures Sum(s[k := s[k] + 1]) == Sum(s) + 1
  {
    var t := s[k := s[k] + 1];
    if k == |s| - 1 {
      assert t[..|t| - 1] == s[..|s| - 1];
    } else {
      assert t[..|t| - 1] == s[..|s| - 1][k := s[k] + 1];
      SumIncrement(s[..|s| - 1], k);
    }
  }

  /** For inputs inside [min, max] the bucket counts add up to the input length. */
  lemma {:induction false} HistogramTotal(input: seq<int>, min: int, max: int)
    requires max - min + 1 >= 0 && InRange(input, min, max)
    ensures Sum(Histogram(input, min, max)) == |input|
  {
    var h := Histogram(input, min, max);
    if |input| == 0 {
      ZeroHistogram(max - min + 1, min, max);
      assert h[..max - min + 1] == h;
    } else {
      var front, el := input[..|input| - 1], input[|input| - 1];
      HistogramTotal(front, min, max);
      var g := Histogram(front, min, max);
      forall k | 0 <= k < |h|
        ensures h[k] == g[el - min := g[el - min] + 1][k]
      {
        assert input[..|input| - 1] == front;
        assert h[k] == Count(input, min + k);
        assert Count(input, min + k) == Count(front, min + k) + (if el == min + k then 1 else 0);
      }
      assert h == g[el - min := g[el - min] + 1];
      SumIncrement(g, el - min);
    }
  }

  lemma {:induction false} ZeroHistogram(n: nat, min: int, max: int)
    requires n <= max - min + 1
    ensures Sum(Histogram([], min, max)[..n]) == 0
  {
    var h := Histogram([], min, max);
    if n > 0 {
      assert h[..n][..n - 1] == h[..n - 1];
      assert h[..n][n - 1] == Count([], min + n - 1) == 0;
      ZeroHistogram(n - 1, min, max);
    } else {
      assert h[..n] == [];
    }
  }

  /**
   * Decoding the slot-by-slot aggregate of two providers' encodings gives
   * the histogram of their values together.
   */
  lemma AggregatedHistogram(a: seq<int>, b: seq<int>, min: int, max: int)
    requires max - min + 1 >= 0
    ensures Plains(AddCipherVectors(EncryptAll(Histogram(a, min, max)), EncryptAll(Histogram(b, min, max))))
         == Histogram(a + b, min, max)
  {
    var sum := Plains(AddCipherVectors(EncryptAll(Histogram(a, min, max)), EncryptAll(Histogram(b, min, max))));
    var ha, hb := Histogram(a, min, max), Histogram(b, min, max);
    assert Plains(EncryptAll(ha)) == ha && Plains(EncryptAll(hb)) == hb;
    forall k | 0 <= k < max - min + 1
      ensures sum[k] == Histogram(a + b, min, max)[k]
    {
      assert EncryptAll(ha)[k].plain == ha[k] && EncryptAll(hb)[k].plain == hb[k];
      CountAppend(a, b, min + k);
    }
  }
}
