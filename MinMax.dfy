/**
 * Global minimum and maximum (lib/encoding/min_max.go). Slot i of the
 * vector stands for the value min + i. For the minimum, slot i is the OR
 * encoding of "min + i >= the provider's minimum"; for the maximum, slot i
 * is the AND encoding of "min + i >= the provider's maximum". Both bit
 * vectors are monotone, and the decoder reports the first set slot.
 */
module MinMax {
  import opened Common
  import opened OrAnd
  import opened Encoding
  import opened SetUnionIntersection

  function Minimum(s: seq<int>): int
    requires |s| > 0
  {
    if |s| == 1 then s[0]
    else var m := Minimum(s[..|s| - 1]); if s[|s| - 1] < m then s[|s| - 1] else m
  }

  function Maximum(s: seq<int>): int
    requires |s| > 0
  {
    if |s| == 1 then s[0]
    else var m := Maximum(s[..|s| - 1]); if s[|s| - 1] > m then s[|s| - 1] else m
  }

  /** Minimum is an element of s below every element of s; Maximum likewise above. */
  lemma {:induction false} ExtremaBound(s: seq<int>)
    requires |s| > 0
    ensures Minimum(s) in s && forall x :: x in s ==> Minimum(s) <= x
    ensures Maximum(s) in s && forall x :: x in s ==> x <= Maximum(s)
  {
    if |s| > 1 {
      var front := s[..|s| - 1];
      ExtremaBound(front);
      assert s == front + [s[|s| - 1]];
    }
  }

  /** The running minimum of EncodeMinWithProofs, starting from input[0]. */
  method LocalMin(input: seq<int>) returns (localMin: int)
    requires |input| > 0
    ensures localMin == Minimum(input)
    ensures localMin in input && forall x :: x in input ==> localMin <= x
  {
    localMin := input[0];
    var j := 0;
    while j < |input|
      invariant 0 <= j <= |input|
      invariant localMin == if j == 0 then input[0] else Minimum(input[..j])
    {
      assert input[..j + 1][..j] == input[..j];
      if input[j] < localMin {
        localMin := input[j];
      }
      j := j + 1;
    }
    assert input[..|input|] == input;
    ExtremaBound(input);
  }

  /** The running maximum of EncodeMaxWithProofs, starting from input[0]. */
  method LocalMax(input: seq<int>) returns (localMax: int)
    requires |input| > 0
    ensures localMax == Maximum(input)
    ensures localMax in input && forall x :: x in input ==> x <= localMax
  {
    localMax := input[0];
    var j := 0;
    while j < |input|
      invariant 0 <= j <= |input|
      invariant localMax == if j == 0 then input[0] else Maximum(input[..j])
    {
      assert input[..j + 1][..j] == input[..j];
      if input[j] > localMax {
        localMax := input[j];
      }
      j := j + 1;
    }
    assert input[..|input|] == input;
    ExtremaBound(input);
  }

  /** Bit i: the value min + i is at or above the bound. */
  function ThresholdBits(bound: int, min: int, n: nat): (bits: seq<bool>)
    ensures |bits| == n && forall i :: 0 <= i < n ==> (bits[i] <==> min + i >= bound)
  {
    seq(n, i requires 0 <= i < n => min + i >= bound)
  }

  /** The shared loop of both encoders: one OR or AND bit per slot, in slot order. */
  method EncodeThreshold(bound: int, max: int, min: int, sigs: Option<seq<seq<PublishSignature>>>, lu: seq<RangeBound>, draws: nat -> nat -> int, isOr: bool)
    returns (enc: seq<CipherText>, clear: seq<int>, proofs: seq<Option<CreateProof>>)
    requires max - min + 1 >= 0
    requires sigs.Some? ==> ProofInputsCover(sigs.value, lu, max - min + 1)
    ensures SlotsHold(enc, clear, proofs, ThresholdBits(bound, min, max - min + 1), sigs, lu, draws, isOr)
  {
    ghost var bits := ThresholdBits(bound, min, max - min + 1);
    enc, clear, proofs := [], [], [];
    var i := 0;
    while i < max - min + 1
      invariant 0 <= i <= max - min + 1
      invariant |enc| == i && |clear| == i && |proofs| == i
      invariant forall k :: 0 <= k < i ==> SlotHolds(enc, clear, proofs, k, bits[k], sigs, lu, draws, isOr)
    {
      var c, clr, p := EncodeSlot(min + i >= bound, i, sigs, lu, draws(i), isOr);
      enc, clear, proofs := enc + [c], clear + [clr], proofs + [p];
      assert SlotHolds(enc, clear, proofs, i, bits[i], sigs, lu, draws, isOr);
      i := i + 1;
    }
  }

  /** EncodeMinWithProofs: slot i is OR("min + i >= the local minimum"). */
  method EncodeMinWithProofs(input: seq<int>, max: int, min: int, sigs: Option<seq<seq<PublishSignature>>>, lu: seq<RangeBound>, draws: nat -> nat -> int)
    returns (enc: seq<CipherText>, clear: seq<int>, proofs: seq<Option<CreateProof>>)
    requires |input| > 0 && max - min + 1 >= 0
    requires sigs.Some? ==> ProofInputsCover(sigs.value, lu, max - min + 1)
    ensures SlotsHold(enc, clear, proofs, ThresholdBits(Minimum(input), min, max - min + 1), sigs, lu, draws, true)
  {
    var localMin := LocalMin(input);
    enc, clear, proofs := EncodeThreshold(localMin, max, min, sigs, lu, draws, true);
  }

  /** EncodeMin: no signatures, so no proofs. */
  method EncodeMin(input: seq<int>, max: int, min: int, draws: nat -> nat -> int)
    returns (enc: seq<CipherText>, clear: seq<int>)
    requires |input| > 0 && max - min + 1 >= 0
    ensures |enc| == |clear| == max - min + 1
    ensures forall i :: 0 <= i < |enc| ==>
      enc[i] == CipherText(OrPlain(min + i >= Minimum(input), false, draws(i))) && clear[i] == 0
  {
    var proofs;
    enc, clear, proofs := EncodeMinWithProofs(input, max, min, None, [], draws);
    forall i | 0 <= i < |enc|
      ensures enc[i] == CipherText(OrPlain(min + i >= Minimum(input), false, draws(i))) && clear[i] == 0
    {
      assert SlotHolds(enc, clear, proofs, i, ThresholdBits(Minimum(input), min, max - min + 1)[i], None, [], draws, true);
    }
  }

  /** EncodeMaxWithProofs: slot i is AND("min + i >= the local maximum"). */
  method EncodeMaxWithProofs(input: seq<int>, max: int, min: int, sigs: Option<seq<seq<PublishSignature>>>, lu: seq<RangeBound>, draws: nat -> nat -> int)
    returns (enc: seq<CipherText>, clear: seq<int>, proofs: seq<Option<CreateProof>>)
    requires |input| > 0 && max - min + 1 >= 0
    requires sigs.Some? ==> ProofInputsCover(sigs.value, lu, max - min + 1)
    ensures SlotsHold(enc, clear, proofs, ThresholdBits(Maximum(input), min, max - min + 1), sigs, lu, draws, false)
  {
    var localMax := LocalMax(input);
    enc, clear, proofs := EncodeThreshold(localMax, max, min, sigs, lu, draws, false);
  }

  /** EncodeMax: no signatures, so no proofs. */
  method EncodeMax(input: seq<int>, max: int, min: int, draws: nat -> nat -> int)
    returns (enc: seq<CipherText>, clear: seq<int>)
    requires |input| > 0 && max - min + 1 >= 0
    ensures |enc| == |clear| == max - min + 1
    ensures forall i :: 0 <= i < |enc| ==>
      enc[i] == CipherText(AndPlain(min + i >= Maximum(input), false, draws(i))) && clear[i] == 1
  {
    var proofs;
    enc, clear, proofs := EncodeMaxWithProofs(input, max, min, None, [], draws);
    forall i | 0 <= i < |enc|
      ensures enc[i] == CipherText(AndPlain(min + i >= Maximum(input), false, draws(i))) && clear[i] == 1
    {
      assert SlotHolds(enc, clear, proofs, i, ThresholdBits(Maximum(input), min, max - min + 1)[i], None, [], draws, false);
    }
  }

  /** Index of the first true bit, or |bits| when there is none. */
  function FirstTrue(bits: seq<bool>): (r: nat)
    ensures r <= |bits|
    ensures forall k :: 0 <= k < r ==> !bits[k]
    ensures r < |bits| ==> bits[r]
  {
    if |bits| == 0 then 0 else if bits[0] then 0 else 1 + FirstTrue(bits[1..])
  }

  /** The first true index is determined by the false prefix and the true bit after it. */
  lemma FirstTrueUnique(bits: seq<bool>, k: nat)
    requires k <= |bits| && (forall j :: 0 <= j < k ==> !bits[j]) && (k < |bits| ==> bits[k])
    ensures FirstTrue(bits) == k
  {
  }

  /** The bits DecodeMin (OR) or DecodeMax (AND) decodes from the vector. */
  function DecodedBits(result: seq<CipherText>, isOr: bool): (bits: seq<bool>)
    ensures |bits| == |result|
    ensures forall i :: 0 <= i < |result| ==>
      bits[i] == if isOr then DecodeBitOr(result[i]) else DecodeBitAnd(result[i])
  {
    seq(|result|, i requires 0 <= i < |result| => if isOr then DecodeBitOr(result[i]) else DecodeBitAnd(result[i]))
  }

  /** What DecodeMin and DecodeMax return for a decoded bit vector. */
  function Decoded(bits: seq<bool>, globalMin: int): int
  {
    if FirstTrue(bits) < |bits| then globalMin + FirstTrue(bits) else 0
  }

  /**
   * The shared scan of DecodeMin and DecodeMax: decode every bit, then
   * return globalMin plus the index of the first set bit, or 0.
   */
  method DecodeThreshold(result: seq<CipherText>, globalMin: int, isOr: bool) returns (value: int)
    ensures value == Decoded(DecodedBits(result, isOr), globalMin)
  {
    var bits := DecodedBits(result, isOr);
    value := 0;
    var i := 0;
    while i < |result|
      invariant 0 <= i <= |result|
      invariant forall k :: 0 <= k < i ==> !bits[k]
      invariant value == 0
    {
      if bits[i] {
        FirstTrueUnique(bits, i);
        value := i + globalMin;
        return;
      }
      i := i + 1;
    }
    FirstTrueUnique(bits, |bits|);
  }

  /** DecodeMin: globalMin plus the first slot whose OR bit is set, or 0. */
  method DecodeMin(result: seq<CipherText>, globalMin: int) returns (min: int)
    ensures min == Decoded(DecodedBits(result, true), globalMin)
  {
    min := DecodeThreshold(result, globalMin, true);
  }

  /** DecodeMax: globalMin plus the first slot whose AND bit is set, or 0. */
  method DecodeMax(result: seq<CipherText>, globalMin: int) returns (max: int)
    ensures max == Decoded(DecodedBits(result, false), globalMin)
  {
    max := DecodeThreshold(result, globalMin, false);
  }

  /**
   * The decoded bits of a threshold vector are "min + i >= bound": they
   * are monotone, and for a bound inside [min, max] the decoder returns
   * the bound itself.
   */
  lemma DecodedThreshold(enc: seq<CipherText>, clear: seq<int>, proofs: seq<Option<CreateProof>>,
                         bound: int, min: int, max: int,
                         sigs: Option<seq<seq<PublishSignature>>>, lu: seq<RangeBound>, draws: nat -> nat -> int, isOr: bool)
    requires max - min + 1 >= 0
    requires sigs.Some? ==> ProofInputsCover(sigs.value, lu, max - min + 1)
    requires SlotsHold(enc, clear, proofs, ThresholdBits(bound, min, max - min + 1), sigs, lu, draws, isOr)
    requires sigs.Some? || DrawsUsable(draws, max - min + 1)
    ensures var bits := DecodedBits(enc, isOr);
      (forall i :: 0 <= i < |bits| ==> bits[i] == (min + i >= bound)) &&
      (forall i, j :: 0 <= i <= j < |bits| && bits[i] ==> bits[j]) &&
      (min <= bound <= max ==> Decoded(bits, min) == bound)
  {
    var bits := DecodedBits(enc, isOr);
    forall i | 0 <= i < |bits|
      ensures bits[i] == (min + i >= bound)
    {
      assert SlotHolds(enc, clear, proofs, i, ThresholdBits(bound, min, max - min + 1)[i], sigs, lu, draws, isOr);
      DecodeEncodedBit(min + i >= bound, sigs.Some?, draws(i));
    }
    if min <= bound <= max {
      FirstTrueUnique(bits, bound - min);
    }
  }

  /**
   * For one provider with values inside [min, max], decoding the min
   * encoding gives the minimum and decoding the max encoding gives the
   * maximum.
   */
  lemma MinMaxRoundTrip(input: seq<int>, min: int, max: int,
                        encMin: seq<CipherText>, clearMin: seq<int>, proofsMin: seq<Option<CreateProof>>,
                        encMax: seq<CipherText>, clearMax: seq<int>, proofsMax: seq<Option<CreateProof>>,
                        sigs: Option<seq<seq<PublishSignature>>>, lu: seq<RangeBound>, draws: nat -> nat -> int)
    requires |input| > 0 && max - min + 1 >= 0 && InRange(input, min, max)
    requires sigs.Some? ==> ProofInputsCover(sigs.value, lu, max - min + 1)
    requires sigs.Some? || DrawsUsable(draws, max - min + 1)
    requires SlotsHold(encMin, clearMin, proofsMin, ThresholdBits(Minimum(input), min, max - min + 1), sigs, lu, draws, true)
    requires SlotsHold(encMax, clearMax, proofsMax, ThresholdBits(Maximum(input), min, max - min + 1), sigs, lu, draws, false)
    ensures Decoded(DecodedBits(encMin, true), min) == Minimum(input)
    ensures Decoded(DecodedBits(encMax, false), min) == Maximum(input)
  {
    ExtremaBound(input);
    var k :| 0 <= k < |input| && input[k] == Minimum(input);
    var m :| 0 <= m < |input| && input[m] == Maximum(input);
    DecodedThreshold(encMin, clearMin, proofsMin, Minimum(input), min, max, sigs, lu, draws, true);
    DecodedThreshold(encMax, clearMax, proofsMax, Maximum(input), min, max, sigs, lu, draws, false);
  }
}
