/**
 * Set union and intersection over the value range [min, max]
 * (lib/encoding/set_union_intersection.go). Slot i of the vector stands for
 * the value min + i and holds the OR (union) or AND (intersection)
 * encoding of "min + i occurs in the provider's input".
 */
module SetUnionIntersection {
  import opened Common
  import opened RangeProof
  import opened Encoding
  import opened OrAnd

  /** The distinct elements of s in order of first occurrence. */
  function Distinct(s: seq<int>): seq<int>
  {
    if |s| == 0 then []
    else
      var front := s[..|s| - 1];
      if s[|s| - 1] in front then Distinct(front) else Distinct(front) + [s[|s| - 1]]
  }

  predicate NoDuplicates(s: seq<int>)
  {
    forall i, j :: 0 <= i < j < |s| ==> s[i] != s[j]
  }

  /** Distinct keeps exactly the elements of its input, each once. */
  lemma {:induction false} DistinctProperties(s: seq<int>)
    ensures NoDuplicates(Distinct(s))
    ensures forall x :: x in Distinct(s) <==> x in s
  {
    if |s| > 0 {
      var front := s[..|s| - 1];
      DistinctProperties(front);
      assert s == front + [s[|s| - 1]];
    }
  }

  /**
   * Unique: keeps a set of the values seen so far and appends each value
   * the first time it appears.
   */
  method Unique(intSlice: seq<int>) returns (list: seq<int>)
    ensures list == Distinct(intSlice)
    ensures NoDuplicates(list)
    ensures forall x :: x in list <==> x in intSlice
  {
    var keys: map<int, bool> := map[];
    list := [];
    var j := 0;
    while j < |intSlice|
      invariant 0 <= j <= |intSlice|
      invariant list == Distinct(intSlice[..j])
      invariant forall x :: x in keys <==> x in intSlice[..j]
    {
      assert intSlice[..j + 1][..j] == intSlice[..j];
      var entry := intSlice[j];
      if entry !in keys {
        keys := keys[entry := true];
        list := list + [entry];
      }
      assert intSlice[..j + 1] == intSlice[..j] + [entry];
      j := j + 1;
    }
    assert intSlice[..|intSlice|] == intSlice;
    DistinctProperties(intSlice);
  }

  /** The plaintext a slot encrypts, by the OR or the AND encoding. */
  function SlotPlain(present: bool, withSigs: bool, draws: nat -> int, isOr: bool): int
  {
    if isOr then OrPlain(present, withSigs, draws) else AndPlain(present, withSigs, draws)
  }

  /** The clear value a slot reports: the encrypted bit with signatures, else the initial value. */
  function SlotClear(present: bool, withSigs: bool, isOr: bool): int
  {
    if isOr then (if withSigs && present then 1 else 0)
    else (if withSigs && present then 0 else 1)
  }

  /** The proof request of slot i: column i of the signatures and range i. */
  function SlotProof(present: bool, i: nat, sigs: Option<seq<seq<PublishSignature>>>, lu: seq<RangeBound>, draws: nat -> int, isOr: bool): Option<CreateProof>
    requires sigs.Some? ==> ProofInputsCoverSlot(sigs.value, lu, i)
  {
    if sigs.None? then None
    else Some(CreateProof(Column(sigs.value, i), lu[i].u, lu[i].l, SlotClear(present, true, isOr),
                          CipherText(SlotPlain(present, true, draws, isOr))))
  }

  predicate ProofInputsCoverSlot(sigs: seq<seq<PublishSignature>>, lu: seq<RangeBound>, i: nat)
  {
    i < |lu| && forall j :: 0 <= j < |sigs| ==> i < |sigs[j]|
  }

  /** Bit i: the value min + i occurs in the input. */
  function OccurrenceBits(input: seq<int>, min: int, n: nat): (bits: seq<bool>)
    ensures |bits| == n && forall i :: 0 <= i < n ==> (bits[i] <==> min + i in input)
  {
    seq(n, i requires 0 <= i < n => min + i in input)
  }

  /** Encodes one slot through EncodeBit_OR(WithProof) or EncodeBit_AND(WithProof). */
  method EncodeSlot(present: bool, i: nat, sigs: Option<seq<seq<PublishSignature>>>, lu: seq<RangeBound>, draws: nat -> int, isOr: bool)
    returns (c: CipherText, clear: int, p: Option<CreateProof>)
    requires sigs.Some? ==> ProofInputsCoverSlot(sigs.value, lu, i)
    ensures c == CipherText(SlotPlain(present, sigs.Some?, draws, isOr))
    ensures clear == SlotClear(present, sigs.Some?, isOr)
    ensures p == SlotProof(present, i, sigs, lu, draws, isOr)
  {
    if sigs.Some? {
      var column := ReadColumn(sigs.value, i);
      if isOr {
        c, clear, p := EncodeBitOrWithProof(present, Some(column), lu[i].l, lu[i].u, draws);
      } else {
        c, clear, p := EncodeBitAndWithProof(present, Some(column), lu[i].l, lu[i].u, draws);
      }
    } else {
      if isOr {
        c, clear := EncodeBitOr(present, draws);
      } else {
        c, clear := EncodeBitAnd(present, draws);
      }
      p := None;
    }
  }

  /** Slot k of the three vectors holds the encoding of the bit `present`. */
  predicate SlotHolds(enc: seq<CipherText>, clear: seq<int>, proofs: seq<Option<CreateProof>>, k: nat, present: bool,
                      sigs: Option<seq<seq<PublishSignature>>>, lu: seq<RangeBound>, draws: nat -> nat -> int, isOr: bool)
    requires k < |enc| && k < |clear| && k < |proofs|
    requires sigs.Some? ==> ProofInputsCoverSlot(sigs.value, lu, k)
  {
    enc[k] == CipherText(SlotPlain(present, sigs.Some?, draws(k), isOr)) &&
    clear[k] == SlotClear(present, sigs.Some?, isOr) &&
    proofs[k] == SlotProof(present, k, sigs, lu, draws(k), isOr)
  }

  /** Writing slot i leaves what every other slot holds unchanged. */
  lemma SlotUpdate(enc: seq<CipherText>, clear: seq<int>, proofs: seq<Option<CreateProof>>, i: nat,
                   c: CipherText, clr: int, p: Option<CreateProof>,
                   sigs: Option<seq<seq<PublishSignature>>>, lu: seq<RangeBound>, draws: nat -> nat -> int, isOr: bool)
    requires i < |enc| == |clear| == |proofs|
    requires sigs.Some? ==> ProofInputsCover(sigs.value, lu, |enc|)
    ensures forall k, present :: 0 <= k < |enc| && k != i ==>
      (SlotHolds(enc[i := c], clear[i := clr], proofs[i := p], k, present, sigs, lu, draws, isOr) <==>
       SlotHolds(enc, clear, proofs, k, present, sigs, lu, draws, isOr))
  {
  }

  /** Slot i of the three vectors holds the encoding of bits[i], for every slot. */
  predicate SlotsHold(enc: seq<CipherText>, clear: seq<int>, proofs: seq<Option<CreateProof>>, bits: seq<bool>,
                      sigs: Option<seq<seq<PublishSignature>>>, lu: seq<RangeBound>, draws: nat -> nat -> int, isOr: bool)
    requires sigs.Some? ==> ProofInputsCover(sigs.value, lu, |bits|)
  {
    |enc| == |bits| && |clear| == |bits| && |proofs| == |bits| &&
    forall i :: 0 <= i < |bits| ==> SlotHolds(enc, clear, proofs, i, bits[i], sigs, lu, draws, isOr)
  }

  /**
   * The shared body of EncodeUnionWithProofs and EncodeInterWithProofs:
   * a first pass encodes a set bit at slot v − min for each distinct input
   * value v and marks the slot filled; a second pass encodes a clear bit in
   * every slot not yet filled. Slot i uses the draws `draws(i)`.
   */
  method EncodeIndicator(input: seq<int>, min: int, max: int, sigs: Option<seq<seq<PublishSignature>>>, lu: seq<RangeBound>, draws: nat -> nat -> int, isOr: bool)
    returns (enc: seq<CipherText>, clear: seq<int>, proofs: seq<Option<CreateProof>>)
    requires max - min + 1 >= 0 && InRange(input, min, max)
    requires sigs.Some? ==> ProofInputsCover(sigs.value, lu, max - min + 1)
    ensures SlotsHold(enc, clear, proofs, OccurrenceBits(input, min, max - min + 1), sigs, lu, draws, isOr)
  {
    var n := max - min + 1;
    ghost var bits := OccurrenceBits(input, min, n);
    var uniqueValues := Unique(input);
    enc := seq(n, _ => CipherText(0));
    clear := seq(n, _ => 0);
    proofs := seq(n, _ => None);
    var filled := seq(n, _ => false);
    var j := 0;
    while j < |uniqueValues|
      invariant 0 <= j <= |uniqueValues|
      invariant |enc| == n && |clear| == n && |proofs| == n && |filled| == n
      invariant forall k :: 0 <= k < n ==> (filled[k] <==> min + k in uniqueValues[..j])
      invariant forall k :: 0 <= k < n && filled[k] ==> SlotHolds(enc, clear, proofs, k, true, sigs, lu, draws, isOr)
    {
      var entry := uniqueValues[j];
      assert entry in input;
      var idx := entry - min;
      var c, clr, p := EncodeSlot(true, idx, sigs, lu, draws(idx), isOr);
      SlotUpdate(enc, clear, proofs, idx, c, clr, p, sigs, lu, draws, isOr);
      enc, clear, proofs := enc[idx := c], clear[idx := clr], proofs[idx := p];
      filled := filled[idx := true];
      assert uniqueValues[..j + 1] == uniqueValues[..j] + [entry];
      j := j + 1;
    }
    assert uniqueValues[..|uniqueValues|] == uniqueValues;
    var i := 0;
    while i < n
      invariant 0 <= i <= n
      invariant |enc| == n && |clear| == n && |proofs| == n && |filled| == n
      invariant forall k :: 0 <= k < n ==> (filled[k] <==> bits[k])
      invariant forall k :: 0 <= k < n && (k < i || filled[k]) ==>
        SlotHolds(enc, clear, proofs, k, bits[k], sigs, lu, draws, isOr)
    {
      if !filled[i] {
        var c, clr, p := EncodeSlot(false, i, sigs, lu, draws(i), isOr);
        SlotUpdate(enc, clear, proofs, i, c, clr, p, sigs, lu, draws, isOr);
        enc, clear, proofs := enc[i := c], clear[i := clr], proofs[i := p];
        assert SlotHolds(enc, clear, proofs, i, false, sigs, lu, draws, isOr);
      }
      i := i + 1;
    }
  }

  /** EncodeUnionWithProofs: slot i is the OR encoding of "min + i occurs". */
  method EncodeUnionWithProofs(input: seq<int>, min: int, max: int, sigs: Option<seq<seq<PublishSignature>>>, lu: seq<RangeBound>, draws: nat -> nat -> int)
    returns (enc: seq<CipherText>, clear: seq<int>, proofs: seq<Option<CreateProof>>)
    requires max - min + 1 >= 0 && InRange(input, min, max)
    requires sigs.Some? ==> ProofInputsCover(sigs.value, lu, max - min + 1)
    ensures SlotsHold(enc, clear, proofs, OccurrenceBits(input, min, max - min + 1), sigs, lu, draws, true)
    ensures sigs.Some? ==> forall i :: 0 <= i < |clear| ==> (clear[i] == 1 <==> min + i in input)
  {
    enc, clear, proofs := EncodeIndicator(input, min, max, sigs, lu, draws, true);
    forall i | 0 <= i < |clear|
      ensures sigs.Some? ==> (clear[i] == 1 <==> min + i in input)
    {
      assert SlotHolds(enc, clear, proofs, i, OccurrenceBits(input, min, max - min + 1)[i], sigs, lu, draws, true);
    }
  }

  /** EncodeInterWithProofs: slot i is the AND encoding of "min + i occurs". */
  method EncodeInterWithProofs(input: seq<int>, min: int, max: int, sigs: Option<seq<seq<PublishSignature>>>, lu: seq<RangeBound>, draws: nat -> nat -> int)
    returns (enc: seq<CipherText>, clear: seq<int>, proofs: seq<Option<CreateProof>>)
    requires max - min + 1 >= 0 && InRange(input, min, max)
    requires sigs.Some? ==> ProofInputsCover(sigs.value, lu, max - min + 1)
    ensures SlotsHold(enc, clear, proofs, OccurrenceBits(input, min, max - min + 1), sigs, lu, draws, false)
    ensures sigs.Some? ==> forall i :: 0 <= i < |clear| ==> (clear[i] == 0 <==> min + i in input)
  {
    enc, clear, proofs := EncodeIndicator(input, min, max, sigs, lu, draws, false);
    forall i | 0 <= i < |clear|
      ensures sigs.Some? ==> (clear[i] == 0 <==> min + i in input)
    {
      assert SlotHolds(enc, clear, proofs, i, OccurrenceBits(input, min, max - min + 1)[i], sigs, lu, draws, false);
    }
  }

  /** EncodeUnion: no signatures, so every clear value is 0 and set bits are the slot's first random draw. */
  method EncodeUnion(input: seq<int>, min: int, max: int, draws: nat -> nat -> int)
    returns (enc: seq<CipherText>, clear: seq<int>)
    requires max - min + 1 >= 0 && InRange(input, min, max)
    ensures |enc| == |clear| == max - min + 1
    ensures forall i :: 0 <= i < |enc| ==>
      enc[i] == CipherText(OrPlain(min + i in input, false, draws(i))) && clear[i] == 0
  {
    var proofs;
    enc, clear, proofs := EncodeUnionWithProofs(input, min, max, None, [], draws);
    forall i | 0 <= i < |enc|
      ensures enc[i] == CipherText(OrPlain(min + i in input, false, draws(i))) && clear[i] == 0
    {
      assert SlotHolds(enc, clear, proofs, i, OccurrenceBits(input, min, max - min + 1)[i], None, [], draws, true);
    }
  }

  /** EncodeInter: no signatures, so every clear value is 1 and clear bits are the slot's first random draw. */
  method EncodeInter(input: seq<int>, min: int, max: int, draws: nat -> nat -> int)
    returns (enc: seq<CipherText>, clear: seq<int>)
    requires max - min + 1 >= 0 && InRange(input, min, max)
    ensures |enc| == |clear| == max - min + 1
    ensures forall i :: 0 <= i < |enc| ==>
      enc[i] == CipherText(AndPlain(min + i in input, false, draws(i))) && clear[i] == 1
  {
    var proofs;
    enc, clear, proofs := EncodeInterWithProofs(input, min, max, None, [], draws);
    forall i | 0 <= i < |enc|
      ensures enc[i] == CipherText(AndPlain(min + i in input, false, draws(i))) && clear[i] == 1
    {
      assert SlotHolds(enc, clear, proofs, i, OccurrenceBits(input, min, max - min + 1)[i], None, [], draws, false);
    }
  }

  /** DecodeUnion: 1 where the OR bit decodes as set, 0 elsewhere. */
  method DecodeUnion(result: seq<CipherText>) returns (output: seq<int>)
    ensures |output| == |result|
    ensures forall i :: 0 <= i < |result| ==> output[i] == if DecodeBitOr(result[i]) then 1 else 0
  {
    output := [];
    var i := 0;
    while i < |result|
      invariant 0 <= i <= |result| && |output| == i
      invariant forall k :: 0 <= k < i ==> output[k] == if DecodeBitOr(result[k]) then 1 else 0
    {
      output := output + [if DecodeBitOr(result[i]) then 1 else 0];
      i := i + 1;
    }
  }

  /** DecodeInter: 1 where the AND bit decodes as set, 0 elsewhere. */
  method DecodeInter(result: seq<CipherText>) returns (output: seq<int>)
    ensures |output| == |result|
    ensures forall i :: 0 <= i < |result| ==> output[i] == if DecodeBitAnd(result[i]) then 1 else 0
  {
    output := [];
    var i := 0;
    while i < |result|
      invariant 0 <= i <= |result| && |output| == i
      invariant forall k :: 0 <= k < i ==> output[k] == if DecodeBitAnd(result[k]) then 1 else 0
    {
      output := output + [if DecodeBitAnd(result[i]) then 1 else 0];
      i := i + 1;
    }
  }

  /** Every slot's first draw, the scalar its encoder keeps, is non-zero. */
  predicate DrawsUsable(draws: nat -> nat -> int, n: nat)
  {
    forall i :: 0 <= i < n ==> draws(i)(0) != 0
  }

  /**
   * For a single provider, the decoded union and intersection slots are
   * both 1 exactly at the values that occur in the input: with signatures
   * always, and without them when each slot's first draw is non-zero.
   */
  lemma DecodedSlotsAreIndicator(enc: seq<CipherText>, clear: seq<int>, proofs: seq<Option<CreateProof>>,
                                 input: seq<int>, min: int, n: nat,
                                 sigs: Option<seq<seq<PublishSignature>>>, lu: seq<RangeBound>, draws: nat -> nat -> int, isOr: bool)
    requires sigs.Some? ==> ProofInputsCover(sigs.value, lu, n)
    requires SlotsHold(enc, clear, proofs, OccurrenceBits(input, min, n), sigs, lu, draws, isOr)
    requires sigs.Some? || DrawsUsable(draws, n)
    ensures forall i :: 0 <= i < n ==>
      (if isOr then DecodeBitOr(enc[i]) else DecodeBitAnd(enc[i])) == (min + i in input)
  {
    forall i | 0 <= i < n
      ensures (if isOr then DecodeBitOr(enc[i]) else DecodeBitAnd(enc[i])) == (min + i in input)
    {
      assert SlotHolds(enc, clear, proofs, i, OccurrenceBits(input, min, n)[i], sigs, lu, draws, isOr);
      DecodeEncodedBit(min + i in input, sigs.Some?, draws(i));
    }
  }
}
