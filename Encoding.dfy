/**
 * The two steps every vector encoder of lib/encoding shares: encrypting a
 * clear vector entry by entry, and preparing one range-proof request per
 * entry from column i of the signature matrix and range bound i.
 */
module Encoding {
  import opened Common
  import opened RangeProof

  /** Encrypts every clear value into the slot of the same index. */
  method EncryptValues(clear: seq<int>) returns (enc: seq<CipherText>)
    ensures |enc| == |clear|
    ensures forall i :: 0 <= i < |clear| ==> enc[i] == CipherText(clear[i])
  {
    enc := [];
    var i := 0;
    while i < |clear|
      invariant 0 <= i <= |clear| && |enc| == i
      invariant forall k :: 0 <= k < i ==> enc[k] == CipherText(clear[k])
    {
      enc := enc + [CipherText(clear[i])];
      i := i + 1;
    }
  }

  /** Every input value lies in [min, max]. */
  predicate InRange(input: seq<int>, min: int, max: int)
  {
    forall k :: 0 <= k < |input| ==> min <= input[k] <= max
  }

  /** Signature matrix and range list are large enough for `n` proofs. */
  predicate ProofInputsCover(sigs: seq<seq<PublishSignature>>, lu: seq<RangeBound>, n: nat)
  {
    |lu| >= n && forall j :: 0 <= j < |sigs| ==> |sigs[j]| >= n
  }

  /**
   * The proof request for entry i: the signatures of column i, the bounds
   * (u, l) of range i, the clear value as secret and its ciphertext.
   */
  function ProofRequests(clear: seq<int>, enc: seq<CipherText>, sigs: seq<seq<PublishSignature>>, lu: seq<RangeBound>): (cps: seq<CreateProof>)
    requires |enc| == |clear| && ProofInputsCover(sigs, lu, |clear|)
    ensures |cps| == |clear|
    ensures forall i :: 0 <= i < |clear| ==>
      cps[i] == CreateProof(Column(sigs, i), lu[i].u, lu[i].l, clear[i], enc[i])
  {
    seq(|clear|, i requires 0 <= i < |clear| => CreateProof(Column(sigs, i), lu[i].u, lu[i].l, clear[i], enc[i]))
  }

  /** Fills the proof requests index by index. */
  method BuildProofs(clear: seq<int>, enc: seq<CipherText>, sigs: seq<seq<PublishSignature>>, lu: seq<RangeBound>) returns (cps: seq<CreateProof>)
    requires |enc| == |clear| && ProofInputsCover(sigs, lu, |clear|)
    ensures cps == ProofRequests(clear, enc, sigs, lu)
  {
    cps := [];
    var i := 0;
    while i < |clear|
      invariant 0 <= i <= |clear| && |cps| == i
      invariant forall k :: 0 <= k < i ==> cps[k] == ProofRequests(clear, enc, sigs, lu)[k]
    {
      var column := ReadColumn(sigs, i);
      cps := cps + [CreateProof(column, lu[i].u, lu[i].l, clear[i], enc[i])];
      i := i + 1;
    }
  }
}
