/**
 * Encodings of one bit for the OR and AND aggregations
 * (lib/encoding/OR_AND.go). With signatures the bit is encrypted as 0 or 1
 * so that it can be range-proved; without signatures a set OR bit (or a
 * clear AND bit) is a random scalar, meant to be non-zero, so that the
 * homomorphic sum of all providers' encodings is zero exactly when no
 * provider contributed one. The random draws are the parameter `draws`:
 * draw k is the k-th scalar picked.
 */
module OrAnd {
  import opened Common

  /** Draws retried after a zero draw, on top of the first one. */
  const Retries: nat := 11

  /**
   * A scalar of the curve suite. Each `Scalar()` call of the suite hands
   * out a new object, and the encoders compare these objects with `==`,
   * which compares references, not values.
   */
  class Scalar {
    var value: int

    constructor (v: int)
      ensures value == v
    {
      value := v;
    }
  }

  /**
   * The random scalar of the encoders as written: a first draw, then a
   * retry loop whose test compares the drawn scalar object with a separate
   * zero object. Two distinct objects are never identical, so the loop
   * leaves at its first pass and the first draw is kept, even when it is
   * zero.
   */
  method PickRandomNonZero(draws: nat -> int) returns (scalar: int)
    ensures scalar == draws(0)
  {
    var randomScalar := new Scalar(0);
    var zero := new Scalar(0);
    randomScalar := new Scalar(draws(0));
    for i := 0 to Retries
      invariant randomScalar != zero && randomScalar.value == draws(0)
    {
      if randomScalar == zero {
        // the re-draw of the source: the two objects are never the same one
        assert false;
      } else {
        break;
      }
    }
    scalar := randomScalar.value;
  }

  /**
   * The scalar the retry loop evidently means to settle on, comparing
   * values: the first non-zero draw among draws k..11, or draw 11 (zero)
   * when all of them are zero.
   */
  function PickNonZero(draws: nat -> int, k: nat): int
    requires k <= Retries
    decreases Retries - k
  {
    if draws(k) != 0 || k == Retries then draws(k) else PickNonZero(draws, k + 1)
  }

  lemma {:induction false} PickNonZeroIsZeroIff(draws: nat -> int, k: nat)
    requires k <= Retries
    ensures PickNonZero(draws, k) == 0 <==> forall j :: k <= j <= Retries ==> draws(j) == 0
    decreases Retries - k
  {
    if draws(k) == 0 && k < Retries {
      PickNonZeroIsZeroIff(draws, k + 1);
    }
  }

  /** The retry loop with its test on the scalar's value: re-draws, at most 11 times, while it is zero. */
  method PickNonZeroByValue(draws: nat -> int) returns (scalar: int)
    ensures scalar == PickNonZero(draws, 0)
  {
    scalar := draws(0);
    var i := 0;
    while i <= Retries - 1
      invariant 0 <= i <= Retries
      invariant scalar == draws(i)
      invariant PickNonZero(draws, i) == PickNonZero(draws, 0)
    {
      if scalar == 0 {
        scalar := draws(i + 1);
      } else {
        break;
      }
      i := i + 1;
    }
  }

  /** Some draw among the twelve the retry loop can use is non-zero. */
  predicate SomeDrawNonZero(draws: nat -> int)
  {
    exists j :: 0 <= j <= Retries && draws(j) != 0
  }

  /**
   * With the value test, a set OR bit (or a clear AND bit) decodes as set
   * as soon as one of the twelve draws is non-zero.
   */
  lemma RetriedBitDecodes(input: bool, draws: nat -> int)
    requires SomeDrawNonZero(draws)
    ensures DecodeBitOr(CipherText(if input then PickNonZero(draws, 0) else 0)) == input
    ensures DecodeBitAnd(CipherText(if input then 0 else PickNonZero(draws, 0))) == input
  {
    PickNonZeroIsZeroIff(draws, 0);
  }

  /**
   * A first draw of zero followed by 7: the encoders as written encrypt 0
   * for a set OR bit, which decodes as unset, where the value test would
   * have re-drawn 7 and decoded it as set.
   */
  lemma ZeroFirstDrawLosesBit()
    ensures var draws := (k: nat) => if k == 0 then 0 else 7;
      !DecodeBitOr(CipherText(OrPlain(true, false, draws))) &&
      DecodeBitOr(CipherText(PickNonZero(draws, 0))) &&
      DecodeBitAnd(CipherText(AndPlain(false, false, draws)))
  {
    var draws := (k: nat) => if k == 0 then 0 else 7;
    assert PickNonZero(draws, 0) == PickNonZero(draws, 1) == 7;
  }

  /**
   * EncodeBit_ORWithProof. Without signatures the clear value stays 0 and
   * no proof request is made (Go returns a zero-valued struct: None here).
   */
  method EncodeBitOrWithProof(input: bool, sigs: Option<seq<PublishSignature>>, l: int, u: int, draws: nat -> int)
    returns (cipher: CipherText, clear: int, cp: Option<CreateProof>)
    ensures sigs.Some? ==> clear == (if input then 1 else 0) && cipher.plain == clear
                           && cp == Some(CreateProof(sigs.value, u, l, clear, cipher))
    ensures sigs.None? ==> clear == 0 && cp.None?
                           && cipher.plain == (if input then draws(0) else 0)
  {
    clear := 0;
    cp := None;
    if sigs.Some? {
      if input {
        clear := 1;
      }
      cipher := CipherText(clear);
      cp := Some(CreateProof(sigs.value, u, l, clear, cipher));
    } else {
      var scalar := 0;
      if input {
        scalar := PickRandomNonZero(draws);
      }
      cipher := CipherText(scalar);
    }
  }

  /** EncodeBit_OR: the encoding without signatures and with u = l = 0. */
  method EncodeBitOr(input: bool, draws: nat -> int) returns (cipher: CipherText, clear: int)
    ensures clear == 0
    ensures cipher.plain == (if input then draws(0) else 0)
  {
    var cp;
    cipher, clear, cp := EncodeBitOrWithProof(input, None, 0, 0, draws);
  }

  /**
   * EncodeBit_ANDWithProof: the clear value starts at 1 and becomes 0 for a
   * set bit only when signatures are given.
   */
  method EncodeBitAndWithProof(input: bool, sigs: Option<seq<PublishSignature>>, l: int, u: int, draws: nat -> int)
    returns (cipher: CipherText, clear: int, cp: Option<CreateProof>)
    ensures sigs.Some? ==> clear == (if input then 0 else 1) && cipher.plain == clear
                           && cp == Some(CreateProof(sigs.value, u, l, clear, cipher))
    ensures sigs.None? ==> clear == 1 && cp.None?
                           && cipher.plain == (if input then 0 else draws(0))
  {
    clear := 1;
    cp := None;
    if sigs.Some? {
      if input {
        clear := 0;
      }
      cipher := CipherText(clear);
      cp := Some(CreateProof(sigs.value, u, l, clear, cipher));
    } else {
      var scalar := 0;
      if !input {
        scalar := PickRandomNonZero(draws);
      }
      cipher := CipherText(scalar);
    }
  }

  /** EncodeBit_AND: the encoding without signatures and with u = l = 0. */
  method EncodeBitAnd(input: bool, draws: nat -> int) returns (cipher: CipherText, clear: int)
    ensures clear == 1
    ensures cipher.plain == (if input then 0 else draws(0))
  {
    var cp;
    cipher, clear, cp := EncodeBitAndWithProof(input, None, 0, 0, draws);
  }

  /** DecodeBit_OR: a bit is set iff its plaintext is non-zero. */
  function DecodeBitOr(result: CipherText): (bit: bool)
    ensures bit <==> result.plain != 0
  {
    result.plain != 0
  }

  /** DecodeBit_AND: a bit is set iff its plaintext is zero. */
  function DecodeBitAnd(result: CipherText): (bit: bool)
    ensures bit <==> result.plain == 0
  {
    result.plain == 0
  }

  /** The plaintext of the OR encoding, as the encoder's contract fixes it. */
  function OrPlain(input: bool, withSigs: bool, draws: nat -> int): int
  {
    if withSigs then (if input then 1 else 0) else (if input then draws(0) else 0)
  }

  /** The plaintext of the AND encoding, as the encoder's contract fixes it. */
  function AndPlain(input: bool, withSigs: bool, draws: nat -> int): int
  {
    if withSigs then (if input then 0 else 1) else (if input then 0 else draws(0))
  }

  /**
   * Decoding the OR or AND encoding of a bit gives the bit back: with
   * signatures always, and without them when the first draw, the scalar
   * the encoders keep, is non-zero.
   */
  lemma DecodeEncodedBit(input: bool, withSigs: bool, draws: nat -> int)
    requires withSigs || draws(0) != 0
    ensures DecodeBitOr(CipherText(OrPlain(input, withSigs, draws))) == input
    ensures DecodeBitAnd(CipherText(AndPlain(input, withSigs, draws))) == input
  {
  }

  /** LocalResult_OR: scans until the first true element. */
  method LocalResultOr(input: seq<bool>) returns (result: bool)
    ensures result <==> exists i :: 0 <= i < |input| && input[i]
  {
    result := false;
    var i := 0;
    while i < |input|
      invariant 0 <= i <= |input|
      invariant !result && forall k :: 0 <= k < i ==> !input[k]
    {
      if input[i] {
        result := true;
        break;
      }
      i := i + 1;
    }
  }

  /** LocalResult_AND: scans until the first false element. */
  method LocalResultAnd(input: seq<bool>) returns (result: bool)
    ensures result <==> forall i :: 0 <= i < |input| ==> input[i]
  {
    result := true;
    var i := 0;
    while i < |input|
      invariant 0 <= i <= |input|
      invariant result && forall k :: 0 <= k < i ==> input[k]
    {
      if !input[i] {
        result := false;
        break;
      }
      i := i + 1;
    }
  }
}
