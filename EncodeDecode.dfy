/**
 * The per-operation dispatch of a data provider's encoder and the
 * querier's decoder (lib/encoding/encode_decode.go). Proofs are prepared
 * only when both the range list and the signature matrix are non-empty;
 * an unknown operation encodes to three empty vectors and decodes by
 * decrypting every ciphertext.
 */
module EncodeDecode {
  import opened Common
  import opened Seqs
  import opened RangeProof
  import opened Encoding
  import opened OrAnd
  import SumEncoding
  import MeanEncoding
  import VarianceEncoding
  import CosimEncoding
  import LinearRegressionDims
  import FrequencyCount
  import SetUnionIntersection
  import MinMax
  import ModelEvaluation

  /** Encode prepares proofs iff ranges and signatures are both non-empty. */
  predicate WithProofs(signatures: seq<seq<PublishSignature>>, ranges: seq<RangeBound>)
  {
    |ranges| > 0 && |signatures| > 0
  }

  /** lin_reg reads d columns of equal length (the last one is y), at least one record long. */
  predicate LinRegInput(datas: seq<seq<int>>)
  {
    |datas| >= 1 && |datas[0]| >= 1 && forall i :: 0 <= i < |datas| ==> |datas[i]| >= |datas[0]|
  }

  /** What each operation's encoder demands of the columns, signatures and ranges. */
  predicate EncodeDefined(datas: seq<seq<int>>, signatures: seq<seq<PublishSignature>>, ranges: seq<RangeBound>, op: Operation)
  {
    var wp := WithProofs(signatures, ranges);
    var n := op.queryMax - op.queryMin + 1;
    match Kind(op.nameOp)
    case SumOp => |datas| >= 1
    case CosimOp => |datas| >= 2 && |datas[1]| >= |datas[0]| && (wp ==> ProofInputsCover(signatures, ranges, 5))
    case MeanOp => |datas| >= 1 && (wp ==> ProofInputsCover(signatures, ranges, 2))
    case VarianceOp => |datas| >= 1 && (wp ==> ProofInputsCover(signatures, ranges, 3))
    case LinRegOp =>
      LinRegInput(datas) && (wp ==> ProofInputsCover(signatures, ranges, LinearRegressionDims.TupleLength(|datas| - 1)))
    case FreqCountOp | UnionOp | InterOp =>
      |datas| >= 1 && n >= 0 && InRange(datas[0], op.queryMin, op.queryMax) && (wp ==> ProofInputsCover(signatures, ranges, n))
    case MinOp | MaxOp => |datas| >= 1 && |datas[0]| >= 1 && n >= 0 && (wp ==> ProofInputsCover(signatures, ranges, n))
    case BoolAndOp | BoolOrOp => |datas| >= 1 && |datas[0]| >= 1
    case MLevalOp => |datas| >= 2 && |datas[1]| >= |datas[0]| && (wp ==> ProofInputsCover(signatures, ranges, 4))
    case LogRegOp | UnknownOp => true
  }

  /** lin_reg features: record j is [datas[0][j], ..., datas[d−2][j]]. */
  function Features(datas: seq<seq<int>>): (x: seq<seq<int>>)
    requires LinRegInput(datas)
    ensures |x| == |datas[0]|
    ensures forall j :: 0 <= j < |x| ==> |x[j]| == |datas| - 1 && forall i :: 0 <= i < |datas| - 1 ==> x[j][i] == datas[i][j]
  {
    seq(|datas[0]|, j requires 0 <= j < |datas[0]| =>
      seq(|datas| - 1, i requires 0 <= i < |datas| - 1 => datas[i][j]))
  }

  /** lin_reg targets: y_j is datas[d−1][j]. */
  function Targets(datas: seq<seq<int>>): (y: seq<int>)
    requires LinRegInput(datas)
    ensures |y| == |datas[0]| && forall j :: 0 <= j < |y| ==> y[j] == datas[|datas| - 1][j]
  {
    seq(|datas[0]|, j requires 0 <= j < |datas[0]| => datas[|datas| - 1][j])
  }

  /** The lin_reg transposition: one record per value index, the last column split off as y. */
  method Transpose(datas: seq<seq<int>>) returns (dataDimensions: seq<seq<int>>, dataYS: seq<int>)
    requires LinRegInput(datas)
    ensures dataDimensions == Features(datas) && dataYS == Targets(datas)
  {
    var d := |datas|;
    var numbValues := |datas[0]|;
    dataDimensions := [];
    dataYS := [];
    var j := 0;
    while j < numbValues
      invariant 0 <= j <= numbValues
      invariant dataDimensions == Features(datas)[..j] && dataYS == Targets(datas)[..j]
    {
      var row := [];
      var i := 0;
      while i < d - 1
        invariant 0 <= i <= d - 1 && |row| == i
        invariant forall k :: 0 <= k < i ==> row[k] == datas[k][j]
      {
        row := row + [datas[i][j]];
        i := i + 1;
      }
      assert row == Features(datas)[j];
      assert Features(datas)[..j + 1] == Features(datas)[..j] + [row];
      assert Targets(datas)[..j + 1] == Targets(datas)[..j] + [datas[d - 1][j]];
      dataDimensions := dataDimensions + [row];
      dataYS := dataYS + [datas[d - 1][j]];
      j := j + 1;
    }
  }

  /** The proof requests of a vector encoder, present only with proofs. */
  function Requests(clear: seq<int>, enc: seq<CipherText>, signatures: seq<seq<PublishSignature>>, ranges: seq<RangeBound>, wp: bool): seq<CreateProof>
    requires |enc| == |clear| && (wp ==> ProofInputsCover(signatures, ranges, |clear|))
  {
    if wp then ProofRequests(clear, enc, signatures, ranges) else []
  }

  /**
   * The one-bit-per-slot layout shared by union, inter, min and max:
   * slot i encodes bits[i], and with proofs it carries the request built
   * from column i of the signatures and range i.
   */
  predicate BitSlots(enc: seq<CipherText>, clear: seq<int>, proofs: seq<CreateProof>, bits: seq<bool>, wp: bool,
                     signatures: seq<seq<PublishSignature>>, ranges: seq<RangeBound>, draws: nat -> nat -> int, isOr: bool)
    requires wp ==> ProofInputsCover(signatures, ranges, |bits|)
  {
    |enc| == |bits| && |clear| == |bits| && |proofs| == (if wp then |bits| else 0) &&
    forall i :: 0 <= i < |bits| ==>
      enc[i].plain == SetUnionIntersection.SlotPlain(bits[i], wp, draws(i), isOr) &&
      clear[i] == SetUnionIntersection.SlotClear(bits[i], wp, isOr) &&
      (wp ==> proofs[i] == CreateProof(Column(signatures, i), ranges[i].u, ranges[i].l, clear[i], enc[i]))
  }

  function Unwrap(ps: seq<Option<CreateProof>>): (r: seq<CreateProof>)
    requires forall i :: 0 <= i < |ps| ==> ps[i].Some?
    ensures |r| == |ps| && forall i :: 0 <= i < |ps| ==> Some(r[i]) == ps[i]
  {
    seq(|ps|, i requires 0 <= i < |ps| => ps[i].value)
  }

  /** A slot vector built with signatures carries a request in every slot. */
  lemma SlotsWithProofs(enc: seq<CipherText>, clear: seq<int>, ps: seq<Option<CreateProof>>, bits: seq<bool>,
                        signatures: seq<seq<PublishSignature>>, ranges: seq<RangeBound>, draws: nat -> nat -> int, isOr: bool)
    requires ProofInputsCover(signatures, ranges, |bits|)
    requires SetUnionIntersection.SlotsHold(enc, clear, ps, bits, Some(signatures), ranges, draws, isOr)
    ensures forall i :: 0 <= i < |ps| ==> ps[i].Some?
    ensures BitSlots(enc, clear, Unwrap(ps), bits, true, signatures, ranges, draws, isOr)
  {
    forall i | 0 <= i < |bits|
      ensures ps[i].Some? && ps[i] == Some(CreateProof(Column(signatures, i), ranges[i].u, ranges[i].l, clear[i], enc[i]))
    {
      assert SetUnionIntersection.SlotHolds(enc, clear, ps, i, bits[i], Some(signatures), ranges, draws, isOr);
    }
  }

  /**
   * What Encode returns for each operation: the encrypted and clear
   * responses of that operation's encoder and, with proofs, one request
   * per encrypted value. logreg and unknown operations return nothing.
   */
  predicate Encoded(datas: seq<seq<int>>, signatures: seq<seq<PublishSignature>>, ranges: seq<RangeBound>, op: Operation,
                    draws: nat -> nat -> int, enc: seq<CipherText>, clear: seq<int>, proofs: seq<CreateProof>)
    requires EncodeDefined(datas, signatures, ranges, op)
  {
    var wp := WithProofs(signatures, ranges);
    var n := op.queryMax - op.queryMin + 1;
    match Kind(op.nameOp)
    case SumOp =>
      Plains(enc) == [Sum(datas[0])] && clear == [Sum(datas[0])] &&
      proofs == (if wp then [CreateProof(signatures[0], ranges[0].u, ranges[0].l, Sum(datas[0]), enc[0])] else [])
    case MeanOp =>
      clear == [Sum(datas[0]), |datas[0]|] && Plains(enc) == clear && proofs == Requests(clear, enc, signatures, ranges, wp)
    case VarianceOp =>
      clear == [Sum(datas[0]), |datas[0]|, SumSquares(datas[0])] && Plains(enc) == clear &&
      proofs == Requests(clear, enc, signatures, ranges, wp)
    case CosimOp =>
      clear == CosimEncoding.CosimSums(datas[0], datas[1]) && Plains(enc) == clear &&
      proofs == Requests(clear, enc, signatures, ranges, wp)
    case LinRegOp =>
      Plains(enc) == LinearRegressionDims.Tuple(Features(datas), Targets(datas), |datas| - 1) && clear == [0] &&
      proofs == Requests(Plains(enc), enc, signatures, ranges, wp)
    case FreqCountOp =>
      Plains(enc) == FrequencyCount.Histogram(datas[0], op.queryMin, op.queryMax) && clear == [0] &&
      proofs == Requests(Plains(enc), enc, signatures, ranges, wp)
    case BoolOrOp =>
      |enc| == 1 && enc[0].plain == OrPlain(datas[0][0] == 1, wp, draws(0)) &&
      clear == [SetUnionIntersection.SlotClear(datas[0][0] == 1, wp, true)] &&
      proofs == (if wp then [CreateProof(signatures[0], ranges[0].u, ranges[0].l, clear[0], enc[0])] else [])
    case BoolAndOp =>
      |enc| == 1 && enc[0].plain == AndPlain(datas[0][0] == 1, wp, draws(0)) &&
      clear == [SetUnionIntersection.SlotClear(datas[0][0] == 1, wp, false)] &&
      proofs == (if wp then [CreateProof(signatures[0], ranges[0].u, ranges[0].l, clear[0], enc[0])] else [])
    case UnionOp =>
      BitSlots(enc, clear, proofs, SetUnionIntersection.OccurrenceBits(datas[0], op.queryMin, n), wp, signatures, ranges, draws, true)
    case InterOp =>
      BitSlots(enc, clear, proofs, SetUnionIntersection.OccurrenceBits(datas[0], op.queryMin, n), wp, signatures, ranges, draws, false)
    case MinOp =>
      BitSlots(enc, clear, proofs, MinMax.ThresholdBits(MinMax.Minimum(datas[0]), op.queryMin, n), wp, signatures, ranges, draws, true)
    case MaxOp =>
      BitSlots(enc, clear, proofs, MinMax.ThresholdBits(MinMax.Maximum(datas[0]), op.queryMin, n), wp, signatures, ranges, draws, false)
    case MLevalOp =>
      Plains(enc) == ModelEvaluation.EvaluationSums(datas[0], datas[1]) && clear == [0] &&
      proofs == Requests(Plains(enc), enc, signatures, ranges, wp)
    case LogRegOp | UnknownOp => enc == [] && clear == [] && proofs == []
  }

  /** The sum, mean, variance and cosim encoders, with or without proofs. */
  method EncodeStatistic(datas: seq<seq<int>>, signatures: seq<seq<PublishSignature>>, ranges: seq<RangeBound>, op: Operation, draws: nat -> nat -> int)
    returns (enc: seq<CipherText>, clear: seq<int>, proofs: seq<CreateProof>)
    requires Kind(op.nameOp) in {SumOp, MeanOp, VarianceOp, CosimOp} && EncodeDefined(datas, signatures, ranges, op)
    ensures Encoded(datas, signatures, ranges, op, draws, enc, clear, proofs)
  {
    var wp := |ranges| > 0 && |signatures| > 0;
    var sigs: Option<seq<seq<PublishSignature>>> := if wp then Some(signatures) else None;
    var ps;
    proofs := [];
    match Kind(op.nameOp)
    case SumOp =>
      var c, p;
      if wp {
        c, clear, p := SumEncoding.EncodeSumWithProofs(datas[0], Some(signatures[0]), ranges[0].l, ranges[0].u);
        proofs := p.value;
      } else {
        c, clear := SumEncoding.EncodeSum(datas[0]);
      }
      enc := [c];
    case CosimOp =>
      enc, clear, ps := CosimEncoding.EncodeCosimWithProofs(datas[0], datas[1], sigs, ranges);
      if wp { proofs := ps.value; }
    case MeanOp =>
      enc, clear, ps := MeanEncoding.EncodeMeanWithProofs(datas[0], sigs, ranges);
      if wp { proofs := ps.value; }
    case VarianceOp =>
      enc, clear, ps := VarianceEncoding.EncodeVarianceWithProofs(datas[0], sigs, ranges);
      if wp { proofs := ps.value; }
  }

  /** The lin_reg, frequencyCount and MLeval encoders, with or without proofs. */
  method EncodeVector(datas: seq<seq<int>>, signatures: seq<seq<PublishSignature>>, ranges: seq<RangeBound>, op: Operation, draws: nat -> nat -> int)
    returns (enc: seq<CipherText>, clear: seq<int>, proofs: seq<CreateProof>)
    requires Kind(op.nameOp) in {LinRegOp, FreqCountOp, MLevalOp} && EncodeDefined(datas, signatures, ranges, op)
    ensures Encoded(datas, signatures, ranges, op, draws, enc, clear, proofs)
  {
    var wp := |ranges| > 0 && |signatures| > 0;
    var sigs: Option<seq<seq<PublishSignature>>> := if wp then Some(signatures) else None;
    var ps;
    proofs := [];
    match Kind(op.nameOp)
    case LinRegOp =>
      var dataDimensions, dataYS := Transpose(datas);
      enc, clear, ps := LinearRegressionDims.EncodeLinearRegressionDimsWithProofs(dataDimensions, dataYS, sigs, ranges);
      if wp { proofs := ps.value; }
    case FreqCountOp =>
      enc, clear, ps := FrequencyCount.EncodeFreqCountWithProofs(datas[0], op.queryMin, op.queryMax, sigs, ranges);
      if wp { proofs := ps.value; }
    case MLevalOp =>
      enc, clear, ps := ModelEvaluation.EncodeModelEvaluationWithProofs(datas[0], datas[1], sigs, ranges);
      if wp { proofs := ps.value; }
  }

  /** bool_AND and bool_OR: the provider's first value, 1 or not, as one encoded bit. */
  method EncodeBoolean(datas: seq<seq<int>>, signatures: seq<seq<PublishSignature>>, ranges: seq<RangeBound>, op: Operation, draws: nat -> nat -> int)
    returns (enc: seq<CipherText>, clear: seq<int>, proofs: seq<CreateProof>)
    requires Kind(op.nameOp) in {BoolAndOp, BoolOrOp} && EncodeDefined(datas, signatures, ranges, op)
    ensures Encoded(datas, signatures, ranges, op, draws, enc, clear, proofs)
  {
    var wp := |ranges| > 0 && |signatures| > 0;
    var booleanBit := datas[0][0] == 1;
    var c, clr, cp;
    var sig := if wp then Some(signatures[0]) else None;
    var l := if wp then ranges[0].l else 0;
    var u := if wp then ranges[0].u else 0;
    if Kind(op.nameOp) == BoolAndOp {
      c, clr, cp := EncodeBitAndWithProof(booleanBit, sig, l, u, draws(0));
    } else {
      c, clr, cp := EncodeBitOrWithProof(booleanBit, sig, l, u, draws(0));
    }
    proofs := if wp then [cp.value] else [];
    enc, clear := [c], [clr];
  }

  /** min and max: one threshold bit per value of the query range. */
  method EncodeExtreme(datas: seq<seq<int>>, signatures: seq<seq<PublishSignature>>, ranges: seq<RangeBound>, op: Operation, draws: nat -> nat -> int)
    returns (enc: seq<CipherText>, clear: seq<int>, proofs: seq<CreateProof>)
    requires Kind(op.nameOp) in {MinOp, MaxOp} && EncodeDefined(datas, signatures, ranges, op)
    ensures Encoded(datas, signatures, ranges, op, draws, enc, clear, proofs)
  {
    var wp := |ranges| > 0 && |signatures| > 0;
    var sigs: Option<seq<seq<PublishSignature>>> := if wp then Some(signatures) else None;
    var isMin := Kind(op.nameOp) == MinOp;
    var ps;
    if isMin {
      enc, clear, ps := MinMax.EncodeMinWithProofs(datas[0], op.queryMax, op.queryMin, sigs, ranges, draws);
    } else {
      enc, clear, ps := MinMax.EncodeMaxWithProofs(datas[0], op.queryMax, op.queryMin, sigs, ranges, draws);
    }
    var bits := MinMax.ThresholdBits(if isMin then MinMax.Minimum(datas[0]) else MinMax.Maximum(datas[0]),
                                     op.queryMin, op.queryMax - op.queryMin + 1);
    proofs := SlotRequests(enc, clear, ps, bits, signatures, ranges, draws, isMin);
  }

  /** The requests of a slot vector: one per slot with signatures and ranges, none otherwise. */
  method SlotRequests(enc: seq<CipherText>, clear: seq<int>, ps: seq<Option<CreateProof>>, bits: seq<bool>,
                      signatures: seq<seq<PublishSignature>>, ranges: seq<RangeBound>, draws: nat -> nat -> int, isOr: bool)
    returns (proofs: seq<CreateProof>)
    requires WithProofs(signatures, ranges) ==> ProofInputsCover(signatures, ranges, |bits|)
    requires SetUnionIntersection.SlotsHold(enc, clear, ps, bits, if WithProofs(signatures, ranges) then Some(signatures) else None,
                                           ranges, draws, isOr)
    ensures BitSlots(enc, clear, proofs, bits, WithProofs(signatures, ranges), signatures, ranges, draws, isOr)
  {
    if WithProofs(signatures, ranges) {
      SlotsWithProofs(enc, clear, ps, bits, signatures, ranges, draws, isOr);
      proofs := Unwrap(ps);
    } else {
      NoProofSlots(enc, clear, ps, bits, signatures, ranges, draws, isOr);
      proofs := [];
    }
  }

  /** union and inter: one occurrence bit per value of the query range. */
  method EncodeSet(datas: seq<seq<int>>, signatures: seq<seq<PublishSignature>>, ranges: seq<RangeBound>, op: Operation, draws: nat -> nat -> int)
    returns (enc: seq<CipherText>, clear: seq<int>, proofs: seq<CreateProof>)
    requires Kind(op.nameOp) in {UnionOp, InterOp} && EncodeDefined(datas, signatures, ranges, op)
    ensures Encoded(datas, signatures, ranges, op, draws, enc, clear, proofs)
  {
    var wp := |ranges| > 0 && |signatures| > 0;
    var sigs: Option<seq<seq<PublishSignature>>> := if wp then Some(signatures) else None;
    var isUnion := Kind(op.nameOp) == UnionOp;
    var ps;
    if isUnion {
      enc, clear, ps := SetUnionIntersection.EncodeUnionWithProofs(datas[0], op.queryMin, op.queryMax, sigs, ranges, draws);
    } else {
      enc, clear, ps := SetUnionIntersection.EncodeInterWithProofs(datas[0], op.queryMin, op.queryMax, sigs, ranges, draws);
    }
    var bits := SetUnionIntersection.OccurrenceBits(datas[0], op.queryMin, op.queryMax - op.queryMin + 1);
    proofs := SlotRequests(enc, clear, ps, bits, signatures, ranges, draws, isUnion);
  }

  /**
   * Encode: runs the operation's encoder on the provider's columns. The
   * random scalars of the OR/AND encodings come from `draws` (slot i
   * uses draws(i); a single bit uses draws(0)).
   */
  method Encode(datas: seq<seq<int>>, signatures: seq<seq<PublishSignature>>, ranges: seq<RangeBound>, op: Operation, draws: nat -> nat -> int)
    returns (enc: seq<CipherText>, clear: seq<int>, proofs: seq<CreateProof>)
    requires EncodeDefined(datas, signatures, ranges, op)
    ensures Encoded(datas, signatures, ranges, op, draws, enc, clear, proofs)
    ensures !WithProofs(signatures, ranges) ==> proofs == []
  {
    match Kind(op.nameOp)
    case SumOp | MeanOp | VarianceOp | CosimOp =>
      enc, clear, proofs := EncodeStatistic(datas, signatures, ranges, op, draws);
    case LinRegOp | FreqCountOp | MLevalOp =>
      enc, clear, proofs := EncodeVector(datas, signatures, ranges, op, draws);
    case BoolAndOp | BoolOrOp =>
      enc, clear, proofs := EncodeBoolean(datas, signatures, ranges, op, draws);
    case MinOp | MaxOp =>
      enc, clear, proofs := EncodeExtreme(datas, signatures, ranges, op, draws);
    case UnionOp | InterOp =>
      enc, clear, proofs := EncodeSet(datas, signatures, ranges, op, draws);
    case LogRegOp | UnknownOp =>
      enc, clear, proofs := [], [], [];
  }

  /** A slot vector built without signatures carries no requests. */
  lemma NoProofSlots(enc: seq<CipherText>, clear: seq<int>, ps: seq<Option<CreateProof>>, bits: seq<bool>,
                     signatures: seq<seq<PublishSignature>>, ranges: seq<RangeBound>, draws: nat -> nat -> int, isOr: bool)
    requires SetUnionIntersection.SlotsHold(enc, clear, ps, bits, None, ranges, draws, isOr)
    ensures BitSlots(enc, clear, [], bits, false, signatures, ranges, draws, isOr)
  {
    forall i | 0 <= i < |bits|
      ensures enc[i].plain == SetUnionIntersection.SlotPlain(bits[i], false, draws(i), isOr)
      ensures clear[i] == SetUnionIntersection.SlotClear(bits[i], false, isOr)
    {
      assert SetUnionIntersection.SlotHolds(enc, clear, ps, i, bits[i], None, ranges, draws, isOr);
    }
  }

  /** Which float encoder EncodeForFloat runs. */
  datatype FloatEncoder = NoEncoder | LogisticRegression | LogisticRegressionWithProofs

  /**
   * EncodeForFloat handles "logreg" only, and prepares proofs as soon as
   * ranges are given, whatever the signatures; any other operation
   * returns empty outputs.
   */
  function EncodeForFloat(operation: string, ranges: seq<RangeBound>): (e: FloatEncoder)
    ensures e == NoEncoder <==> operation != "logreg"
    ensures e == LogisticRegressionWithProofs <==> operation == "logreg" && |ranges| > 0
  {
    if operation != "logreg" then NoEncoder
    else if |ranges| > 0 then LogisticRegressionWithProofs
    else LogisticRegression
  }

  /**
   * The decoded result: one value per output, None where Go's float
   * arithmetic yields an infinity or NaN (a division by zero). cosim,
   * lin_reg and logreg end in floating-point post-processing (a square
   * root, Gaussian elimination, the logistic model) that is not modelled.
   */
  datatype Decoded = Values(values: seq<Option<real>>) | FloatPostProcessing

  /** Every decrypted integer as a float, in order. */
  function AsReals(xs: seq<int>): (r: seq<Option<real>>)
    ensures |r| == |xs| && forall i :: 0 <= i < |xs| ==> r[i] == Some(xs[i] as real)
  {
    seq(|xs|, i requires 0 <= i < |xs| => Some(xs[i] as real))
  }

  /** The float conversion loops of Decode. */
  method ToFloats(xs: seq<int>) returns (result: seq<Option<real>>)
    ensures result == AsReals(xs)
  {
    result := [];
    var i := 0;
    while i < |xs|
      invariant 0 <= i <= |xs| && result == AsReals(xs)[..i]
    {
      assert AsReals(xs)[..i + 1] == AsReals(xs)[..i] + [Some(xs[i] as real)];
      result := result + [Some(xs[i] as real)];
      i := i + 1;
    }
  }

  /** What each decoder demands of the ciphertext vector. */
  predicate DecodeDefined(ciphers: seq<CipherText>, op: Operation)
  {
    if Kind(op.nameOp) in {SumOp, BoolAndOp, BoolOrOp} then |ciphers| >= 1
    else if Kind(op.nameOp) == MeanOp then |ciphers| >= 2
    else if Kind(op.nameOp) == VarianceOp then |ciphers| >= 3
    else if Kind(op.nameOp) == MLevalOp then |ciphers| >= 4 && ciphers[0].plain != 0
    else true
  }

  /** Decode: runs the operation's decoder; an unknown operation decrypts every element. */
  method Decode(ciphers: seq<CipherText>, op: Operation) returns (result: Decoded)
    requires DecodeDefined(ciphers, op)
    ensures Kind(op.nameOp) in {CosimOp, LinRegOp, LogRegOp} <==> result == FloatPostProcessing
    ensures Kind(op.nameOp) == SumOp ==> result == Values([Some(ciphers[0].plain as real)])
    ensures Kind(op.nameOp) == MeanOp ==> result == Values([MeanEncoding.DecodeMean(ciphers)])
    ensures Kind(op.nameOp) == VarianceOp ==> result == Values([VarianceEncoding.DecodeVariance(ciphers)])
    ensures Kind(op.nameOp) == MLevalOp ==> result == Values([ModelEvaluation.DecodeModelEvaluation(ciphers)])
    ensures Kind(op.nameOp) == MinOp ==>
      result == Values([Some(MinMax.Decoded(MinMax.DecodedBits(ciphers, true), op.queryMin) as real)])
    ensures Kind(op.nameOp) == MaxOp ==>
      result == Values([Some(MinMax.Decoded(MinMax.DecodedBits(ciphers, false), op.queryMin) as real)])
    ensures Kind(op.nameOp) == BoolOrOp ==> result == Values([Some(if DecodeBitOr(ciphers[0]) then 1.0 else 0.0)])
    ensures Kind(op.nameOp) == BoolAndOp ==> result == Values([Some(if DecodeBitAnd(ciphers[0]) then 1.0 else 0.0)])
    ensures Kind(op.nameOp) == UnionOp ==> (result.Values? && |result.values| == |ciphers| &&
      forall i :: 0 <= i < |ciphers| ==> result.values[i] == Some(if DecodeBitOr(ciphers[i]) then 1.0 else 0.0))
    ensures Kind(op.nameOp) == InterOp ==> (result.Values? && |result.values| == |ciphers| &&
      forall i :: 0 <= i < |ciphers| ==> result.values[i] == Some(if DecodeBitAnd(ciphers[i]) then 1.0 else 0.0))
    ensures Kind(op.nameOp) in {FreqCountOp, UnknownOp} ==>
      result == Values(AsReals(Plains(ciphers)))
  {
    if Kind(op.nameOp) == SumOp {
      result := Values([Some(SumEncoding.DecodeSum(ciphers[0]) as real)]);
    } else if Kind(op.nameOp) in {CosimOp, LinRegOp, LogRegOp} {
      result := FloatPostProcessing;
    } else if Kind(op.nameOp) == MeanOp {
      result := Values([MeanEncoding.DecodeMean(ciphers)]);
    } else if Kind(op.nameOp) == VarianceOp {
      result := Values([VarianceEncoding.DecodeVariance(ciphers)]);
    } else if Kind(op.nameOp) == FreqCountOp {
      var freqCount := FrequencyCount.DecodeFreqCount(ciphers);
      var values := ToFloats(freqCount);
      result := Values(values);
    } else if Kind(op.nameOp) == MinOp {
      var min := MinMax.DecodeMin(ciphers, op.queryMin);
      result := Values([Some(min as real)]);
    } else if Kind(op.nameOp) == MaxOp {
      var max := MinMax.DecodeMax(ciphers, op.queryMin);
      result := Values([Some(max as real)]);
    } else if Kind(op.nameOp) == BoolAndOp {
      result := Values([Some(if DecodeBitAnd(ciphers[0]) then 1.0 else 0.0)]);
    } else if Kind(op.nameOp) == BoolOrOp {
      result := Values([Some(if DecodeBitOr(ciphers[0]) then 1.0 else 0.0)]);
    } else if Kind(op.nameOp) == UnionOp {
      var unionSet := SetUnionIntersection.DecodeUnion(ciphers);
      var values := ToFloats(unionSet);
      result := Values(values);
    } else if Kind(op.nameOp) == InterOp {
      var interSet := SetUnionIntersection.DecodeInter(ciphers);
      var values := ToFloats(interSet);
      result := Values(values);
    } else if Kind(op.nameOp) == MLevalOp {
      result := Values([ModelEvaluation.DecodeModelEvaluation(ciphers)]);
    } else {
      var temp := Plains(ciphers);
      var values := ToFloats(temp);
      result := Values(values);
    }
  }
}
