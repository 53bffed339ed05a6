/**
 * The query structures shared by clients, computing nodes, data providers
 * and verifying nodes, and the checks and tables on them
 * (lib/common_structs.go). Floating-point fields are reals; a nil slice
 * or pointer is `None`.
 */
module CommonStructs {
  import opened Common
  import LinearRegressionDims

  /** The differential-privacy parameters of a query. */
  datatype QueryDiffP = QueryDiffP(lapMean: real, lapScale: real, noiseListSize: int, quanta: real, scale: real, limit: real)

  /** How data providers generate their dummy data. */
  datatype QueryDPDataGen = QueryDPDataGen(groupByValues: seq<int>, generateRows: int, generateDataMin: int, generateDataMax: int)

  /** The input-validation signatures: one row per verifying node, one entry per output. */
  datatype QueryIVSigs = QueryIVSigs(inputValidationSigs: Option<seq<seq<PublishSignature>>>, inputValidationSize1: int, inputValidationSize2: int)

  datatype Query = Query(operation: Operation, ranges: Option<seq<RangeBound>>, proofs: int, obfuscation: bool,
                         diffP: QueryDiffP, dpDataGen: QueryDPDataGen, ivSigs: QueryIVSigs,
                         rosterVNs: Option<seq<ServerIdentity>>, cuttingFactor: int)

  datatype SurveyQuery = SurveyQuery(surveyID: string, rosterServers: seq<ServerIdentity>, clientPubKey: Point,
                                     intraMessage: bool, serverToDP: map<string, Option<seq<ServerIdentity>>>,
                                     dpsUsed: seq<ServerIdentity>, query: Query, idToPublic: map<string, Point>,
                                     threshold: real, obfuscationProofThreshold: real,
                                     rangeProofThreshold: real, keySwitchingProofThreshold: real)

  /** The parameters of a query without differential privacy. */
  const NoDiffP := QueryDiffP(0.0, 0.0, 0, 0.0, 0.0, 0.0)

  /** AddDiffP: noise is added unless every parameter is zero. */
  function AddDiffP(qdf: QueryDiffP): (b: bool)
    ensures !b <==> qdf == NoDiffP
  {
    !(qdf.lapMean == 0.0 && qdf.lapScale == 0.0 && qdf.noiseListSize == 0 && qdf.quanta == 0.0 && qdf.scale == 0.0 && qdf.limit == 0.0)
  }

  /** The ranges of a query; a nil list iterates like an empty one. */
  function RangeList(ranges: Option<seq<RangeBound>>): seq<RangeBound>
  {
    if ranges.Some? then ranges.value else []
  }

  /** checkRangesZeros: every range is (0, 0), i.e. no range proof at all. */
  method CheckRangesZeros(ranges: Option<seq<RangeBound>>) returns (r: bool)
    ensures r <==> forall i :: 0 <= i < |RangeList(ranges)| ==> RangeList(ranges)[i] == RangeBound(0, 0)
    ensures ranges == None ==> r
  {
    var rs := RangeList(ranges);
    for i := 0 to |rs|
      invariant forall j :: 0 <= j < i ==> rs[j] == RangeBound(0, 0)
    {
      if rs[i].u != 0 || rs[i].l != 0 {
        return false;
      }
    }
    return true;
  }

  /** checkRangesBits: every range is (2, 1), the range of a single bit. */
  method CheckRangesBits(ranges: Option<seq<RangeBound>>) returns (r: bool)
    ensures r <==> forall i :: 0 <= i < |RangeList(ranges)| ==> RangeList(ranges)[i] == RangeBound(2, 1)
    ensures ranges == None ==> r
  {
    var rs := RangeList(ranges);
    for i := 0 to |rs|
      invariant forall j :: 0 <= j < i ==> rs[j] == RangeBound(2, 1)
    {
      if rs[i].u != 2 || rs[i].l != 1 {
        return false;
      }
    }
    return true;
  }

  predicate AllRanges(ranges: Option<seq<RangeBound>>, b: RangeBound)
  {
    forall i :: 0 <= i < |RangeList(ranges)| ==> RangeList(ranges)[i] == b
  }

  /** The operations whose encodings are single bits and can be obfuscated. */
  predicate ObfuscatableOperation(name: string)
  {
    name in {"bool_AND", "bool_OR", "min", "max", "union", "inter"}
  }

  /** The rules CheckParameters enforces, one per message it can log. */
  datatype Rule =
    | ObfuscationThresholdZero | NonObfuscatableOperation | ObfuscationRangesNotBits
    | ObfuscationThresholdWithoutObfuscation | ProofsWithoutRanges | ProofsWithoutSignatures
    | ZeroRangesWithSignatures | SizesMismatchOutputs | ThresholdWithoutProofs
    | RangesOrSignaturesWithoutProofs | RosterWithoutProofs | UnsupportedProofType
    | DiffPParametersWithoutDiffP | DiffPParametersZero | InconsistentMinMax

  /** The line the source logs for a broken rule. */
  function Message(rule: Rule): string
  {
    match rule
    case ObfuscationThresholdZero => "obfuscation threshold is 0 while obfuscation is true \n"
    case NonObfuscatableOperation => "obfuscation threshold for a non accepted operation \n"
    case ObfuscationRangesNotBits => "obfuscation and proofs but ranges not for 0,1 \n"
    case ObfuscationThresholdWithoutObfuscation => "obfuscation threshold is set and there is no Obfuscation \n"
    case ProofsWithoutRanges => "proofs but no range \n"
    case ProofsWithoutSignatures => "proofs but no signatures \n"
    case ZeroRangesWithSignatures => "ranges to 0 but signatures also set \n"
    case SizesMismatchOutputs => "ranges or signatures length do not match with nbr output \n"
    case ThresholdWithoutProofs => "no proofs and one of the threshold not 0 \n"
    case RangesOrSignaturesWithoutProofs => "no proofs and some ranges or signatures \n"
    case RosterWithoutProofs => "no proofs but VN roster \n"
    case UnsupportedProofType => "unsupported proof type \n"
    case DiffPParametersWithoutDiffP => "no diffP but parameters not to 0 \n"
    case DiffPParametersZero => "diffP but parameters are 0 \n"
    case InconsistentMinMax => "min or max are inconsistent at DP and operations \n"
  }

  function When(c: bool, rule: Rule): seq<Rule>
  {
    if c then [rule] else []
  }

  /** The rules of CheckParameters that depend on the proof mode. */
  function ProofViolations(sq: SurveyQuery): seq<Rule>
    requires sq.query.proofs == 1 && sq.query.ivSigs.inputValidationSigs.Some? && sq.query.ranges.Some? ==>
             |sq.query.ivSigs.inputValidationSigs.value| > 0
  {
    var q := sq.query;
    var sigs := q.ivSigs.inputValidationSigs;
    if q.proofs == 1 then
      (if q.obfuscation then
         When(sq.obfuscationProofThreshold == 0.0, ObfuscationThresholdZero) +
         When(!ObfuscatableOperation(q.operation.nameOp), NonObfuscatableOperation) +
         When(!AllRanges(q.ranges, RangeBound(2, 1)), ObfuscationRangesNotBits)
       else
         When(sq.obfuscationProofThreshold != 0.0, ObfuscationThresholdWithoutObfuscation)) +
      When(q.ranges == None, ProofsWithoutRanges) +
      When(sigs == None && !AllRanges(q.ranges, RangeBound(0, 0)), ProofsWithoutSignatures) +
      When(AllRanges(q.ranges, RangeBound(0, 0)) && sigs.Some?, ZeroRangesWithSignatures) +
      When(sigs.Some? && q.ranges.Some? &&
           (q.operation.nbrOutput != |sigs.value[0]| || q.operation.nbrOutput != |q.ranges.value|),
           SizesMismatchOutputs)
    else if q.proofs == 0 then
      When(sq.keySwitchingProofThreshold != 0.0 || sq.obfuscationProofThreshold != 0.0 ||
           sq.rangeProofThreshold != 0.0 || sq.threshold != 0.0, ThresholdWithoutProofs) +
      When(q.ranges.Some? || sigs.Some?, RangesOrSignaturesWithoutProofs) +
      When(q.rosterVNs.Some?, RosterWithoutProofs)
    else
      [UnsupportedProofType]
  }

  /**
   * The differential-privacy rule. With noise, the source groups its
   * condition as (Limit == 0 && Quanta == 0) || Scale == 0 ||
   * NoiseListSize == 0 || LapScale == 0.
   */
  function DiffPViolations(d: QueryDiffP, diffP: bool): seq<Rule>
  {
    if !diffP then
      When(d.limit != 0.0 || d.scale != 0.0 || d.quanta != 0.0 || d.noiseListSize != 0 || d.lapMean != 0.0 || d.lapScale != 0.0,
           DiffPParametersWithoutDiffP)
    else
      When((d.limit == 0.0 && d.quanta == 0.0) || d.scale == 0.0 || d.noiseListSize == 0 || d.lapScale == 0.0,
           DiffPParametersZero)
  }

  /** Every rule a survey query breaks, in the order CheckParameters tests them. */
  function Violations(sq: SurveyQuery, diffP: bool): seq<Rule>
    requires sq.query.proofs == 1 && sq.query.ivSigs.inputValidationSigs.Some? && sq.query.ranges.Some? ==>
             |sq.query.ivSigs.inputValidationSigs.value| > 0
  {
    ProofViolations(sq) + DiffPViolations(sq.query.diffP, diffP) +
    When(sq.query.operation.queryMin != sq.query.dpDataGen.generateDataMin ||
         sq.query.operation.queryMax != sq.query.dpDataGen.generateDataMax,
         InconsistentMinMax)
  }

  /** The proof-mode rules of CheckParameters. */
  method CheckProofMode(sq: SurveyQuery) returns (result: bool)
    requires sq.query.proofs == 1 && sq.query.ivSigs.inputValidationSigs.Some? && sq.query.ranges.Some? ==>
             |sq.query.ivSigs.inputValidationSigs.value| > 0
    ensures result <==> ProofViolations(sq) == []
  {
    var q := sq.query;
    var sigs := q.ivSigs.inputValidationSigs;
    result := true;
    if q.proofs == 1 {
      if q.obfuscation {
        if sq.obfuscationProofThreshold == 0.0 {
          result := false;
        }
        if !ObfuscatableOperation(q.operation.nameOp) {
          result := false;
        }
        var bits := CheckRangesBits(q.ranges);
        if !bits {
          result := false;
        }
      } else {
        if sq.obfuscationProofThreshold != 0.0 {
          result := false;
        }
      }
      if q.ranges == None {
        result := false;
      }
      var zeros := CheckRangesZeros(q.ranges);
      if sigs == None && !zeros {
        result := false;
      }
      if zeros && sigs.Some? {
        result := false;
      }
      if sigs.Some? && q.ranges.Some? {
        if q.operation.nbrOutput != |sigs.value[0]| || q.operation.nbrOutput != |q.ranges.value| {
          result := false;
        }
      }
    } else if q.proofs == 0 {
      if sq.keySwitchingProofThreshold != 0.0 || sq.obfuscationProofThreshold != 0.0 || sq.rangeProofThreshold != 0.0 || sq.threshold != 0.0 {
        result := false;
      }
      if q.ranges.Some? || sigs.Some? {
        result := false;
      }
      if q.rosterVNs.Some? {
        result := false;
      }
    } else {
      result := false;
    }
  }

  /**
   * CheckParameters: accepts a survey query iff it breaks none of the
   * rules. The messages of the broken rules, which the source only logs,
   * are the Message of each entry of Violations.
   */
  method CheckParameters(sq: SurveyQuery, diffP: bool) returns (result: bool)
    requires sq.query.proofs == 1 && sq.query.ivSigs.inputValidationSigs.Some? && sq.query.ranges.Some? ==>
             |sq.query.ivSigs.inputValidationSigs.value| > 0
    ensures result <==> Violations(sq, diffP) == []
    ensures sq.query.proofs != 0 && sq.query.proofs != 1 ==> !result
    ensures (sq.query.proofs == 1 && sq.query.obfuscation &&
             (sq.obfuscationProofThreshold == 0.0 || !ObfuscatableOperation(sq.query.operation.nameOp) ||
              !AllRanges(sq.query.ranges, RangeBound(2, 1)))) ==> !result
    ensures (sq.query.proofs == 0 &&
             (sq.threshold != 0.0 || sq.rangeProofThreshold != 0.0 || sq.obfuscationProofThreshold != 0.0 ||
              sq.keySwitchingProofThreshold != 0.0 || sq.query.ranges.Some? ||
              sq.query.ivSigs.inputValidationSigs.Some? || sq.query.rosterVNs.Some?)) ==> !result
    ensures (sq.query.operation.queryMin != sq.query.dpDataGen.generateDataMin ||
             sq.query.operation.queryMax != sq.query.dpDataGen.generateDataMax) ==> !result
    ensures (diffP && (sq.query.diffP.scale == 0.0 || sq.query.diffP.noiseListSize == 0 || sq.query.diffP.lapScale == 0.0 ||
                       (sq.query.diffP.limit == 0.0 && sq.query.diffP.quanta == 0.0))) ==> !result
    ensures !diffP && AddDiffP(sq.query.diffP) ==> !result
  {
    var q := sq.query;
    result := CheckProofMode(sq);
    var d := q.diffP;
    if !diffP {
      if d.limit != 0.0 || d.scale != 0.0 || d.quanta != 0.0 || d.noiseListSize != 0 || d.lapMean != 0.0 || d.lapScale != 0.0 {
        result := false;
      }
    } else {
      if (d.limit == 0.0 && d.quanta == 0.0) || d.scale == 0.0 || d.noiseListSize == 0 || d.lapScale == 0.0 {
        result := false;
      }
    }
    if q.operation.queryMin != q.dpDataGen.generateDataMin || q.operation.queryMax != q.dpDataGen.generateDataMax {
      result := false;
    }
  }

  /** A node identity list of a map entry; a nil entry has none. */
  function Entries(v: Option<seq<ServerIdentity>>): seq<ServerIdentity>
  {
    if v.Some? then v.value else []
  }

  /** The number of data providers listed under the given keys of ServerToDP. */
  ghost function DPsUnder(m: map<string, Option<seq<ServerIdentity>>>, keys: set<string>): nat
    requires keys <= m.Keys
    decreases keys
  {
    if keys == {} then 0
    else
      var k :| k in keys;
      |Entries(m[k])| + DPsUnder(m, keys - {k})
  }

  /** The count does not depend on the order in which the keys are visited. */
  lemma {:induction false} DPsUnderRemove(m: map<string, Option<seq<ServerIdentity>>>, keys: set<string>, k: string)
    requires k in keys && keys <= m.Keys
    ensures DPsUnder(m, keys) == |Entries(m[k])| + DPsUnder(m, keys - {k})
    decreases keys
  {
    var j :| j in keys && DPsUnder(m, keys) == |Entries(m[j])| + DPsUnder(m, keys - {j});
    if j != k {
      DPsUnderRemove(m, keys - {j}, k);
      DPsUnderRemove(m, keys - {k}, j);
      assert keys - {j} - {k} == keys - {k} - {j};
    }
  }

  /** The number of data providers of a survey: every listed DP of every computing node. */
  ghost function NbrDPs(m: map<string, Option<seq<ServerIdentity>>>): nat
  {
    DPsUnder(m, m.Keys)
  }

  /** The DP counting loop over ServerToDP, in the map's iteration order. */
  method CountDPs(serverToDP: map<string, Option<seq<ServerIdentity>>>) returns (nbrDPs: int)
    ensures nbrDPs == NbrDPs(serverToDP)
    ensures serverToDP == map[] ==> nbrDPs == 0
  {
    nbrDPs := 0;
    var keys := serverToDP.Keys;
    while keys != {}
      invariant keys <= serverToDP.Keys
      invariant nbrDPs + DPsUnder(serverToDP, keys) == NbrDPs(serverToDP)
      decreases keys
    {
      var k :| k in keys;
      DPsUnderRemove(serverToDP, keys, k);
      nbrDPs := nbrDPs + |Entries(serverToDP[k])|;
      keys := keys - {k};
    }
  }

  /**
   * QueryToProofsNbrs: how many proofs of each kind the verifying nodes
   * expect — [range, shuffle, aggregation, obfuscation, key switching].
   */
  method QueryToProofsNbrs(q: SurveyQuery) returns (r: seq<int>)
    ensures |r| == 5
    ensures r[0] == NbrDPs(q.serverToDP)
    ensures q.query.proofs == 0 ==> r[1..] == [0, 0, 0, 0]
    ensures q.query.proofs != 0 ==> r[2] == |q.rosterServers| && r[4] == |q.rosterServers|
    ensures r[1] != 0 ==> AddDiffP(q.query.diffP) && r[1] == r[2]
    ensures AddDiffP(q.query.diffP) ==> r[1] == r[2]
    ensures r[3] == (if q.query.obfuscation then r[2] else 0)
  {
    var nbrDPs := CountDPs(q.serverToDP);
    var nbrServers := |q.rosterServers|;
    var prfRange := nbrDPs;
    if q.query.proofs == 0 {
      nbrServers := 0;
    }
    var prfAggr := nbrServers;
    var prfObf := 0;
    if q.query.obfuscation {
      prfObf := nbrServers;
    }
    var prfShuffling := 0;
    if AddDiffP(q.query.diffP) {
      prfShuffling := nbrServers;
    }
    var prfKS := nbrServers;
    r := [prfRange, prfShuffling, prfAggr, prfObf, prfKS];
  }

  /**
   * ChooseOperation: the number of inputs and outputs of an operation. An
   * unknown name is fatal in the source and an error here. A non-zero
   * cutting factor multiplies the number of outputs.
   */
  function ChooseOperation(operationName: string, queryMin: int, queryMax: int, d: int, cuttingFactor: int): (r: Result<Operation>)
    ensures r.Ok? <==> Kind(operationName) !in {MLevalOp, LogRegOp, UnknownOp}
    ensures r.Ok? ==> r.value.nameOp == operationName && r.value.queryMin == queryMin && r.value.queryMax == queryMax
    ensures r.Ok? ==> r.value.nbrOutput == BaseOutputs(Kind(operationName), queryMin, queryMax, d) * (if cuttingFactor != 0 then cuttingFactor else 1)
    ensures Kind(operationName) == LinRegOp ==> r.value.nbrInput == d + 1
    ensures Kind(operationName) in {FreqCountOp, MinOp, MaxOp, UnionOp, InterOp} ==> r.value.nbrInput == 1
  {
    var k := Kind(operationName);
    var io :=
      match k
      case SumOp | BoolOrOp | BoolAndOp => Some((1, 1))
      case MeanOp => Some((1, 2))
      case VarianceOp => Some((1, 3))
      case CosimOp => Some((2, 5))
      case FreqCountOp | MinOp | MaxOp | UnionOp | InterOp => Some((1, queryMax - queryMin + 1))
      case LinRegOp => Some((d + 1, TruncDiv(d * d + 5 * d + 4, 2)))
      case MLevalOp | LogRegOp | UnknownOp => None;
    if io.None? then Err("Operation: <" + operationName + "> does not exist")
    else
      var nbrOutput := if cuttingFactor != 0 then io.value.1 * cuttingFactor else io.value.1;
      Ok(Operation(operationName, io.value.0, nbrOutput, queryMin, queryMax))
  }

  /**
   * The number of values each operation's encoder outputs: its fixed
   * layout, one slot per value of [queryMin, queryMax], or the lin_reg
   * tuple length (d² + 5d + 4) / 2.
   */
  function BaseOutputs(k: OpKind, queryMin: int, queryMax: int, d: int): int
  {
    match k
    case SumOp | BoolOrOp | BoolAndOp => 1
    case MeanOp => 2
    case VarianceOp => 3
    case CosimOp => 5
    case FreqCountOp | MinOp | MaxOp | UnionOp | InterOp => queryMax - queryMin + 1
    case LinRegOp => (d + 1) * (d + 4) / 2
    case MLevalOp | LogRegOp | UnknownOp => 0
  }

  /**
   * The lin_reg output count of ChooseOperation is the length of the
   * tuple the lin_reg encoder produces for d features.
   */
  lemma LinRegOutputsMatchTuple(d: nat)
    ensures ChooseOperation("lin_reg", 0, 0, d, 0).Ok?
    ensures ChooseOperation("lin_reg", 0, 0, d, 0).value.nbrOutput == LinearRegressionDims.TupleLength(d)
  {
    LinearRegressionDims.TupleLengthClosedForm(d);
  }
}
