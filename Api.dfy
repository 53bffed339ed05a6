/**
 * The client side of a survey (services/api.go): how data providers are
 * distributed over the computing nodes, and how a survey query is put
 * together from its parameters.
 */
module Api {
  import opened Common
  import opened Seqs
  import opened CommonStructs

  /** The map key of a node: its address. */
  function KeyOf(s: ServerIdentity): string
  {
    s.address
  }

  /** Where server i's data providers start in the DP list. */
  function Offset(rep: seq<int>, i: nat): int
    requires i <= |rep|
  {
    Sum(rep[..i])
  }

  /** A repartition is usable: one non-negative count per server, and enough DPs. */
  predicate Assignable(servers: seq<ServerIdentity>, dps: seq<ServerIdentity>, rep: seq<int>)
  {
    |rep| == |servers| && (forall i :: 0 <= i < |rep| ==> rep[i] >= 0) && Sum(rep) <= |dps|
  }

  lemma OffsetBounds(rep: seq<int>, dps: seq<ServerIdentity>, i: nat)
    requires i < |rep| && (forall k :: 0 <= k < |rep| ==> rep[k] >= 0) && Sum(rep) <= |dps|
    ensures 0 <= Offset(rep, i) && Offset(rep, i + 1) == Offset(rep, i) + rep[i] && Offset(rep, i + 1) <= |dps|
  {
    SumPrefixStep(rep, i);
    SumPrefixMonotone(rep, 0, i);
    SumPrefixMonotone(rep, i + 1, |rep|);
    assert rep[..|rep|] == rep;
  }

  /** The DPs server i receives: the next rep[i] of the list. */
  function Share(dps: seq<ServerIdentity>, rep: seq<int>, i: nat): seq<ServerIdentity>
    requires i < |rep| && (forall k :: 0 <= k < |rep| ==> rep[k] >= 0) && Sum(rep) <= |dps|
  {
    OffsetBounds(rep, dps, i);
    dps[Offset(rep, i)..Offset(rep, i + 1)]
  }

  /** The map after visiting the first n servers; a server with no DP gets no entry. */
  function Assignment(servers: seq<ServerIdentity>, dps: seq<ServerIdentity>, rep: seq<int>, n: nat): map<string, Option<seq<ServerIdentity>>>
    requires Assignable(servers, dps, rep) && n <= |servers|
  {
    if n == 0 then map[]
    else if rep[n - 1] == 0 then Assignment(servers, dps, rep, n - 1)
    else Assignment(servers, dps, rep, n - 1)[KeyOf(servers[n - 1]) := Some(Share(dps, rep, n - 1))]
  }

  /**
   * RepartitionDPs: gives each server its share of the data providers, in
   * list order. More counts than servers is fatal in the source and an
   * error here.
   */
  method RepartitionDPs(elServers: seq<ServerIdentity>, elDPs: seq<ServerIdentity>, dpRepartition: seq<int>)
    returns (r: Result<map<string, Option<seq<ServerIdentity>>>>)
    requires |dpRepartition| >= |elServers|
    requires |dpRepartition| == |elServers| ==> Assignable(elServers, elDPs, dpRepartition)
    ensures r.Err? <==> |dpRepartition| > |elServers|
    ensures r.Ok? ==> r.value == Assignment(elServers, elDPs, dpRepartition, |elServers|)
  {
    if |dpRepartition| > |elServers| {
      return Err("Cannot assign the DPs to servers");
    }
    var dpToServers: map<string, Option<seq<ServerIdentity>>> := map[];
    var count := 0;
    for i := 0 to |elServers|
      invariant count == Offset(dpRepartition, i)
      invariant dpToServers == Assignment(elServers, elDPs, dpRepartition, i)
    {
      OffsetBounds(dpRepartition, elDPs, i);
      var index := KeyOf(elServers[i]);
      if dpRepartition[i] == 0 {
        continue;
      }
      var value: seq<ServerIdentity> := [];
      for j := 0 to dpRepartition[i]
        invariant count == Offset(dpRepartition, i) + j
        invariant value == elDPs[Offset(dpRepartition, i)..count]
      {
        value := value + [elDPs[count]];
        count := count + 1;
      }
      dpToServers := dpToServers[index := Some(value)];
    }
    return Ok(dpToServers);
  }

  /** A server has an entry iff some server with its key was given at least one DP. */
  lemma {:induction false} AssignmentKeys(servers: seq<ServerIdentity>, dps: seq<ServerIdentity>, rep: seq<int>, n: nat, key: string)
    requires Assignable(servers, dps, rep) && n <= |servers|
    ensures key in Assignment(servers, dps, rep, n) <==> exists i :: 0 <= i < n && rep[i] != 0 && KeyOf(servers[i]) == key
  {
    if n > 0 {
      AssignmentKeys(servers, dps, rep, n - 1, key);
    }
  }

  /** With distinct server keys, every server with a non-zero count holds exactly its share. */
  lemma {:induction false} AssignmentShares(servers: seq<ServerIdentity>, dps: seq<ServerIdentity>, rep: seq<int>, n: nat, i: nat)
    requires Assignable(servers, dps, rep) && i < n <= |servers| && rep[i] != 0
    requires forall a, b :: 0 <= a < b < |servers| ==> KeyOf(servers[a]) != KeyOf(servers[b])
    ensures KeyOf(servers[i]) in Assignment(servers, dps, rep, n)
    ensures Assignment(servers, dps, rep, n)[KeyOf(servers[i])] == Some(Share(dps, rep, i))
  {
    if i < n - 1 {
      AssignmentShares(servers, dps, rep, n - 1, i);
    }
  }

  /** The shares of the servers, in server order. */
  function Handed(dps: seq<ServerIdentity>, rep: seq<int>, n: nat): seq<ServerIdentity>
    requires n <= |rep| && (forall k :: 0 <= k < |rep| ==> rep[k] >= 0) && Sum(rep) <= |dps|
  {
    if n == 0 then [] else Handed(dps, rep, n - 1) + Share(dps, rep, n - 1)
  }

  /**
   * The shares, one after the other, are exactly the first Σrep data
   * providers: every DP is handed out at most once and none is skipped.
   */
  lemma {:induction false} HandedIsPrefix(dps: seq<ServerIdentity>, rep: seq<int>, n: nat)
    requires n <= |rep| && (forall k :: 0 <= k < |rep| ==> rep[k] >= 0) && Sum(rep) <= |dps|
    ensures 0 <= Offset(rep, n) <= |dps| && Handed(dps, rep, n) == dps[..Offset(rep, n)]
  {
    if n == 0 {
      assert rep[..0] == [];
    } else {
      HandedIsPrefix(dps, rep, n - 1);
      OffsetBounds(rep, dps, n - 1);
      assert dps[..Offset(rep, n - 1)] + dps[Offset(rep, n - 1)..Offset(rep, n)] == dps[..Offset(rep, n)];
    }
  }

  /** Two different servers' shares never overlap. */
  lemma SharesDisjoint(dps: seq<ServerIdentity>, rep: seq<int>, i: nat, j: nat)
    requires i < j < |rep| && (forall k :: 0 <= k < |rep| ==> rep[k] >= 0) && Sum(rep) <= |dps|
    ensures Offset(rep, i + 1) <= Offset(rep, j)
  {
    SumPrefixMonotone(rep, i + 1, j);
  }

  /** The sizes of the input-validation signature matrix; zero without one. */
  function SigSizes(ps: Option<seq<seq<PublishSignature>>>): (sizes: (int, int))
    requires ps.Some? ==> |ps.value| > 0
    ensures ps.None? ==> sizes == (0, 0)
    ensures ps.Some? ==> sizes == (|ps.value|, |ps.value[0]|)
  {
    if ps.Some? then (|ps.value|, |ps.value[0]|) else (0, 0)
  }

  /**
   * GenerateSurveyQuery: assembles a survey query. The thresholds are
   * [general, range proof, obfuscation, key switching]; the query is
   * marked as coming from the client, signed with the client's key.
   */
  function GenerateSurveyQuery(clientPublic: Point, rosterServers: seq<ServerIdentity>, rosterVNs: Option<seq<ServerIdentity>>,
                               dpToServer: map<string, Option<seq<ServerIdentity>>>, idToPublic: map<string, Point>,
                               surveyID: string, operation: Operation, ranges: Option<seq<RangeBound>>,
                               ps: Option<seq<seq<PublishSignature>>>, proofs: int, obfuscation: bool, thresholds: seq<real>,
                               diffP: QueryDiffP, dpDataGen: QueryDPDataGen, cuttingFactor: int,
                               dpsUsed: seq<ServerIdentity>): (sq: SurveyQuery)
    requires ps.Some? ==> |ps.value| > 0
    requires |thresholds| >= 4
    ensures sq.query.ivSigs == QueryIVSigs(ps, SigSizes(ps).0, SigSizes(ps).1)
    ensures sq.threshold == thresholds[0] && sq.rangeProofThreshold == thresholds[1]
    ensures sq.obfuscationProofThreshold == thresholds[2] && sq.keySwitchingProofThreshold == thresholds[3]
    ensures !sq.intraMessage && sq.clientPubKey == clientPublic
    ensures sq.query.operation == operation && sq.query.ranges == ranges && sq.query.proofs == proofs
    ensures sq.serverToDP == dpToServer && sq.dpsUsed == dpsUsed && sq.idToPublic == idToPublic
    ensures sq.surveyID == surveyID && sq.rosterServers == rosterServers && sq.query.rosterVNs == rosterVNs
    ensures sq.query.obfuscation == obfuscation && sq.query.diffP == diffP && sq.query.dpDataGen == dpDataGen
    ensures sq.query.cuttingFactor == cuttingFactor
  {
    var sizes := SigSizes(ps);
    SurveyQuery(surveyID, rosterServers, clientPublic, false, dpToServer, dpsUsed,
                Query(operation, ranges, proofs, obfuscation, diffP, dpDataGen, QueryIVSigs(ps, sizes.0, sizes.1), rosterVNs, cuttingFactor),
                idToPublic, thresholds[0], thresholds[2], thresholds[1], thresholds[3])
  }

  /**
   * A query generated without proofs, ranges, signatures, verifying nodes,
   * thresholds or noise, whose range agrees with the data generation, passes
   * CheckParameters; with proofs set to any value but 0 or 1 it never does.
   */
  lemma {:induction false} PlainQueryAccepted(clientPublic: Point, rosterServers: seq<ServerIdentity>,
                                              dpToServer: map<string, Option<seq<ServerIdentity>>>, idToPublic: map<string, Point>,
                                              surveyID: string, operation: Operation, proofs: int, obfuscation: bool,
                                              dpDataGen: QueryDPDataGen, cuttingFactor: int, dpsUsed: seq<ServerIdentity>)
    requires operation.queryMin == dpDataGen.generateDataMin && operation.queryMax == dpDataGen.generateDataMax
    ensures var sq := GenerateSurveyQuery(clientPublic, rosterServers, None, dpToServer, idToPublic, surveyID, operation,
                                          None, None, proofs, obfuscation, [0.0, 0.0, 0.0, 0.0], NoDiffP, dpDataGen, cuttingFactor, dpsUsed);
            (Violations(sq, false) == [] <==> proofs == 0)
  {
    var sq := GenerateSurveyQuery(clientPublic, rosterServers, None, dpToServer, idToPublic, surveyID, operation,
                                  None, None, proofs, obfuscation, [0.0, 0.0, 0.0, 0.0], NoDiffP, dpDataGen, cuttingFactor, dpsUsed);
    assert DiffPViolations(NoDiffP, false) == [];
    if proofs == 1 {
      assert ProofsWithoutRanges in ProofViolations(sq);
    }
  }
}
