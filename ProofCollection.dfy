/**
 * The verifying node's side of proof collection
 * (protocols/proof_collection_protocol.go): each received proof is
 * dispatched by type to a counter index, its verification result is
 * recorded in the survey's bitmap, the proof data is stored, and once every
 * expected proof has arrived the bitmap is persisted. The root of the
 * protocol collects one verification result per verifying node.
 */
module ProofCollection {
  import opened Common
  import opened Seqs

  type Bytes = seq<bv8>

  /** The five kinds of proof a verifying node checks. */
  datatype ProofType = Range | Aggregation | Obfuscation | Shuffle | KeySwitch

  /** The counter index of a proof type in a query's expected-proof list. */
  function TypeIndex(t: ProofType): (i: nat)
    ensures i < 5
  {
    match t
    case Range => 0
    case Aggregation => 1
    case Obfuscation => 2
    case Shuffle => 3
    case KeySwitch => 4
  }

  /** The name a proof type is stored under. */
  function TypeName(t: ProofType): string
  {
    match t
    case Range => "range"
    case Aggregation => "aggregation"
    case Obfuscation => "obfuscation"
    case Shuffle => "shuffle"
    case KeySwitch => "keyswitch"
  }

  /** A proof as received: its type, its identification and its payload. */
  datatype Proof = Proof(kind: ProofType, surveyID: string, senderID: string, differInfo: string, data: Bytes)

  /** The bitmap key of a proof at a verifying node. */
  function ProofName(surveyID: string, typeProof: string, senderID: string, differInfo: string, address: string): string
  {
    surveyID + "/" + typeProof + "/" + senderID + "/" + differInfo + "/" + address
  }

  /** The state a verifying node keeps for one survey, and its database. */
  class VerifyingNode {
    /** The node's own address. */
    const address: string
    /** The verification result of every proof received so far, by proof name. */
    var bitmap: map<string, int>
    /** How many proofs of each type are still expected, by TypeIndex. */
    var totalNbrProofs: seq<int>
    /** The database: bucket name, then key, to stored bytes. */
    var db: map<string, map<string, Bytes>>
    /** The bitmaps persisted under "<survey>/map" once complete, in the node's bucket. */
    var persisted: map<string, map<string, int>>

    /** Five counters, none negative. */
    predicate Valid()
      reads this
    {
      |totalNbrProofs| == 5 && forall i :: 0 <= i < 5 ==> totalNbrProofs[i] >= 0
    }

    constructor (address: string, sizeQuery: seq<int>)
      requires |sizeQuery| == 5 && forall i :: 0 <= i < 5 ==> sizeQuery[i] >= 0
      ensures Valid()
      ensures this.address == address && bitmap == map[] && totalNbrProofs == sizeQuery && db == map[] && persisted == map[]
    {
      this.address := address;
      bitmap := map[];
      totalNbrProofs := sizeQuery;
      db := map[];
      persisted := map[];
    }

    /** The sum of the remaining counters, as the node's loop computes it. */
    method ProofsRemaining() returns (remaining: int)
      requires Valid()
      ensures remaining == Sum(totalNbrProofs)
      ensures remaining == 0 <==> forall i :: 0 <= i < 5 ==> totalNbrProofs[i] == 0
    {
      remaining := 0;
      for i := 0 to |totalNbrProofs|
        invariant remaining == Sum(totalNbrProofs[..i])
        invariant remaining >= 0 && (remaining == 0 <==> forall j :: 0 <= j < i ==> totalNbrProofs[j] == 0)
      {
        SumPrefixStep(totalNbrProofs, i);
        remaining := remaining + totalNbrProofs[i];
      }
      assert totalNbrProofs[..|totalNbrProofs|] == totalNbrProofs;
    }

    /**
     * storeProof: with a proof of this type still expected, records its
     * result in the bitmap, stores its data (except for shuffle proofs)
     * and decrements that type's counter; when no proof remains the bitmap
     * is persisted. Otherwise it fails and changes nothing.
     */
    method StoreProof(index: nat, typeProof: string, surveyID: string, senderID: string, differInfo: string,
                      verificationResult: int, data: Bytes) returns (err: Option<string>)
      requires Valid() && index < 5
      modifies this
      ensures Valid()
      ensures old(totalNbrProofs[index]) <= 0 ==>
        err == Some("did not expect more " + typeProof + " proofs") &&
        bitmap == old(bitmap) && totalNbrProofs == old(totalNbrProofs) && db == old(db) && persisted == old(persisted)
      ensures old(totalNbrProofs[index]) > 0 ==>
        err == None &&
        bitmap == old(bitmap)[ProofName(surveyID, typeProof, senderID, differInfo, address) := verificationResult] &&
        totalNbrProofs == old(totalNbrProofs)[index := old(totalNbrProofs[index]) - 1] &&
        Sum(totalNbrProofs) == Sum(old(totalNbrProofs)) - 1 &&
        db == (if typeProof != "shuffle"
               then UpdateDB(old(db), surveyID + "/" + typeProof, ProofName(surveyID, typeProof, senderID, differInfo, address), data)
               else old(db)) &&
        persisted == (if Sum(totalNbrProofs) == 0 then old(persisted)[surveyID + "/map" := bitmap] else old(persisted))
    {
      var remainingProofs := totalNbrProofs[index];
      if remainingProofs > 0 {
        var nameOfProof := ProofName(surveyID, typeProof, senderID, differInfo, address);
        bitmap := bitmap[nameOfProof := verificationResult];
        if typeProof != "shuffle" {
          db := UpdateDB(db, surveyID + "/" + typeProof, nameOfProof, data);
        }
        ghost var before := totalNbrProofs;
        totalNbrProofs := totalNbrProofs[index := totalNbrProofs[index] - 1];
        SumUpdate(before, index, before[index] - 1);
        var proofsRemaining := ProofsRemaining();
        if proofsRemaining == 0 {
          persisted := persisted[surveyID + "/map" := bitmap];
        }
        err := None;
      } else {
        err := Some("did not expect more " + typeProof + " proofs");
      }
    }

    /** The announcement handler of a verifying node: dispatch by proof type, then store. */
    method HandleProof(proof: Proof, verificationResult: int) returns (err: Option<string>)
      requires Valid()
      modifies this
      ensures Valid()
      ensures old(totalNbrProofs[TypeIndex(proof.kind)]) > 0 <==> err == None
      ensures totalNbrProofs == (if err == None then old(totalNbrProofs)[TypeIndex(proof.kind) := old(totalNbrProofs[TypeIndex(proof.kind)]) - 1]
                                 else old(totalNbrProofs))
      ensures err == None ==> bitmap == old(bitmap)[ProofName(proof.surveyID, TypeName(proof.kind), proof.senderID, proof.differInfo, address) := verificationResult]
      ensures err == None && proof.kind != Shuffle ==>
        db == UpdateDB(old(db), proof.surveyID + "/" + TypeName(proof.kind),
                       ProofName(proof.surveyID, TypeName(proof.kind), proof.senderID, proof.differInfo, address), proof.data)
      ensures proof.kind == Shuffle || err.Some? ==> db == old(db)
    {
      err := StoreProof(TypeIndex(proof.kind), TypeName(proof.kind), proof.surveyID, proof.senderID, proof.differInfo,
                        verificationResult, proof.data);
    }
  }

  /** UpdateDB: puts a value under a key of a bucket, creating the bucket if needed. */
  function UpdateDB(db: map<string, map<string, Bytes>>, bucketName: string, key: string, value: Bytes): (r: map<string, map<string, Bytes>>)
    ensures bucketName in r && key in r[bucketName] && r[bucketName][key] == value
    ensures forall b :: b in db ==> b in r
    ensures forall b :: b in r && b != bucketName ==> b in db && r[b] == db[b]
    ensures bucketName in db ==> forall k :: k in db[bucketName] && k != key ==> k in r[bucketName] && r[bucketName][k] == db[bucketName][k]
  {
    var bucket := if bucketName in db then db[bucketName] else map[];
    db[bucketName := bucket[key := value]]
  }

  /** Changing one entry of a sequence changes its sum by the difference. */
  lemma {:induction false} SumUpdate(s: seq<int>, i: nat, v: int)
    requires i < |s|
    ensures Sum(s[i := v]) == Sum(s) - s[i] + v
    decreases |s|
  {
    var t := s[i := v];
    assert t[..|t| - 1] == if i < |s| - 1 then s[..|s| - 1][i := v] else s[..|s| - 1];
    if i < |s| - 1 {
      SumUpdate(s[..|s| - 1], i, v);
    }
  }

  /**
   * The counters after storeProof has been called with the given counter
   * indices in order: a call whose counter is still positive takes one
   * from it, any other call fails and changes nothing.
   */
  function AfterStores(counts: seq<int>, indices: seq<nat>): (r: seq<int>)
    requires |counts| == 5 && forall i :: 0 <= i < |indices| ==> indices[i] < 5
    ensures |r| == 5
  {
    if |indices| == 0 then counts
    else
      var prev := AfterStores(counts, indices[..|indices| - 1]);
      var k := indices[|indices| - 1];
      if prev[k] > 0 then prev[k := prev[k] - 1] else prev
  }

  /** How many of those calls for counter index were accepted. */
  function AcceptedOf(counts: seq<int>, indices: seq<nat>, index: nat): nat
    requires |counts| == 5 && forall i :: 0 <= i < |indices| ==> indices[i] < 5
  {
    if |indices| == 0 then 0
    else
      var prev := AfterStores(counts, indices[..|indices| - 1]);
      var k := indices[|indices| - 1];
      AcceptedOf(counts, indices[..|indices| - 1], index) + (if k == index && prev[k] > 0 then 1 else 0)
  }

  /**
   * Over any sequence of stores, starting from non-negative counters, no
   * counter goes negative, and every accepted proof of a type takes one
   * from that type's counter; so a type is accepted at most as often as it
   * was expected.
   */
  lemma {:induction false} StoresBounded(counts: seq<int>, indices: seq<nat>, index: nat)
    requires |counts| == 5 && index < 5 && forall i :: 0 <= i < 5 ==> counts[i] >= 0
    requires forall i :: 0 <= i < |indices| ==> indices[i] < 5
    ensures forall i :: 0 <= i < 5 ==> AfterStores(counts, indices)[i] >= 0
    ensures AfterStores(counts, indices)[index] + AcceptedOf(counts, indices, index) == counts[index]
    ensures AcceptedOf(counts, indices, index) <= counts[index]
  {
    if |indices| > 0 {
      StoresBounded(counts, indices[..|indices| - 1], index);
    }
  }

  /** One verification result as the root receives it. */
  datatype ResultMessage = ResultMessage(sender: ServerIdentity, result: int, sb: Option<int>)

  /** The root's bitmap after the given messages: one entry per sender, the last result winning. */
  function Collected(msgs: seq<ResultMessage>): map<string, int>
  {
    if |msgs| == 0 then map[] else Collected(msgs[..|msgs| - 1])[msgs[|msgs| - 1].sender.address := msgs[|msgs| - 1].result]
  }

  /** The last skip block carried by any message, if any. */
  function LastBlock(msgs: seq<ResultMessage>): Option<int>
  {
    if |msgs| == 0 then None
    else if msgs[|msgs| - 1].sb.Some? then msgs[|msgs| - 1].sb
    else LastBlock(msgs[..|msgs| - 1])
  }

  /**
   * The root's collection loop: one message from each of the other
   * len(tree) − 1 nodes, keyed by the sender's identity. Skip blocks
   * stand for the opaque blocks they are.
   */
  method CollectResults(msgs: seq<ResultMessage>) returns (bitmap: map<string, int>, sb: Option<int>)
    ensures bitmap == Collected(msgs) && sb == LastBlock(msgs)
  {
    bitmap := map[];
    sb := None;
    for i := 0 to |msgs|
      invariant bitmap == Collected(msgs[..i]) && sb == LastBlock(msgs[..i])
    {
      assert msgs[..i + 1][..i] == msgs[..i];
      bitmap := bitmap[msgs[i].sender.address := msgs[i].result];
      if msgs[i].sb.Some? {
        sb := msgs[i].sb;
      }
    }
    assert msgs[..|msgs|] == msgs;
  }

  /** The root's bitmap has exactly one key per sender, holding that sender's last result. */
  lemma {:induction false} CollectedKeys(msgs: seq<ResultMessage>, key: string)
    ensures key in Collected(msgs) <==> exists i :: 0 <= i < |msgs| && msgs[i].sender.address == key
  {
    if |msgs| > 0 {
      CollectedKeys(msgs[..|msgs| - 1], key);
      if key != msgs[|msgs| - 1].sender.address && key in Collected(msgs) {
        var i :| 0 <= i < |msgs| - 1 && msgs[..|msgs| - 1][i].sender.address == key;
        assert msgs[i].sender.address == key;
      }
    }
  }

  /** With distinct senders, node i's entry is its own result. */
  lemma {:induction false} CollectedValue(msgs: seq<ResultMessage>, i: nat)
    requires i < |msgs|
    requires forall a, b :: 0 <= a < b < |msgs| ==> msgs[a].sender.address != msgs[b].sender.address
    ensures msgs[i].sender.address in Collected(msgs) && Collected(msgs)[msgs[i].sender.address] == msgs[i].result
  {
    if i < |msgs| - 1 {
      CollectedValue(msgs[..|msgs| - 1], i);
    }
  }
}
