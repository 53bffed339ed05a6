/**
 * The verifying nodes' service (services/service_skipchain.go): how many
 * proofs of each type a node expects for a query, how the root verifying
 * node merges the nodes' bitmaps for the block, how a node checks a block's
 * bitmap against its own, the proof-collection roster and protocol
 * instances, and closing the node's database.
 */
module ServiceSkipchain {
  import opened Common
  import opened Seqs
  import opened CommonStructs
  import opened ProofCollection

  /** The position of a proof type in the list QueryToProofsNbrs returns. */
  function NbrsIndex(t: ProofType): (i: nat)
    ensures i < 5
  {
    match t
    case Range => 0
    case Shuffle => 1
    case Aggregation => 2
    case Obfuscation => 3
    case KeySwitch => 4
  }

  /**
   * The node's expected-proof counters, built by appends from the
   * QueryToProofsNbrs list in the order storeProof indexes them, and their
   * total.
   */
  method SizeQuery(size: seq<int>) returns (sizeQuery: seq<int>, totalNbrProofs: int)
    requires |size| == 5
    ensures |sizeQuery| == 5
    ensures forall t: ProofType :: sizeQuery[TypeIndex(t)] == size[NbrsIndex(t)]
    ensures multiset(sizeQuery) == multiset(size)
    ensures totalNbrProofs == Sum(sizeQuery) && totalNbrProofs == Sum(size)
  {
    sizeQuery := TypeOrder(size);
    totalNbrProofs := size[0] + size[2] + size[3] + size[1] + size[4];
    ReorderedCounts(size, sizeQuery);
  }

  /** The counts appended one by one in proof-type order. */
  method TypeOrder(size: seq<int>) returns (sizeQuery: seq<int>)
    requires |size| == 5
    ensures sizeQuery == [size[0], size[2], size[3], size[1], size[4]]
  {
    sizeQuery := [];
    sizeQuery := sizeQuery + [size[0]];
    sizeQuery := sizeQuery + [size[2]];
    sizeQuery := sizeQuery + [size[3]];
    sizeQuery := sizeQuery + [size[1]];
    sizeQuery := sizeQuery + [size[4]];
  }

  /** The proof-count reordering: per type, a permutation, and the same total. */
  lemma ReorderedCounts(size: seq<int>, sizeQuery: seq<int>)
    requires |size| == 5 && sizeQuery == [size[0], size[2], size[3], size[1], size[4]]
    ensures forall t: ProofType :: sizeQuery[TypeIndex(t)] == size[NbrsIndex(t)]
    ensures multiset(sizeQuery) == multiset(size)
    ensures Sum(sizeQuery) == Sum(size) == size[0] + size[2] + size[3] + size[1] + size[4]
  {
    QueryOrder(size, sizeQuery);
    PermutedFive(size, sizeQuery);
    SumFive(sizeQuery);
    SumFive(size);
  }

  /** The reordering puts each proof type's count at the type's own index. */
  lemma QueryOrder(size: seq<int>, sizeQuery: seq<int>)
    requires |size| == 5 && sizeQuery == [size[0], size[2], size[3], size[1], size[4]]
    ensures forall t: ProofType :: sizeQuery[TypeIndex(t)] == size[NbrsIndex(t)]
  {
    forall t: ProofType
      ensures sizeQuery[TypeIndex(t)] == size[NbrsIndex(t)]
    {
      match t
      case Range =>
      case Shuffle =>
      case Aggregation =>
      case Obfuscation =>
      case KeySwitch =>
    }
  }

  /** The reordering is a permutation. */
  lemma PermutedFive(size: seq<int>, sizeQuery: seq<int>)
    requires |size| == 5 && sizeQuery == [size[0], size[2], size[3], size[1], size[4]]
    ensures multiset(sizeQuery) == multiset(size)
  {
    assert size == [size[0]] + [size[1]] + [size[2]] + [size[3]] + [size[4]];
    assert sizeQuery == [size[0]] + [size[2]] + [size[3]] + [size[1]] + [size[4]];
  }

  lemma SumFive(s: seq<int>)
    requires |s| == 5
    ensures Sum(s) == s[0] + s[1] + s[2] + s[3] + s[4]
  {
    SumPrefixStep(s, 0);
    SumPrefixStep(s, 1);
    SumPrefixStep(s, 2);
    SumPrefixStep(s, 3);
    SumPrefixStep(s, 4);
    assert s[..0] == [] && s[..5] == s;
  }

  /**
   * The counters a verifying node starts a query with: one range proof per
   * data provider, and per computing node one aggregation and one key
   * switching proof (with proofs enabled), one obfuscation proof (with
   * obfuscation) and one shuffle proof (with differential privacy).
   */
  method ExpectedProofs(sq: SurveyQuery) returns (sizeQuery: seq<int>, totalNbrProofs: int)
    ensures |sizeQuery| == 5 && forall i :: 0 <= i < 5 ==> sizeQuery[i] >= 0
    ensures sizeQuery[TypeIndex(Range)] == NbrDPs(sq.serverToDP)
    ensures sq.query.proofs != 0 ==> sizeQuery[TypeIndex(Aggregation)] == |sq.rosterServers| && sizeQuery[TypeIndex(KeySwitch)] == |sq.rosterServers|
    ensures sq.query.proofs == 0 ==> sizeQuery[1..] == [0, 0, 0, 0]
    ensures sizeQuery[TypeIndex(Obfuscation)] == (if sq.query.obfuscation then sizeQuery[TypeIndex(Aggregation)] else 0)
    ensures sizeQuery[TypeIndex(Shuffle)] == (if AddDiffP(sq.query.diffP) then sizeQuery[TypeIndex(Aggregation)] else 0)
    ensures totalNbrProofs == Sum(sizeQuery)
  {
    var size := QueryToProofsNbrs(sq);
    sizeQuery, totalNbrProofs := SizeQuery(size);
    assert sizeQuery[TypeIndex(Shuffle)] == size[1] && sizeQuery[TypeIndex(Aggregation)] == size[2];
    assert sizeQuery[TypeIndex(Obfuscation)] == size[3] && sizeQuery[TypeIndex(KeySwitch)] == size[4];
    if sq.query.proofs == 0 {
      assert size[1..] == [0, 0, 0, 0];
      assert size[1] == 0 && size[2] == 0 && size[3] == 0 && size[4] == 0;
    } else {
      assert size[2] >= 0 && size[4] >= 0;
    }
    assert sizeQuery[TypeIndex(Range)] == size[0];
    assert forall i :: 0 <= i < 5 ==> size[i] >= 0;
  }

  /** Bitmaps merged in order: a later bitmap overwrites an earlier one on a shared key. */
  function Merged(ms: seq<map<string, int>>): map<string, int>
  {
    if |ms| == 0 then map[] else Merged(ms[..|ms| - 1]) + ms[|ms| - 1]
  }

  /** The root verifying node's merge of the one bitmap each verifying node sends. */
  method AggregateBitmaps(res: seq<map<string, int>>) returns (aggregateBitmap: map<string, int>)
    ensures aggregateBitmap == Merged(res)
  {
    aggregateBitmap := map[];
    for i := 0 to |res|
      invariant aggregateBitmap == Merged(res[..i])
    {
      assert res[..i + 1][..i] == res[..i];
      var keys := res[i].Keys;
      ghost var start := aggregateBitmap;
      while keys != {}
        invariant keys <= res[i].Keys
        invariant aggregateBitmap == start + map k | k in res[i].Keys - keys :: res[i][k]
        decreases keys
      {
        var key :| key in keys;
        aggregateBitmap := aggregateBitmap[key := res[i][key]];
        keys := keys - {key};
      }
      assert (map k | k in res[i].Keys - {} :: res[i][k]) == res[i];
    }
    assert res[..|res|] == res;
  }

  /** A key of the merge comes from the last bitmap that holds it. */
  lemma {:induction false} MergedLastWins(ms: seq<map<string, int>>, key: string)
    ensures key in Merged(ms) <==> exists i :: 0 <= i < |ms| && key in ms[i]
    ensures key in Merged(ms) ==> exists i :: 0 <= i < |ms| && key in ms[i] && Merged(ms)[key] == ms[i][key] &&
                                    forall j :: i < j < |ms| ==> key !in ms[j]
  {
    MergedKeys(ms, key);
    if key in Merged(ms) {
      MergedValue(ms, key);
    }
  }

  /** A key is in the merge exactly when some bitmap holds it. */
  lemma {:induction false} MergedKeys(ms: seq<map<string, int>>, key: string)
    ensures key in Merged(ms) <==> exists i :: 0 <= i < |ms| && key in ms[i]
  {
    if |ms| > 0 {
      var init := ms[..|ms| - 1];
      MergedKeys(init, key);
      if key !in Merged(ms) {
        forall i | 0 <= i < |ms|
          ensures key !in ms[i]
        {
          if i < |ms| - 1 {
            assert ms[i] == init[i];
          }
        }
      } else if key !in ms[|ms| - 1] {
        var i :| 0 <= i < |init| && key in init[i];
        assert ms[i] == init[i];
      }
    }
  }

  /** A key of the merge carries the value of the last bitmap that holds it. */
  lemma {:induction false} MergedValue(ms: seq<map<string, int>>, key: string)
    requires key in Merged(ms)
    ensures exists i :: 0 <= i < |ms| && key in ms[i] && Merged(ms)[key] == ms[i][key] &&
                        forall j :: i < j < |ms| ==> key !in ms[j]
  {
    var last := |ms| - 1;
    if key in ms[last] {
      assert Merged(ms)[key] == ms[last][key];
    } else {
      var init := ms[..last];
      MergedValue(init, key);
      var i :| 0 <= i < |init| && key in init[i] && Merged(init)[key] == init[i][key] &&
               forall j :: i < j < |init| ==> key !in init[j];
      assert ms[i] == init[i];
      assert forall j :: i < j < |ms| ==> key !in ms[j] by {
        forall j | i < j < |ms|
          ensures key !in ms[j]
        {
          if j < last {
            assert ms[j] == init[j];
          }
        }
      }
    }
  }

  /** The stored value of a key in a block's bitmap, an absent key reading as 0. */
  function BitmapAt(bitMap: map<string, int>, key: string): int
  {
    if key in bitMap then bitMap[key] else 0
  }

  /** Every entry of the server's bitmap agrees with the block's bitmap. */
  predicate Agrees(bitMapFromServ: map<string, int>, bitMap: map<string, int>)
  {
    forall key :: key in bitMapFromServ ==> BitmapAt(bitMap, key) == bitMapFromServ[key]
  }

  /** The comparison loop of verifyFuncBitmap. */
  method CompareBitmaps(bitMapFromServ: map<string, int>, bitMap: map<string, int>) returns (ok: bool)
    ensures ok <==> Agrees(bitMapFromServ, bitMap)
  {
    var keys := bitMapFromServ.Keys;
    while keys != {}
      invariant keys <= bitMapFromServ.Keys
      invariant forall key :: key in bitMapFromServ.Keys - keys ==> BitmapAt(bitMap, key) == bitMapFromServ[key]
      decreases keys
    {
      var key :| key in keys;
      if BitmapAt(bitMap, key) != bitMapFromServ[key] {
        return false;
      }
      keys := keys - {key};
    }
    return true;
  }

  /**
   * verifyFuncBitmap: a node accepts a block for a survey iff the bitmap it
   * persisted for that survey agrees with the block's bitmap. A missing
   * persisted bitmap is fatal in the source.
   */
  method VerifyFuncBitmap(node: VerifyingNode, surveyID: string, bitMap: map<string, int>) returns (ok: bool)
    requires surveyID + "/map" in node.persisted
    ensures ok <==> Agrees(node.persisted[surveyID + "/map"], bitMap)
  {
    ok := CompareBitmaps(node.persisted[surveyID + "/map"], bitMap);
  }

  /** Keys only in the block's bitmap do not matter. */
  lemma ExtraKeysIgnored(bitMapFromServ: map<string, int>, bitMap: map<string, int>, key: string, v: int)
    requires key !in bitMapFromServ
    ensures Agrees(bitMapFromServ, bitMap) <==> Agrees(bitMapFromServ, bitMap[key := v])
  {
    assert forall k :: k in bitMapFromServ ==> BitmapAt(bitMap[key := v], k) == BitmapAt(bitMap, k);
  }

  /**
   * When the verifying nodes' bitmaps have disjoint keys, the root's merge
   * agrees with every node's bitmap, so each node accepts the block.
   */
  lemma {:induction false} MergedAgreesWithEach(ms: seq<map<string, int>>, i: nat)
    requires i < |ms|
    requires forall a, b :: 0 <= a < b < |ms| ==> ms[a].Keys !! ms[b].Keys
    ensures Agrees(ms[i], Merged(ms))
  {
    var init := ms[..|ms| - 1];
    if i < |ms| - 1 {
      MergedAgreesWithEach(init, i);
      forall key | key in ms[i]
        ensures BitmapAt(Merged(ms), key) == ms[i][key]
      {
        assert key !in ms[|ms| - 1];
        assert key in init[i];
      }
    }
  }

  /** generateProofCollectionRoster: the root first, then the verifying nodes in order. */
  method GenerateProofCollectionRoster(root: ServerIdentity, rosterVNs: seq<ServerIdentity>) returns (roster: seq<ServerIdentity>)
    ensures |roster| == |rosterVNs| + 1
    ensures roster[0] == root
    ensures forall i :: 0 <= i < |rosterVNs| ==> roster[i + 1] == rosterVNs[i]
  {
    roster := [root];
    for i := 0 to |rosterVNs|
      invariant |roster| == i + 1 && roster[0] == root
      invariant forall j :: 0 <= j < i ==> roster[j + 1] == rosterVNs[j]
    {
      roster := roster + [rosterVNs[i]];
    }
  }

  /** The key under which a node registers the collection protocol of a proof type. */
  function PIKey(t: ProofType, id: string): string
  {
    TypeName(t) + "/" + id
  }

  /** Different proof types get different keys. */
  lemma PIKeyInjective(s: ProofType, t: ProofType, id: string)
    ensures PIKey(s, id) == PIKey(t, id) <==> s == t
  {
    if PIKey(s, id) == PIKey(t, id) {
      assert PIKey(s, id)[0] == TypeName(s)[0];
      assert PIKey(t, id)[0] == TypeName(t)[0];
    }
  }

  /** Which proof collection protocols a verifying node starts for a query. */
  predicate Launched(t: ProofType, query: SurveyQuery)
  {
    match t
    case Range => false
    case Aggregation => true
    case Obfuscation => query.query.obfuscation
    case Shuffle => query.query.diffP.noiseListSize > 0
    case KeySwitch => true
  }

  /**
   * generateMapPIs: the protocol instances, one per launched proof type,
   * keyed by type and the node's identity. An instance is represented by
   * the proof type it collects.
   */
  method GenerateMapPIs(id: string, query: SurveyQuery) returns (mapPIs: map<string, ProofType>)
    ensures forall t :: PIKey(t, id) in mapPIs <==> Launched(t, query)
    ensures forall t :: PIKey(t, id) in mapPIs ==> mapPIs[PIKey(t, id)] == t
    ensures forall k :: k in mapPIs ==> k == PIKey(mapPIs[k], id)
  {
    mapPIs := map[];
    mapPIs := mapPIs[PIKey(Aggregation, id) := Aggregation];
    if query.query.obfuscation {
      mapPIs := mapPIs[PIKey(Obfuscation, id) := Obfuscation];
    }
    if query.query.diffP.noiseListSize > 0 {
      mapPIs := mapPIs[PIKey(Shuffle, id) := Shuffle];
    }
    mapPIs := mapPIs[PIKey(KeySwitch, id) := KeySwitch];
    forall s: ProofType, t: ProofType {
      PIKeyInjective(s, t, id);
    }
  }

  /** The node's database handle and the files on its disk. */
  class SkipchainNode {
    /** The open database, if any, with its buckets. */
    var db: Option<map<string, map<string, Bytes>>>
    /** The path of the database file. */
    var dbPath: string
    /** The files present on disk. */
    var files: set<string>

    constructor (dbPath: string, files: set<string>)
      ensures db == None && this.dbPath == dbPath && this.files == files
    {
      db := None;
      this.dbPath := dbPath;
      this.files := files;
    }

    /**
     * HandleCloseDB: with an open database, closes it (a failed close is
     * only logged) and, when close is non-zero, removes its file; removing
     * a file that is not there is the error returned. Without an open
     * database nothing happens.
     */
    method HandleCloseDB(close: int) returns (err: Option<string>)
      modifies this
      ensures dbPath == old(dbPath)
      ensures old(db).None? ==> db == None && files == old(files) && err == None
      ensures old(db).Some? ==> db == None
      ensures old(db).Some? && close != 0 && dbPath in old(files) ==> files == old(files) - {dbPath} && err == None
      ensures old(db).Some? && close != 0 && dbPath !in old(files) ==> files == old(files) && err.Some?
      ensures old(db).Some? && close == 0 ==> files == old(files) && err == None
    {
      err := None;
      if db.Some? {
        db := None;
        if close != 0 {
          if dbPath in files {
            files := files - {dbPath};
          } else {
            err := Some("remove " + dbPath + ": no such file or directory");
          }
        }
      }
    }
  }
}
