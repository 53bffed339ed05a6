/**
 * The data collection protocol (protocols/data_collection_protocol.go):
 * each data provider encodes its data per group, replicates the response
 * and its proof list by the simulation's cutting factor, and the root sums
 * the responses of all data providers group by group.
 */
module DataCollection {
  import opened Common
  import opened RangeProof
  import Service

  /** One data provider's response: group name to ciphertext vector. */
  type GroupResponses = map<string, seq<CipherText>>

  /** The vectors two responses hold for a shared group have the same length. */
  predicate SameShapes(a: GroupResponses, b: GroupResponses)
  {
    forall k :: k in a && k in b ==> |a[k]| == |b[k]|
  }

  /**
   * All responses agree on the length of every group they share: each
   * response has the shape of every earlier one.
   */
  predicate Consistent(msgs: seq<GroupResponses>)
  {
    |msgs| == 0 ||
    (Consistent(msgs[..|msgs| - 1]) && forall i :: 0 <= i < |msgs| - 1 ==> SameShapes(msgs[i], msgs[|msgs| - 1]))
  }

  /**
   * One response merged into the aggregate: a shared group is added
   * element-wise, a new group is inserted as it is.
   */
  /** The merged vector of one group. */
  function MergedEntry(acc: GroupResponses, m: GroupResponses, k: string): seq<CipherText>
    requires SameShapes(acc, m) && (k in acc || k in m)
  {
    if k in acc && k in m then AddCipherVectors(acc[k], m[k]) else if k in m then m[k] else acc[k]
  }

  function MergeInto(acc: GroupResponses, m: GroupResponses): (r: GroupResponses)
    requires SameShapes(acc, m)
    ensures r.Keys == acc.Keys + m.Keys
    ensures forall k :: k in m && k !in acc ==> r[k] == m[k]
    ensures forall k :: k in acc && k !in m ==> r[k] == acc[k]
    ensures forall k :: k in acc && k in m ==>
      (|r[k]| == |acc[k]| && forall j :: 0 <= j < |r[k]| ==> r[k][j].plain == acc[k][j].plain + m[k][j].plain)
  {
    map k | k in acc.Keys + m.Keys :: MergedEntry(acc, m, k)
  }

  /** The root's aggregate after the given responses, merged in order. */
  function Aggregate(msgs: seq<GroupResponses>): (r: GroupResponses)
    requires Consistent(msgs)
    ensures forall k :: k in r <==> exists i :: 0 <= i < |msgs| && k in msgs[i]
    ensures forall k, i :: k in r && 0 <= i < |msgs| && k in msgs[i] ==> |r[k]| == |msgs[i][k]|
  {
    if |msgs| == 0 then map[]
    else
      var init := msgs[..|msgs| - 1];
      assert forall i :: 0 <= i < |init| ==> init[i] == msgs[i];
      var acc := Aggregate(init);
      assert SameShapes(acc, msgs[|msgs| - 1]) by {
        forall k | k in acc && k in msgs[|msgs| - 1]
          ensures |acc[k]| == |msgs[|msgs| - 1][k]|
        {
          var i :| 0 <= i < |init| && k in init[i];
          assert SameShapes(msgs[i], msgs[|msgs| - 1]);
        }
      }
      MergeInto(acc, msgs[|msgs| - 1])
  }

  /** The part of a response whose groups are not in `keys`. */
  function Without(m: GroupResponses, keys: set<string>): GroupResponses
  {
    map k | k in m.Keys - keys :: m[k]
  }

  /** Every prefix of consistent responses is consistent. */
  lemma {:induction false} ConsistentPrefix(msgs: seq<GroupResponses>, n: nat)
    requires Consistent(msgs) && n <= |msgs|
    ensures Consistent(msgs[..n])
    decreases |msgs|
  {
    if n < |msgs| {
      ConsistentPrefix(msgs[..|msgs| - 1], n);
      assert msgs[..|msgs| - 1][..n] == msgs[..n];
    } else {
      assert msgs[..n] == msgs;
    }
  }

  /** The last response has the shape of the aggregate of the ones before it. */
  lemma LastShapes(msgs: seq<GroupResponses>)
    requires Consistent(msgs) && |msgs| > 0
    ensures Consistent(msgs[..|msgs| - 1])
    ensures SameShapes(Aggregate(msgs[..|msgs| - 1]), msgs[|msgs| - 1])
  {
    var init := msgs[..|msgs| - 1];
    var acc := Aggregate(init);
    forall k | k in acc && k in msgs[|msgs| - 1]
      ensures |acc[k]| == |msgs[|msgs| - 1][k]|
    {
      var j :| 0 <= j < |init| && k in init[j];
      assert init[j] == msgs[j];
      assert SameShapes(msgs[j], msgs[|msgs| - 1]);
    }
  }

  /** One more response is merged into the aggregate of the ones before it. */
  lemma AggregateStep(msgs: seq<GroupResponses>, n: nat)
    requires Consistent(msgs) && n < |msgs|
    ensures Consistent(msgs[..n]) && Consistent(msgs[..n + 1])
    ensures SameShapes(Aggregate(msgs[..n]), msgs[n])
    ensures Aggregate(msgs[..n + 1]) == MergeInto(Aggregate(msgs[..n]), msgs[n])
  {
    ConsistentPrefix(msgs, n);
    ConsistentPrefix(msgs, n + 1);
    assert msgs[..n + 1][..n] == msgs[..n];
    var acc := Aggregate(msgs[..n]);
    forall k | k in acc && k in msgs[n]
      ensures |acc[k]| == |msgs[n][k]|
    {
      var j :| 0 <= j < n && k in msgs[..n][j];
      assert msgs[..n][j] == msgs[j] == msgs[..n + 1][j];
      assert SameShapes(msgs[..n + 1][j], msgs[..n + 1][n]);
    }
  }

  /** Merging one more group of a response into a partial merge. */
  lemma MergeOneMore(start: GroupResponses, m: GroupResponses, keys: set<string>, key: string)
    requires SameShapes(start, m) && key in keys && keys <= m.Keys
    ensures var partial := MergeInto(start, Without(m, keys));
      partial[key := if key in partial then AddCipherVectors(partial[key], m[key]) else m[key]]
        == MergeInto(start, Without(m, keys - {key}))
  {
    var w := Without(m, keys);
    assert Without(m, keys - {key}) == w[key := m[key]];
    MergeInsert(start, w, key, m[key]);
  }

  /** Merging a response with one more group updates that group only. */
  lemma MergeInsert(acc: GroupResponses, w: GroupResponses, key: string, v: seq<CipherText>)
    requires key !in w && SameShapes(acc, w[key := v])
    ensures SameShapes(acc, w)
    ensures MergeInto(acc, w[key := v]) == MergeInto(acc, w)[key := if key in acc then AddCipherVectors(acc[key], v) else v]
  {
    assert SameShapes(acc, w) by {
      forall k | k in acc && k in w
        ensures |acc[k]| == |w[k]|
      {
        assert w[key := v][k] == w[k];
      }
    }
    var left := MergeInto(acc, w[key := v]);
    var right := MergeInto(acc, w)[key := if key in acc then AddCipherVectors(acc[key], v) else v];
    assert left.Keys == right.Keys;
    forall k | k in left
      ensures left[k] == right[k]
    {
      if k != key {
        assert MergedEntry(acc, w[key := v], k) == MergedEntry(acc, w, k);
      }
    }
  }

  /** The root's merge of one response, group by group. */
  method MergeResponse(acc: GroupResponses, m: GroupResponses) returns (r: GroupResponses)
    requires SameShapes(acc, m)
    ensures r == MergeInto(acc, m)
  {
    r := acc;
    var keys := m.Keys;
    assert Without(m, keys) == map[];
    assert MergeInto(acc, map[]) == acc;
    while keys != {}
      invariant keys <= m.Keys
      invariant r == MergeInto(acc, Without(m, keys))
      decreases keys
    {
      var key :| key in keys;
      MergeOneMore(acc, m, keys, key);
      var value := m[key];
      if key in r {
        r := r[key := AddCipherVectors(r[key], value)];
      } else {
        r := r[key := value];
      }
      keys := keys - {key};
    }
    assert Without(m, {}) == m;
  }

  /**
   * The root's loop over the len(tree) − 1 responses it receives, each
   * merged group by group into the aggregate.
   */
  method RootMerge(msgs: seq<GroupResponses>) returns (dcmAggregate: GroupResponses)
    requires Consistent(msgs)
    ensures dcmAggregate == Aggregate(msgs)
  {
    dcmAggregate := map[];
    ConsistentPrefix(msgs, 0);
    for i := 0 to |msgs|
      invariant Consistent(msgs[..i]) && dcmAggregate == Aggregate(msgs[..i])
    {
      AggregateStep(msgs, i);
      dcmAggregate := MergeResponse(dcmAggregate, msgs[i]);
    }
    assert msgs[..|msgs|] == msgs;
  }

  /** The sum, over the responses holding group k, of their j-th plaintexts. */
  function GroupTotal(msgs: seq<GroupResponses>, k: string, j: nat): (t: int)
    requires forall i :: 0 <= i < |msgs| && k in msgs[i] ==> j < |msgs[i][k]|
    ensures (forall i :: 0 <= i < |msgs| && k in msgs[i] ==> msgs[i][k][j].plain >= 0) ==> t >= 0
  {
    if |msgs| == 0 then 0
    else
      var last: GroupResponses := msgs[|msgs| - 1];
      GroupTotal(msgs[..|msgs| - 1], k, j) + (if k in last then last[k][j].plain else 0)
  }

  /** Each aggregated entry decrypts to the sum of every data provider's entry. */
  lemma {:induction false} AggregateIsTotal(msgs: seq<GroupResponses>, k: string, j: nat)
    requires Consistent(msgs)
    requires k in Aggregate(msgs)
    requires forall i :: 0 <= i < |msgs| && k in msgs[i] ==> j < |msgs[i][k]|
    ensures j < |Aggregate(msgs)[k]| && Aggregate(msgs)[k][j].plain == GroupTotal(msgs, k, j)
    decreases |msgs|, 0
  {
    assert |msgs| > 0;
    var n := |msgs| - 1;
    ConsistentPrefix(msgs, n);
    BoundsPrefix(msgs, n, k, j);
    TotalOrAbsent(msgs[..n], k, j);
    AggregateTotalStep(msgs, k, j);
  }

  /** AggregateIsTotal for a group the responses hold, and a zero total for one they do not. */
  lemma {:induction false} TotalOrAbsent(msgs: seq<GroupResponses>, k: string, j: nat)
    requires Consistent(msgs)
    requires forall i :: 0 <= i < |msgs| && k in msgs[i] ==> j < |msgs[i][k]|
    ensures k in Aggregate(msgs) ==> j < |Aggregate(msgs)[k]| && Aggregate(msgs)[k][j].plain == GroupTotal(msgs, k, j)
    ensures k !in Aggregate(msgs) ==> GroupTotal(msgs, k, j) == 0
    decreases |msgs|, 1
  {
    if k in Aggregate(msgs) {
      AggregateIsTotal(msgs, k, j);
    } else {
      GroupTotalAbsent(msgs, k, j);
    }
  }

  /** Entry bounds carry over to a prefix. */
  lemma BoundsPrefix(msgs: seq<GroupResponses>, n: nat, k: string, j: nat)
    requires n <= |msgs|
    requires forall i :: 0 <= i < |msgs| && k in msgs[i] ==> j < |msgs[i][k]|
    ensures forall i :: 0 <= i < n && k in msgs[..n][i] ==> j < |msgs[..n][i][k]|
  {
  }

  /** The induction step of AggregateIsTotal, given its claim for all but the last response. */
  lemma AggregateTotalStep(msgs: seq<GroupResponses>, k: string, j: nat)
    requires |msgs| > 0 && Consistent(msgs)
    requires forall i :: 0 <= i < |msgs| && k in msgs[i] ==> j < |msgs[i][k]|
    requires k in Aggregate(msgs)
    requires Consistent(msgs[..|msgs| - 1])
    requires var init := msgs[..|msgs| - 1];
      (k in Aggregate(init) ==> j < |Aggregate(init)[k]| && Aggregate(init)[k][j].plain == GroupTotal(init, k, j)) &&
      (k !in Aggregate(init) ==> GroupTotal(init, k, j) == 0)
    ensures j < |Aggregate(msgs)[k]| && Aggregate(msgs)[k][j].plain == GroupTotal(msgs, k, j)
  {
    LastShapes(msgs);
    var init := msgs[..|msgs| - 1];
    var last: GroupResponses := msgs[|msgs| - 1];
    var acc: GroupResponses := Aggregate(init);
    MergedEntryTotal(acc, last, k, j, GroupTotal(init, k, j));
  }

  /** The merged entry of a group adds the new response's entry to the running total. */
  lemma MergedEntryTotal(acc: GroupResponses, last: GroupResponses, k: string, j: nat, prev: int)
    requires SameShapes(acc, last) && (k in acc || k in last)
    requires k in acc ==> j < |acc[k]| && acc[k][j].plain == prev
    requires k !in acc ==> prev == 0
    requires k in last ==> j < |last[k]|
    ensures j < |MergeInto(acc, last)[k]|
    ensures MergeInto(acc, last)[k][j].plain == prev + (if k in last then last[k][j].plain else 0)
  {
  }

  /** A group no response holds totals zero. */
  lemma {:induction false} GroupTotalAbsent(msgs: seq<GroupResponses>, k: string, j: nat)
    requires forall i :: 0 <= i < |msgs| ==> k !in msgs[i]
    ensures GroupTotal(msgs, k, j) == 0
  {
    if |msgs| > 0 {
      GroupTotalAbsent(msgs[..|msgs| - 1], k, j);
    }
  }

  /** n copies of s, one after the other. */
  function Repeat<T>(s: seq<T>, n: nat): seq<T>
  {
    if n == 0 then [] else Repeat(s, n - 1) + s
  }

  /** Every copy holds s at its own offset. */
  lemma {:induction false} RepeatIndex<T>(s: seq<T>, n: nat, c: nat, i: nat)
    requires c < n && i < |s|
    ensures |Repeat(s, n)| == n * |s|
    ensures c * |s| + i < |Repeat(s, n)| && Repeat(s, n)[c * |s| + i] == s[i]
  {
    RepeatLength(s, n);
    if c < n - 1 {
      RepeatIndex(s, n - 1, c, i);
    }
  }

  lemma {:induction false} RepeatLength<T>(s: seq<T>, n: nat)
    ensures |Repeat(s, n)| == n * |s|
  {
    if n > 0 {
      RepeatLength(s, n - 1);
    }
  }

  /**
   * The simulation's scaling of a response: with a cutting factor of at
   * least one the vector ends up cuttingFactor times as long, repeating
   * itself; otherwise it is unchanged.
   */
  method Replicate(qr: seq<CipherText>, cuttingFactor: int) returns (r: seq<CipherText>)
    ensures r == Repeat(qr, if cuttingFactor >= 1 then cuttingFactor else 1)
    ensures |r| == (if cuttingFactor >= 1 then cuttingFactor else 1) * |qr|
  {
    r := qr;
    assert Repeat(qr, 1) == [] + qr == qr;
    var i := 0;
    while i < cuttingFactor - 1
      invariant 0 <= i && (cuttingFactor >= 1 ==> i <= cuttingFactor - 1) && (cuttingFactor < 1 ==> i == 0)
      invariant r == Repeat(qr, i + 1)
    {
      r := r + qr;
      i := i + 1;
    }
    var times := if cuttingFactor >= 1 then cuttingFactor else 1;
    RepeatLength(qr, times);
    assert |r| == times * |qr|;
  }

  /** NbrOutput after it has been divided by the cutting factor once per group. */
  function DividedOutputs(nbrOutput: int, cuttingFactor: int, times: nat): int
  {
    if times == 0 || cuttingFactor == 0 then nbrOutput
    else TruncDiv(DividedOutputs(nbrOutput, cuttingFactor, times - 1), cuttingFactor)
  }

  /** Repeated division keeps a non-negative count non-negative and never makes it larger. */
  lemma {:induction false} DividedOutputsShrink(nbrOutput: int, cuttingFactor: int, times: nat)
    requires nbrOutput >= 0 && cuttingFactor >= 1
    ensures 0 <= DividedOutputs(nbrOutput, cuttingFactor, times) <= nbrOutput
  {
    if times > 0 {
      DividedOutputsShrink(nbrOutput, cuttingFactor, times - 1);
      Service.TruncDivWithin(DividedOutputs(nbrOutput, cuttingFactor, times - 1), cuttingFactor);
    }
  }

  /** No later group has the same name. */
  predicate LastOccurrence(groups: seq<string>, i: nat)
    requires i < |groups|
  {
    forall j :: i < j < |groups| ==> groups[j] != groups[i]
  }

  /**
   * The data provider's loop over its groups: NbrOutput is divided by a
   * non-zero cutting factor on every iteration, and each group's encrypted
   * response (encrypted[i], the output of the encoder) is stored replicated.
   */
  method BuildQueryResponse(groups: seq<string>, encrypted: seq<seq<CipherText>>, nbrOutput: int, cuttingFactor: int)
    returns (queryResponse: GroupResponses, nbrOutputAfter: int)
    requires |encrypted| == |groups|
    ensures queryResponse.Keys == set g | g in groups
    ensures forall i :: 0 <= i < |groups| && LastOccurrence(groups, i) ==>
      queryResponse[groups[i]] == Repeat(encrypted[i], if cuttingFactor >= 1 then cuttingFactor else 1)
    ensures nbrOutputAfter == DividedOutputs(nbrOutput, cuttingFactor, |groups|)
  {
    queryResponse := map[];
    nbrOutputAfter := nbrOutput;
    for i := 0 to |groups|
      invariant queryResponse.Keys == set g | g in groups[..i]
      invariant forall a :: 0 <= a < i && (forall b :: a < b < i ==> groups[b] != groups[a]) ==>
        queryResponse[groups[a]] == Repeat(encrypted[a], if cuttingFactor >= 1 then cuttingFactor else 1)
      invariant nbrOutputAfter == DividedOutputs(nbrOutput, cuttingFactor, i)
    {
      if cuttingFactor != 0 {
        nbrOutputAfter := TruncDiv(nbrOutputAfter, cuttingFactor);
      }
      var r := Replicate(encrypted[i], cuttingFactor);
      queryResponse := queryResponse[groups[i] := r];
      assert groups[..i + 1] == groups[..i] + [groups[i]];
    }
    assert groups[..|groups|] == groups;
  }

  /** A ciphertext sent without proof data. */
  function Unproved(ct: CipherText): RangeProof
  {
    RangeProof(ct, None)
  }

  /** The committed ciphertexts of a proof list, in order. */
  function Commits(rpl: seq<RangeProof>): (cs: seq<CipherText>)
    ensures |cs| == |rpl|
    ensures forall i :: 0 <= i < |rpl| ==> cs[i] == rpl[i].commit
  {
    seq(|rpl|, i requires 0 <= i < |rpl| => rpl[i].commit)
  }

  /**
   * Without range-proof inputs, each ciphertext of the response becomes a
   * proof entry carrying no proof data, in order.
   */
  method WrapWithoutProofs(response: seq<CipherText>) returns (tmp: seq<RangeProof>)
    ensures Commits(tmp) == response
    ensures forall i :: 0 <= i < |tmp| ==> tmp[i].rp.None?
  {
    tmp := [];
    for i := 0 to |response|
      invariant |tmp| == i
      invariant forall j :: 0 <= j < i ==> tmp[j] == Unproved(response[j])
    {
      tmp := tmp + [Unproved(response[i])];
    }
  }

  /**
   * The proof-list scaling as written: each copy reads the proof data of
   * every entry, which fails on an entry that carries none (a nil
   * dereference in the source); None stands for that failure.
   */
  function ScaledAsWritten(rpl: seq<RangeProof>, cuttingFactor: nat): (r: Option<seq<RangeProof>>)
    ensures r.None? <==> cuttingFactor != 0 && exists i :: 0 <= i < |rpl| && rpl[i].rp.None?
  {
    if cuttingFactor == 0 then Some(rpl)
    else if exists i :: 0 <= i < |rpl| && rpl[i].rp.None? then None
    else Some(Repeat(rpl, cuttingFactor))
  }

  /**
   * With proofs enabled but no range proofs, the entries built by
   * WrapWithoutProofs make the as-written scaling fail for any non-zero
   * cutting factor.
   */
  lemma UnprovedScalingFails(response: seq<CipherText>, cuttingFactor: nat)
    requires |response| > 0 && cuttingFactor >= 1
    ensures ScaledAsWritten(seq(|response|, i requires 0 <= i < |response| => Unproved(response[i])), cuttingFactor).None?
  {
    var tmp := seq(|response|, i requires 0 <= i < |response| => Unproved(response[i]));
    assert tmp[0].rp.None?;
  }

  /**
   * The proof-list scaling with entries copied whole, proof data present or
   * not: cuttingFactor copies of the list, in order, written into a buffer
   * of len · cuttingFactor entries.
   */
  method ScaleProofList(rpl: seq<RangeProof>, cuttingFactor: nat) returns (scaled: seq<RangeProof>)
    ensures |scaled| == (if cuttingFactor == 0 then |rpl| else |rpl| * cuttingFactor)
    ensures scaled == (if cuttingFactor == 0 then rpl else Repeat(rpl, cuttingFactor))
  {
    if cuttingFactor == 0 {
      return rpl;
    }
    var n := |rpl|;
    var data := new RangeProof[n * cuttingFactor];
    var counter := 0;
    for j := 0 to cuttingFactor
      invariant counter == j * n && counter <= data.Length
      invariant data[..counter] == Repeat(rpl, j)
    {
      Service.MulMono(j + 1, cuttingFactor, n);
      assert counter + n <= data.Length;
      ghost var base := counter;
      for i := 0 to n
        invariant counter == base + i
        invariant data[..counter] == Repeat(rpl, j) + rpl[..i]
      {
        data[counter] := rpl[i];
        assert data[..counter + 1] == data[..counter] + [rpl[i]];
        assert rpl[..i + 1] == rpl[..i] + [rpl[i]];
        counter := counter + 1;
      }
      assert rpl[..n] == rpl;
    }
    scaled := data[..];
    assert data[..] == data[..counter];
  }
}
