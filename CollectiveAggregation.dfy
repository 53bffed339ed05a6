/**
 * The collective aggregation protocol
 * (protocols/collective_aggregation_protocol.go): every computing node
 * merges its children's per-group results into its own, and a non-root
 * node forwards one tagged response per group to its parent, serialised as
 * the concatenation of fixed-length element encodings.
 */
module CollectiveAggregation {
  import opened Common
  import Seqs
  import Service

  type Bytes = seq<bv8>

  /** A group's encrypted group-by values and aggregated attributes. */
  datatype FilteredResponse = FilteredResponse(groupByEnc: seq<CipherText>, aggregatingAttributes: seq<CipherText>)

  /** A response tagged with its deterministic group tag. */
  datatype FilteredResponseDet = FilteredResponseDet(detTagGroupBy: string, fr: FilteredResponse)

  /** A child's entry can be added to the local entry of the same group. */
  predicate Fits(local: map<string, FilteredResponse>, aggr: FilteredResponseDet)
  {
    aggr.detTagGroupBy in local ==>
      |local[aggr.detTagGroupBy].aggregatingAttributes| == |aggr.fr.aggregatingAttributes|
  }

  /**
   * One child entry merged into the local data: the attributes of a known
   * group are added element-wise, keeping the local group-by values; an
   * unseen group is inserted as received.
   */
  function MergeDet(local: map<string, FilteredResponse>, aggr: FilteredResponseDet): (r: map<string, FilteredResponse>)
    requires Fits(local, aggr)
    ensures r.Keys == local.Keys + {aggr.detTagGroupBy}
    ensures forall k :: k in local && k != aggr.detTagGroupBy ==> r[k] == local[k]
    ensures aggr.detTagGroupBy !in local ==> r[aggr.detTagGroupBy] == aggr.fr
    ensures aggr.detTagGroupBy in local ==>
      var l := local[aggr.detTagGroupBy];
      r[aggr.detTagGroupBy].groupByEnc == l.groupByEnc &&
      |r[aggr.detTagGroupBy].aggregatingAttributes| == |l.aggregatingAttributes| &&
      forall j :: 0 <= j < |l.aggregatingAttributes| ==>
        r[aggr.detTagGroupBy].aggregatingAttributes[j].plain == l.aggregatingAttributes[j].plain + aggr.fr.aggregatingAttributes[j].plain
  {
    var tag := aggr.detTagGroupBy;
    if tag in local then
      local[tag := FilteredResponse(local[tag].groupByEnc, AddCipherVectors(local[tag].aggregatingAttributes, aggr.fr.aggregatingAttributes))]
    else local[tag := aggr.fr]
  }

  /** Every entry fits the data it is merged into, in order. */
  predicate Mergeable(local: map<string, FilteredResponse>, datas: seq<FilteredResponseDet>)
    decreases |datas|
  {
    |datas| == 0 || (Fits(local, datas[0]) && Mergeable(MergeDet(local, datas[0]), datas[1..]))
  }

  /** The local data after merging the entries in order. */
  function MergeAll(local: map<string, FilteredResponse>, datas: seq<FilteredResponseDet>): map<string, FilteredResponse>
    requires Mergeable(local, datas)
    decreases |datas|
  {
    if |datas| == 0 then local else MergeAll(MergeDet(local, datas[0]), datas[1..])
  }

  /** The groups after merging: the local ones and every child entry's. */
  lemma {:induction false} MergeAllKeys(local: map<string, FilteredResponse>, datas: seq<FilteredResponseDet>, k: string)
    requires Mergeable(local, datas)
    ensures k in MergeAll(local, datas) <==> k in local || exists i :: 0 <= i < |datas| && datas[i].detTagGroupBy == k
    decreases |datas|
  {
    if |datas| > 0 {
      MergeAllKeys(MergeDet(local, datas[0]), datas[1..], k);
      if exists i :: 0 <= i < |datas| && datas[i].detTagGroupBy == k {
        var i :| 0 <= i < |datas| && datas[i].detTagGroupBy == k;
        if i > 0 {
          assert datas[1..][i - 1].detTagGroupBy == k;
        }
      }
    }
  }

  /** A local group keeps its group-by values whatever its children send. */
  lemma {:induction false} MergeAllKeepsGroupBy(local: map<string, FilteredResponse>, datas: seq<FilteredResponseDet>, k: string)
    requires Mergeable(local, datas) && k in local
    ensures k in MergeAll(local, datas) && MergeAll(local, datas)[k].groupByEnc == local[k].groupByEnc
    decreases |datas|
  {
    if |datas| > 0 {
      MergeAllKeepsGroupBy(MergeDet(local, datas[0]), datas[1..], k);
    }
  }

  /** Entry j of group k holds in every child entry of that group. */
  predicate HasAttribute(datas: seq<FilteredResponseDet>, k: string, j: nat)
  {
    forall i :: 0 <= i < |datas| && datas[i].detTagGroupBy == k ==> j < |datas[i].fr.aggregatingAttributes|
  }

  /** The sum of the j-th aggregated attribute over the child entries of group k. */
  function ChildTotal(datas: seq<FilteredResponseDet>, k: string, j: nat): int
    requires HasAttribute(datas, k, j)
    decreases |datas|
  {
    if |datas| == 0 then 0
    else
      (if datas[0].detTagGroupBy == k then datas[0].fr.aggregatingAttributes[j].plain else 0)
      + ChildTotal(datas[1..], k, j)
  }

  /**
   * After merging, each attribute of a local group decrypts to the local
   * value plus the values every child sent for that group.
   */
  lemma {:induction false} MergeAllIsTotal(local: map<string, FilteredResponse>, datas: seq<FilteredResponseDet>, k: string, j: nat)
    requires Mergeable(local, datas) && k in local && j < |local[k].aggregatingAttributes|
    ensures HasAttribute(datas, k, j)
    ensures k in MergeAll(local, datas) && j < |MergeAll(local, datas)[k].aggregatingAttributes|
    ensures MergeAll(local, datas)[k].aggregatingAttributes[j].plain == local[k].aggregatingAttributes[j].plain + ChildTotal(datas, k, j)
    decreases |datas|
  {
    if |datas| > 0 {
      MergeAllIsTotal(MergeDet(local, datas[0]), datas[1..], k, j);
      forall i | 0 <= i < |datas| && datas[i].detTagGroupBy == k
        ensures j < |datas[i].fr.aggregatingAttributes|
      {
        if i > 0 {
          assert datas[1..][i - 1] == datas[i];
        }
      }
    }
  }

  /** The lists one after the other. */
  function Concat<T>(xss: seq<seq<T>>): seq<T>
  {
    if |xss| == 0 then [] else xss[0] + Concat(xss[1..])
  }

  /** Appending one more list appends its elements. */
  lemma {:induction false} ConcatAppend<T>(xss: seq<seq<T>>, xs: seq<T>)
    ensures Concat(xss + [xs]) == Concat(xss) + xs
  {
    if |xss| > 0 {
      assert (xss + [xs])[1..] == xss[1..] + [xs];
      ConcatAppend(xss[1..], xs);
    } else {
      assert Concat([xs]) == xs + Concat([xs][1..]);
    }
  }

  /** A computing node's state in the protocol. */
  class AggregationNode {
    /** The node's own per-group data; None when no reference was provided. */
    var groupedData: Option<map<string, FilteredResponse>>

    constructor (groupedData: Option<map<string, FilteredResponse>>)
      ensures this.groupedData == groupedData
    {
      this.groupedData := groupedData;
    }

    /** Start, at the root: fails without a data reference. */
    method Start() returns (err: Option<string>)
      ensures err.Some? <==> groupedData.None?
    {
      if groupedData.None? {
        return Some("no data reference provided for aggregation");
      }
      return None;
    }

    /**
     * ascendingAggregationPhase: a missing data reference becomes an empty
     * map; a node that is not a leaf then merges every entry of every
     * child's contribution into its data, in order.
     */
    method AscendingAggregation(children: seq<seq<FilteredResponseDet>>, isLeaf: bool)
      modifies this
      requires isLeaf || Mergeable(if groupedData.Some? then groupedData.value else map[], Concat(children))
      ensures var base := if old(groupedData).Some? then old(groupedData).value else map[];
        groupedData == Some(if isLeaf then base else MergeAll(base, Concat(children)))
    {
      if groupedData.None? {
        groupedData := Some(map[]);
      }
      if !isLeaf {
        var data := groupedData.value;
        ghost var target := MergeAll(data, Concat(children));
        for i := 0 to |children|
          invariant Mergeable(data, Concat(children[i..]))
          invariant MergeAll(data, Concat(children[i..])) == target
        {
          assert Concat(children[i..]) == children[i] + Concat(children[i + 1..]) by {
            assert children[i..][0] == children[i] && children[i..][1..] == children[i + 1..];
          }
          data := MergeChild(data, children[i], Concat(children[i + 1..]));
        }
        assert children[|children|..] == [];
        groupedData := Some(data);
      }
    }
  }

  /**
   * The inner loop of the ascending aggregation: the responses of one child
   * merged into the node's groups, one after another, leaving the rest of
   * the children still to merge.
   */
  method MergeChild(data: map<string, FilteredResponse>, xs: seq<FilteredResponseDet>, rest: seq<FilteredResponseDet>)
    returns (out: map<string, FilteredResponse>)
    requires Mergeable(data, xs + rest)
    ensures Mergeable(out, rest) && MergeAll(out, rest) == MergeAll(data, xs + rest)
  {
    out := data;
    assert xs[0..] == xs;
    for a := 0 to |xs|
      invariant Mergeable(out, xs[a..] + rest)
      invariant MergeAll(out, xs[a..] + rest) == MergeAll(data, xs + rest)
    {
      assert (xs[a..] + rest)[0] == xs[a] && (xs[a..] + rest)[1..] == xs[a + 1..] + rest;
      out := MergeDet(out, xs[a]);
    }
    assert xs[|xs|..] + rest == rest;
  }

  /**
   * What a non-root node forwards: one tagged response per group of its
   * data, in the map's iteration order.
   */
  method DetResponses(groupedData: map<string, FilteredResponse>) returns (detAggrResponses: seq<FilteredResponseDet>)
    ensures |detAggrResponses| == |groupedData.Keys|
    ensures forall i :: 0 <= i < |detAggrResponses| ==>
      detAggrResponses[i].detTagGroupBy in groupedData && detAggrResponses[i].fr == groupedData[detAggrResponses[i].detTagGroupBy]
    ensures forall k :: k in groupedData ==> exists i :: 0 <= i < |detAggrResponses| && detAggrResponses[i].detTagGroupBy == k
    ensures forall i, j :: 0 <= i < j < |detAggrResponses| ==> detAggrResponses[i].detTagGroupBy != detAggrResponses[j].detTagGroupBy
  {
    detAggrResponses := [];
    var keys := groupedData.Keys;
    while keys != {}
      invariant keys <= groupedData.Keys
      invariant |detAggrResponses| + |keys| == |groupedData.Keys|
      invariant forall i :: 0 <= i < |detAggrResponses| ==>
        detAggrResponses[i].detTagGroupBy in groupedData.Keys - keys && detAggrResponses[i].fr == groupedData[detAggrResponses[i].detTagGroupBy]
      invariant forall k :: k in groupedData.Keys - keys ==> exists i :: 0 <= i < |detAggrResponses| && detAggrResponses[i].detTagGroupBy == k
      invariant forall i, j :: 0 <= i < j < |detAggrResponses| ==> detAggrResponses[i].detTagGroupBy != detAggrResponses[j].detTagGroupBy
      decreases keys
    {
      var k :| k in keys;
      ghost var before := detAggrResponses;
      detAggrResponses := detAggrResponses + [FilteredResponseDet(k, groupedData[k])];
      forall k' | k' in groupedData.Keys - (keys - {k})
        ensures exists i :: 0 <= i < |detAggrResponses| && detAggrResponses[i].detTagGroupBy == k'
      {
        if k' == k {
          assert detAggrResponses[|before|].detTagGroupBy == k;
        } else {
          assert k' in groupedData.Keys - keys;
          var i :| 0 <= i < |before| && before[i].detTagGroupBy == k';
          assert detAggrResponses[i] == before[i];
        }
      }
      keys := keys - {k};
    }
    assert groupedData.Keys - keys == groupedData.Keys;
  }

  /** The size in bytes of an encrypted point pair. */
  const LengthCipher: int := 64

  /**
   * The length of one element's encoding: its group-by ciphertexts, its
   * aggregated ciphertexts and its tag.
   */
  function ElementLength(gacbLength: nat, aabLength: nat, dtbLength: nat): (n: nat)
    ensures n >= dtbLength && (gacbLength + aabLength > 0 ==> n >= LengthCipher)
  {
    gacbLength * LengthCipher + aabLength * LengthCipher + dtbLength
  }

  /** ToBytes: the element encodings concatenated in order. */
  method ToBytes(bb: seq<Bytes>) returns (b: Bytes)
    ensures b == Concat(bb)
    ensures |b| == Seqs.Sum(LengthsOf(bb))
  {
    b := [];
    for i := 0 to |bb|
      invariant b == Concat(bb[..i])
    {
      ConcatAppend(bb[..i], bb[i]);
      assert bb[..i + 1] == bb[..i] + [bb[i]];
      b := b + bb[i];
    }
    assert bb[..|bb|] == bb;
    ConcatLength(bb);
  }

  function LengthsOf(bb: seq<Bytes>): (ls: seq<int>)
    ensures |ls| == |bb| && forall i :: 0 <= i < |bb| ==> ls[i] == |bb[i]|
  {
    seq(|bb|, i requires 0 <= i < |bb| => |bb[i]|)
  }

  lemma {:induction false} ConcatLength(bb: seq<Bytes>)
    ensures |Concat(bb)| == Seqs.Sum(LengthsOf(bb))
  {
    if |bb| > 0 {
      ConcatLength(bb[1..]);
      assert LengthsOf(bb) == [|bb[0]|] + LengthsOf(bb[1..]);
      Seqs.SumAppend([|bb[0]|], LengthsOf(bb[1..]));
      assert [|bb[0]|][..0] == [];
    }
  }

  /** Chunk i of length L of data lies inside data and is c. */
  predicate ChunkAt(data: Bytes, L: int, i: int, c: Bytes)
  {
    L > 0 && 0 <= i * L && i * L + L <= |data| && c == data[i * L..i * L + L]
  }

  /**
   * FromBytes: with a non-zero element length and some data, the data cut
   * into len(data)/elementLength consecutive chunks, written into a fresh
   * buffer (each chunk is then decoded element by element); otherwise the
   * previous contents are left as they were.
   */
  method FromBytes(data: Bytes, elementLength: nat, previous: seq<Bytes>) returns (childData: seq<Bytes>)
    ensures elementLength == 0 || |data| == 0 ==> childData == previous
    ensures elementLength != 0 && |data| > 0 ==>
      |childData| == |data| / elementLength &&
      forall i :: 0 <= i < |childData| ==> ChunkAt(data, elementLength, i, childData[i])
  {
    if elementLength == 0 || |data| == 0 {
      return previous;
    }
    var nbrChildData := |data| / elementLength;
    DivMulBound(|data|, elementLength);
    var buffer := new Bytes[nbrChildData];
    for i := 0 to nbrChildData
      invariant forall k :: 0 <= k < i ==> ChunkAt(data, elementLength, k, buffer[k])
    {
      Service.MulMono(i + 1, nbrChildData, elementLength);
      Service.MulNonneg(i, elementLength);
      buffer[i] := data[i * elementLength..i * elementLength + elementLength];
    }
    childData := buffer[..];
  }

  /** Whole chunks fit in the data. */
  lemma DivMulBound(n: nat, L: nat)
    requires L > 0
    ensures (n / L) * L <= n
  {
    var q, r := n / L, n % L;
    assert n == q * L + r;
  }

  /** Encodings of one length concatenate to that many times the length. */
  lemma {:induction false} UniformConcatLength(bb: seq<Bytes>, L: int)
    requires L > 0 && forall i :: 0 <= i < |bb| ==> |bb[i]| == L
    ensures |Concat(bb)| == |bb| * L
    decreases |bb|
  {
    if |bb| > 0 {
      UniformConcatLength(bb[1..], L);
      assert |Concat(bb)| == L + (|bb| - 1) * L;
    }
  }

  /** A slice past a prefix is the same slice of the rest. */
  lemma SliceAfterPrefix<T>(a: seq<T>, b: seq<T>, x: int, y: int)
    requires 0 <= x <= y <= |b|
    ensures (a + b)[|a| + x..|a| + y] == b[x..y]
  {
  }

  /** In the concatenation of encodings of one length, chunk k is encoding k. */
  lemma {:induction false} ConcatChunks(bb: seq<Bytes>, L: int, k: int)
    requires L > 0 && forall i :: 0 <= i < |bb| ==> |bb[i]| == L
    requires 0 <= k < |bb|
    ensures |Concat(bb)| == |bb| * L
    ensures ChunkAt(Concat(bb), L, k, bb[k])
    decreases |bb|
  {
    UniformConcatLength(bb, L);
    var tail := bb[1..];
    assert Concat(bb) == bb[0] + Concat(tail);
    if k > 0 {
      ConcatChunks(tail, L, k - 1);
      Service.MulNonneg(k - 1, L);
      assert (k - 1) * L + L == k * L;
      SliceAfterPrefix(bb[0], Concat(tail), (k - 1) * L, (k - 1) * L + L);
    }
  }

  /**
   * FromBytes undoes ToBytes: cutting the concatenation of a non-empty list
   * of same-length encodings gives the list back.
   */
  lemma FromBytesInvertsToBytes(bb: seq<Bytes>, L: int, childData: seq<Bytes>)
    requires L > 0 && |bb| > 0 && forall i :: 0 <= i < |bb| ==> |bb[i]| == L
    requires |childData| == |Concat(bb)| / L
    requires forall i :: 0 <= i < |childData| ==> ChunkAt(Concat(bb), L, i, childData[i])
    ensures childData == bb
  {
    ConcatChunks(bb, L, 0);
    Service.DivUnique(|Concat(bb)|, L, |bb|);
    forall k | 0 <= k < |bb|
      ensures childData[k] == bb[k]
    {
      ConcatChunks(bb, L, k);
    }
  }
}
