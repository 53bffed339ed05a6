/**
 * Index bookkeeping of the computing-node service (services/service.go):
 * flattening grouped responses for key switching and regrouping them,
 * rebuilding the signature matrix from its flattened transport form, the
 * data-collection roster, and the cutting-factor truncation.
 */
module Service {
  import opened Common
  import opened CommonStructs
  import Api

  /** One group's ciphertexts, as the service stores a data-collection result. */
  datatype ResponseDPOneGroup = ResponseDPOneGroup(group: string, data: seq<CipherText>)

  /** All groups' ciphertexts, one after the other, in group order. */
  function Flatten(groups: seq<ResponseDPOneGroup>): (cv: seq<CipherText>)
  {
    if |groups| == 0 then [] else Flatten(groups[..|groups| - 1]) + groups[|groups| - 1].data
  }

  /** convertToCipherVector: the groups' vectors concatenated in group order. */
  method ConvertToCipherVector(ad: seq<ResponseDPOneGroup>) returns (cv: seq<CipherText>)
    ensures cv == Flatten(ad)
  {
    cv := [];
    for i := 0 to |ad|
      invariant cv == Flatten(ad[..i])
    {
      assert ad[..i + 1][..i] == ad[..i];
      cv := cv + ad[i].data;
    }
    assert ad[..|ad|] == ad;
  }

  lemma MulMono(a: int, b: int, L: int)
    requires a <= b && L >= 0
    ensures a * L <= b * L
  {
    assert b * L - a * L == (b - a) * L;
  }

  /** Inside the window (g·L, g·L + L], only its upper end is a multiple of L. */
  lemma ModStep(L: int, g: int, i: int)
    requires L > 0 && g >= 0 && g * L < i <= g * L + L
    ensures i % L == 0 <==> i == g * L + L
  {
    var q, r := i / L, i % L;
    assert i == q * L + r && 0 <= r < L;
    if q <= g - 1 {
      MulMono(q, g - 1, L);
      assert false;
    }
    if q >= g + 2 {
      MulMono(g + 2, q, L);
      assert false;
    }
    if q == g {
      assert i == g * L + r;
      assert r > 0;
    } else {
      assert q == g + 1;
      assert (g + 1) * L == g * L + L;
    }
  }

  /** The quotient is the q with q·L ≤ n < q·L + L. */
  lemma DivUnique(n: int, L: int, q: int)
    requires L > 0 && q * L <= n < q * L + L
    ensures n / L == q
  {
    var p, r := n / L, n % L;
    assert n == p * L + r && 0 <= r < L;
    if p < q {
      MulMono(p + 1, q, L);
      assert false;
    }
    if p > q {
      MulMono(q + 1, p, L);
      assert false;
    }
  }

  lemma DivLower(n: int, L: int, q: int)
    requires L > 0 && q * L <= n
    ensures q <= n / L
  {
    var p, r := n / L, n % L;
    assert n == p * L + r && 0 <= r < L;
    if p < q {
      MulMono(p + 1, q, L);
      assert false;
    }
  }

  lemma MulNonneg(k: int, L: int)
    requires k >= 0 && L >= 0
    ensures k * L >= 0
  {
  }

  /** Chunk k of length L of cv lies inside cv and is `d`. */
  predicate ChunkAt(cv: seq<CipherText>, L: int, k: int, d: seq<CipherText>)
  {
    L > 0 && 0 <= k * L && k * L + L <= |cv| && d == cv[k * L..k * L + L]
  }

  /**
   * `data` is cv cut into chunks as long as the first group's data, chunk
   * k labelled with group k's name, a trailing partial chunk dropped.
   */
  predicate Regrouped(cv: seq<CipherText>, groups: seq<ResponseDPOneGroup>, data: seq<ResponseDPOneGroup>)
    requires |groups| > 0
  {
    var L := |groups[0].data|;
    (|cv| == 0 ==> data == []) &&
    (|cv| > 0 ==> L > 0 && |data| == |cv| / L) &&
    |data| <= |groups| &&
    forall k :: 0 <= k < |data| ==> data[k].group == groups[k].group && ChunkAt(cv, L, k, data[k].data)
  }

  /** convertFromKeySwitchingStruct: regroups a key-switched vector along the original groups. */
  method ConvertFromKeySwitchingStruct(cv: seq<CipherText>, dpResponses: seq<ResponseDPOneGroup>)
    returns (data: seq<ResponseDPOneGroup>)
    requires |dpResponses| > 0
    requires |cv| > 0 ==> |dpResponses[0].data| > 0
    requires |dpResponses[0].data| > 0 ==> |cv| / |dpResponses[0].data| <= |dpResponses|
    ensures Regrouped(cv, dpResponses, data)
  {
    data := [];
    var length := |dpResponses[0].data|;
    if |cv| == 0 {
      return;
    }
    var init := 0;
    var groupIndex := 0;
    var i := 1;
    while i <= |cv|
      invariant 1 <= i <= |cv| + 1
      invariant groupIndex >= 0 && init == groupIndex * length && init <= i - 1 < init + length
      invariant |data| == groupIndex <= |dpResponses|
      invariant forall k :: 0 <= k < |data| ==> data[k].group == dpResponses[k].group && ChunkAt(cv, length, k, data[k].data)
    {
      ModStep(length, groupIndex, i);
      if i % length == 0 {
        DivLower(|cv|, length, groupIndex + 1);
        MulNonneg(groupIndex, length);
        var tmp := cv[init..i];
        assert ChunkAt(cv, length, groupIndex, tmp);
        init := i;
        data := data + [ResponseDPOneGroup(dpResponses[groupIndex].group, tmp)];
        groupIndex := groupIndex + 1;
        assert init == groupIndex * length;
      }
      i := i + 1;
    }
    DivUnique(|cv|, length, groupIndex);
  }

  /** Groups of one common, positive length. */
  predicate UniformGroups(ad: seq<ResponseDPOneGroup>, L: int)
  {
    L > 0 && forall i :: 0 <= i < |ad| ==> |ad[i].data| == L
  }

  /** In the flattening of uniform groups, chunk k is group k's data. */
  lemma {:induction false} FlattenUniform(ad: seq<ResponseDPOneGroup>, L: int, k: int)
    requires UniformGroups(ad, L) && 0 <= k < |ad|
    ensures |Flatten(ad)| == |ad| * L
    ensures 0 <= k * L && k * L + L <= |Flatten(ad)| && Flatten(ad)[k * L..k * L + L] == ad[k].data
    decreases |ad|
  {
    var n := |ad|;
    var prefix := ad[..n - 1];
    assert UniformGroups(prefix, L);
    MulNonneg(k, L);
    if k < n - 1 {
      FlattenUniform(prefix, L, k);
      assert (k + 1) * L <= (n - 1) * L;
    } else {
      if n - 1 > 0 {
        FlattenUniform(prefix, L, 0);
      } else {
        assert prefix == [];
      }
    }
    assert |Flatten(prefix)| == (n - 1) * L;
  }

  /**
   * When every group has the same positive length, regrouping the
   * flattened vector against the original groups gives the groups back.
   */
  lemma RegroupFlatten(ad: seq<ResponseDPOneGroup>, data: seq<ResponseDPOneGroup>)
    requires |ad| > 0 && UniformGroups(ad, |ad[0].data|)
    requires Regrouped(Flatten(ad), ad, data)
    ensures data == ad
  {
    var L := |ad[0].data|;
    FlattenUniform(ad, L, 0);
    DivUnique(|Flatten(ad)|, L, |ad|);
    forall k | 0 <= k < |ad|
      ensures data[k] == ad[k]
    {
      FlattenUniform(ad, L, k);
    }
  }

  /** The regrouped vector of ConvertFromKeySwitchingStruct meets RegroupFlatten's premises. */
  lemma RegroupPremises(ad: seq<ResponseDPOneGroup>)
    requires |ad| > 0 && UniformGroups(ad, |ad[0].data|)
    ensures |Flatten(ad)| > 0 && |Flatten(ad)| / |ad[0].data| <= |ad|
  {
    FlattenUniform(ad, |ad[0].data|, 0);
    DivUnique(|Flatten(ad)|, |ad[0].data|, |ad|);
  }

  /**
   * generateDataCollectionRoster: the root followed by its data providers,
   * in order, or nothing when the root has no entry.
   */
  method GenerateDataCollectionRoster(root: ServerIdentity, serverToDP: map<string, Option<seq<ServerIdentity>>>)
    returns (roster: Option<seq<ServerIdentity>>)
    requires Api.KeyOf(root) in serverToDP ==> serverToDP[Api.KeyOf(root)].Some?
    ensures roster.None? <==> Api.KeyOf(root) !in serverToDP
    ensures roster.Some? ==> roster.value == [root] + serverToDP[Api.KeyOf(root)].value
  {
    var keys := serverToDP.Keys;
    while keys != {}
      invariant keys <= serverToDP.Keys
      invariant Api.KeyOf(root) in serverToDP ==> Api.KeyOf(root) in keys
      decreases keys
    {
      var key :| key in keys;
      if key == Api.KeyOf(root) {
        var r := [root];
        var value := serverToDP[key].value;
        for j := 0 to |value|
          invariant r == [root] + value[..j]
        {
          r := r + [value[j]];
        }
        assert value[..|value|] == value;
        return Some(r);
      }
      keys := keys - {key};
    }
    return None;
  }

  /**
   * recreateRangeSignatures: the signature matrix, sent flattened with one
   * signature per entry, is rebuilt as ⌊len/size2⌋ rows of size2 entries;
   * row r holds the first signature of entries r·size2 … r·size2 + size2 − 1.
   */
  method RecreateRangeSignatures(ivSigs: seq<seq<PublishSignature>>, size2: int) returns (recreate: seq<seq<PublishSignature>>)
    requires |ivSigs| > 0 ==> size2 > 0
    requires forall i :: 0 <= i < |ivSigs| ==> |ivSigs[i]| > 0
    ensures |ivSigs| > 0 ==> |recreate| == |ivSigs| / size2
    ensures |ivSigs| == 0 ==> recreate == []
    ensures forall r :: 0 <= r < |recreate| ==>
      |recreate[r]| == size2 && 0 <= r * size2 && r * size2 + size2 <= |ivSigs| &&
      forall j :: 0 <= j < size2 ==> recreate[r][j] == ivSigs[r * size2 + j][0]
  {
    recreate := [];
    if |ivSigs| == 0 {
      return;
    }
    var indexInit := 0;
    var i := 1;
    while i <= |ivSigs|
      invariant 1 <= i <= |ivSigs| + 1
      invariant indexInit == |recreate| * size2 && indexInit <= i - 1 < indexInit + size2
      invariant forall r :: 0 <= r < |recreate| ==>
        |recreate[r]| == size2 && 0 <= r * size2 && r * size2 + size2 <= |ivSigs| &&
        forall j :: 0 <= j < size2 ==> recreate[r][j] == ivSigs[r * size2 + j][0]
    {
      ModStep(size2, |recreate|, i);
      if i % size2 == 0 {
        MulNonneg(|recreate|, size2);
        var tmp: seq<PublishSignature> := [];
        for j := 0 to size2
          invariant indexInit == |recreate| * size2 + j
          invariant |tmp| == j && forall t :: 0 <= t < j ==> tmp[t] == ivSigs[|recreate| * size2 + t][0]
        {
          tmp := tmp + [ivSigs[indexInit][0]];
          indexInit := indexInit + 1;
        }
        recreate := recreate + [tmp];
        indexInit := i;
      }
      i := i + 1;
    }
    DivUnique(|ivSigs|, size2, |recreate|);
  }

  /** Go's slice bound len(value)/cuttingFactor, or the whole length for factor 0. */
  function KeptLength(len: nat, cuttingFactor: int): (kept: int)
    ensures kept <= len
    ensures cuttingFactor == 1 ==> kept == len
  {
    TruncDivWithin(len, cuttingFactor);
    if cuttingFactor != 0 then TruncDiv(len, cuttingFactor) else len
  }

  /** Dividing a length by a non-zero factor never makes it longer. */
  lemma TruncDivWithin(len: nat, cuttingFactor: int)
    ensures cuttingFactor != 0 ==> TruncDiv(len, cuttingFactor) <= len
  {
    if cuttingFactor > 0 {
      var q, r := len / cuttingFactor, len % cuttingFactor;
      assert len == q * cuttingFactor + r && r >= 0;
      if q > 0 {
        MulMono(1, cuttingFactor, q);
      }
    } else if cuttingFactor < 0 {
      var q, r := len / cuttingFactor, len % cuttingFactor;
      assert len == q * cuttingFactor + r && 0 <= r < -cuttingFactor;
      if q > 0 {
        MulMono(1, q, -cuttingFactor);
      }
    }
  }

  /** The group names of a response list. */
  function GroupNames(data: seq<ResponseDPOneGroup>): set<string>
  {
    if |data| == 0 then {} else GroupNames(data[..|data| - 1]) + {data[|data| - 1].group}
  }

  /** A response entry holds the kept prefix of its own group's ciphertexts. */
  predicate Truncated(dataDPs: map<string, seq<CipherText>>, cuttingFactor: int, entry: ResponseDPOneGroup)
  {
    entry.group in dataDPs
    && 0 <= KeptLength(|dataDPs[entry.group]|, cuttingFactor)
    && entry.data == dataDPs[entry.group][..KeptLength(|dataDPs[entry.group]|, cuttingFactor)]
  }

  /**
   * The data-collection phase's truncation: each group keeps its first
   * len/CuttingFactor ciphertexts (all of them for factor 0) and is
   * appended to the survey's existing response list. Groups are visited in
   * the map's iteration order, so the appended part lists every key
   * exactly once, in some order.
   */
  method TruncateResponses(existing: seq<ResponseDPOneGroup>, dataDPs: map<string, seq<CipherText>>, cuttingFactor: int)
    returns (data: seq<ResponseDPOneGroup>)
    requires forall key :: key in dataDPs ==> 0 <= KeptLength(|dataDPs[key]|, cuttingFactor)
    ensures |data| == |existing| + |dataDPs.Keys| && data[..|existing|] == existing
    ensures GroupNames(data[|existing|..]) == dataDPs.Keys
    ensures forall k :: |existing| <= k < |data| ==> Truncated(dataDPs, cuttingFactor, data[k])
  {
    data := existing;
    ghost var added: seq<ResponseDPOneGroup> := [];
    var keys := dataDPs.Keys;
    while keys != {}
      invariant keys <= dataDPs.Keys
      invariant data == existing + added
      invariant GroupNames(added) + keys == dataDPs.Keys
      invariant |added| + |keys| == |dataDPs.Keys|
      invariant forall k :: 0 <= k < |added| ==> Truncated(dataDPs, cuttingFactor, added[k])
      decreases keys
    {
      var key :| key in keys;
      var value := dataDPs[key];
      var entry;
      if cuttingFactor != 0 {
        entry := ResponseDPOneGroup(key, value[..TruncDiv(|value|, cuttingFactor)]);
      } else {
        entry := ResponseDPOneGroup(key, value);
      }
      assert Truncated(dataDPs, cuttingFactor, entry);
      AppendTruncated(dataDPs, cuttingFactor, keys, added, entry);
      data := data + [entry];
      added := added + [entry];
      keys := keys - {key};
    }
    assert data[|existing|..] == added;
  }

  /** One step of the truncation loop keeps its invariant on the appended responses. */
  lemma AppendTruncated(dataDPs: map<string, seq<CipherText>>, cuttingFactor: int, keys: set<string>,
                        added: seq<ResponseDPOneGroup>, entry: ResponseDPOneGroup)
    requires entry.group in keys && GroupNames(added) + keys == dataDPs.Keys
    requires |added| + |keys| == |dataDPs.Keys|
    requires forall k :: 0 <= k < |added| ==> Truncated(dataDPs, cuttingFactor, added[k])
    requires Truncated(dataDPs, cuttingFactor, entry)
    ensures GroupNames(added + [entry]) + (keys - {entry.group}) == dataDPs.Keys
    ensures |added + [entry]| + |keys - {entry.group}| == |dataDPs.Keys|
    ensures forall k :: 0 <= k < |added + [entry]| ==> Truncated(dataDPs, cuttingFactor, (added + [entry])[k])
  {
    assert (added + [entry])[..|added|] == added;
    assert GroupNames(added + [entry]) == GroupNames(added) + {entry.group};
    assert |keys - {entry.group}| == |keys| - 1;
  }
}
