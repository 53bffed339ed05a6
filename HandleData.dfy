/**
 * Test-data generation and comparison helpers used by the service tests
 * (services/data/handle_data.go): the enumeration of every group tuple,
 * the generated survey entries, and the clearing and comparison of
 * expected results.
 */
module HandleData {
  import opened Common

  /** A data provider's clear response: six attribute maps keyed by name. */
  datatype DpClearResponse = DpClearResponse(
    groupByClear: map<string, int>, groupByEnc: map<string, int>,
    whereClear: map<string, int>, whereEnc: map<string, int>,
    aggrClear: map<string, int>, aggrEnc: map<string, int>)

  // ---------------------------------------------------------------------------
  // FillInt64Slice
  // ---------------------------------------------------------------------------

  /** Sets every element of s to v. */
  method FillInt64Slice(s: array<int>, v: int)
    modifies s
    ensures forall i :: 0 <= i < s.Length ==> s[i] == v
  {
    var i := 0;
    while i < s.Length
      invariant 0 <= i <= s.Length
      invariant forall k :: 0 <= k < i ==> s[k] == v
    {
      s[i] := v;
      i := i + 1;
    }
  }

  // ---------------------------------------------------------------------------
  // Decimal rendering of keys ("%v" of a non-negative integer)
  // ---------------------------------------------------------------------------

  function Digit(d: nat): char
    requires d < 10
  {
    (48 + d) as char
  }

  /** The decimal text of n, most significant digit first. */
  function Decimal(n: nat): (s: string)
    ensures |s| >= 1
    ensures n < 10 <==> |s| == 1
  {
    if n < 10 then [Digit(n)] else Decimal(n / 10) + [Digit(n % 10)]
  }

  /** Distinct numbers have distinct decimal texts. */
  lemma {:induction false} DecimalInjective(a: nat, b: nat)
    requires Decimal(a) == Decimal(b)
    ensures a == b
    decreases a
  {
    if a >= 10 && b >= 10 {
      var sa, sb := Decimal(a), Decimal(b);
      assert sa[|sa| - 1] == Digit(a % 10);
      assert sb[|sb| - 1] == Digit(b % 10);
      assert sa[..|sa| - 1] == Decimal(a / 10);
      assert sb[..|sb| - 1] == Decimal(b / 10);
      DecimalInjective(a / 10, b / 10);
    }
  }

  /** The name of attribute number i in the family with the given prefix. */
  function AttrKey(prefix: string, i: nat): string
  {
    prefix + Decimal(i)
  }

  /** A new attribute number gives a key not used by the lower numbers. */
  lemma AttrKeyFresh(prefix: string, offset: nat, n: nat)
    ensures forall i :: offset <= i < offset + n ==> AttrKey(prefix, i) != AttrKey(prefix, offset + n)
  {
    forall i | offset <= i < offset + n
      ensures AttrKey(prefix, i) != AttrKey(prefix, offset + n)
    {
      if AttrKey(prefix, i) == AttrKey(prefix, offset + n) {
        assert Decimal(i) == AttrKey(prefix, i)[|prefix|..];
        assert Decimal(offset + n) == AttrKey(prefix, offset + n)[|prefix|..];
        DecimalInjective(i, offset + n);
      }
    }
  }

  /** data[i] stored under the name prefix+(offset+i), for every i. */
  function AttrMap(data: seq<int>, prefix: string, offset: nat): map<string, int>
  {
    if |data| == 0 then map[]
    else AttrMap(data[..|data| - 1], prefix, offset)[AttrKey(prefix, offset + |data| - 1) := data[|data| - 1]]
  }

  /** Attribute offset+i holds data[i]. */
  lemma {:induction false} AttrMapLookup(data: seq<int>, prefix: string, offset: nat)
    ensures forall i :: offset <= i < offset + |data| ==>
      AttrKey(prefix, i) in AttrMap(data, prefix, offset) && AttrMap(data, prefix, offset)[AttrKey(prefix, i)] == data[i - offset]
  {
    if |data| > 0 {
      var n := |data| - 1;
      AttrMapLookup(data[..n], prefix, offset);
      AttrKeyFresh(prefix, offset, n);
    }
  }

  /** The map holds nothing but data values. */
  lemma {:induction false} AttrMapValues(data: seq<int>, prefix: string, offset: nat)
    ensures forall k :: k in AttrMap(data, prefix, offset) ==> AttrMap(data, prefix, offset)[k] in data
  {
    if |data| > 0 {
      var n := |data| - 1;
      AttrMapValues(data[..n], prefix, offset);
      assert forall x :: x in data[..n] ==> x in data;
    }
  }

  // ---------------------------------------------------------------------------
  // AllPossibleGroups
  // ---------------------------------------------------------------------------

  function Clamp(x: int): nat
  {
    if x < 0 then 0 else x
  }

  /** g prepended to every tuple of ts. */
  function Prefixed(g: seq<int>, ts: seq<seq<int>>): (r: seq<seq<int>>)
    ensures |r| == |ts|
    ensures forall j :: 0 <= j < |ts| ==> r[j] == g + ts[j]
  {
    seq(|ts|, j requires 0 <= j < |ts| => g + ts[j])
  }

  /**
   * Every tuple t with 0 <= t[k] < ns[k], in the order the enumeration
   * produces them: the first position varies slowest.
   */
  function Tuples(ns: seq<int>): seq<seq<int>>
    decreases |ns|, 1, 0
  {
    if |ns| == 0 then [[]] else TuplesBelow(ns, Clamp(ns[0]))
  }

  /** The tuples of ns whose first element is below i. */
  function TuplesBelow(ns: seq<int>, i: nat): seq<seq<int>>
    requires |ns| > 0
    decreases |ns|, 0, i
  {
    if i == 0 then [] else TuplesBelow(ns, i - 1) + Prefixed([i - 1], Tuples(ns[1..]))
  }

  /** The generator's state: the global list of groups it appends to. */
  class GroupGenerator {
    var groups: seq<seq<int>>

    constructor ()
      ensures groups == []
    {
      groups := [];
    }

    /**
     * Appends group ++ t for every tuple t over the counts numType[pos..],
     * in order; group is restored after each choice.
     */
    method AllPossibleGroups(numType: seq<int>, group: seq<int>, pos: nat)
      requires pos <= |numType|
      modifies this
      ensures groups == old(groups) + Prefixed(group, Tuples(numType[pos..]))
      decreases |numType| - pos
    {
      if pos == |numType| {
        var tmp := CopyGroup(group);
        assert tmp == group + [];
        groups := groups + [tmp];
      } else {
        var g := group;
        var i := 0;
        while i < numType[pos]
          invariant 0 <= i <= Clamp(numType[pos])
          invariant g == group
          invariant groups == old(groups) + Prefixed(group, TuplesBelow(numType[pos..], i))
        {
          g := g + [i];
          AllPossibleGroups(numType, g, pos + 1);
          g := g[..|g| - 1];
          assert numType[pos..][1..] == numType[pos + 1..];
          PrefixedStep(group, numType[pos..], i);
          AppendAssoc(old(groups), Prefixed(group, TuplesBelow(numType[pos..], i)),
                      Prefixed(group + [i], Tuples(numType[pos + 1..])));
          i := i + 1;
        }
      }
    }
  }

  lemma AppendAssoc<T>(a: seq<T>, b: seq<T>, c: seq<T>)
    ensures (a + b) + c == a + (b + c)
  {
  }

  /** An element-by-element copy of group. */
  method CopyGroup(group: seq<int>) returns (tmp: seq<int>)
    ensures tmp == group
  {
    tmp := [];
    var k := 0;
    while k < |group|
      invariant 0 <= k <= |group|
      invariant tmp == group[..k]
    {
      tmp := tmp + [group[k]];
      k := k + 1;
    }
  }

  lemma PrefixedConcat(g: seq<int>, a: seq<seq<int>>, b: seq<seq<int>>)
    ensures Prefixed(g, a + b) == Prefixed(g, a) + Prefixed(g, b)
  {
  }

  lemma PrefixedStep(group: seq<int>, ns: seq<int>, i: nat)
    requires |ns| > 0
    ensures Prefixed(group, TuplesBelow(ns, i + 1))
         == Prefixed(group, TuplesBelow(ns, i)) + Prefixed(group + [i], Tuples(ns[1..]))
  {
    var rest := Tuples(ns[1..]);
    PrefixedConcat(group, TuplesBelow(ns, i), Prefixed([i], rest));
    var p, q := Prefixed(group, Prefixed([i], rest)), Prefixed(group + [i], rest);
    assert |p| == |q|;
    forall j | 0 <= j < |p|
      ensures p[j] == q[j]
    {
      assert group + ([i] + rest[j]) == (group + [i]) + rest[j];
    }
  }

  /** The product of the counts, multiplied left to right as the source does. */
  function Product(s: seq<int>): int
  {
    if |s| == 0 then 1 else Product(s[..|s| - 1]) * s[|s| - 1]
  }

  lemma {:induction false} ProductFirst(s: seq<int>)
    requires |s| > 0
    ensures Product(s) == s[0] * Product(s[1..])
  {
    if |s| > 1 {
      var init := s[..|s| - 1];
      ProductFirst(init);
      assert init[1..] == s[1..][..|s[1..]| - 1];
      calc {
        Product(s);
        Product(init) * s[|s| - 1];
        (s[0] * Product(init[1..])) * s[|s| - 1];
        s[0] * (Product(init[1..]) * s[|s| - 1]);
        s[0] * Product(s[1..]);
      }
    }
  }

  predicate NonNegative(ns: seq<int>)
  {
    forall k :: 0 <= k < |ns| ==> ns[k] >= 0
  }

  /** There are exactly Π numType[k] group tuples. */
  lemma {:induction false} TuplesCount(ns: seq<int>)
    requires NonNegative(ns)
    ensures |Tuples(ns)| == Product(ns)
    decreases |ns|, 1
  {
    if |ns| > 0 {
      TuplesBelowCount(ns, ns[0]);
      ProductFirst(ns);
    }
  }

  lemma {:induction false} TuplesBelowCount(ns: seq<int>, i: nat)
    requires |ns| > 0 && NonNegative(ns)
    ensures |TuplesBelow(ns, i)| == i * Product(ns[1..])
    decreases |ns|, 0, i
  {
    if i > 0 {
      TuplesBelowCount(ns, i - 1);
      TuplesCount(ns[1..]);
    }
  }

  /** t is a valid group: one value per attribute, each below its count. */
  predicate InBounds(t: seq<int>, ns: seq<int>)
  {
    |t| == |ns| && forall k :: 0 <= k < |ns| ==> 0 <= t[k] < ns[k]
  }

  lemma PrefixedMembers(g: seq<int>, ts: seq<seq<int>>, t: seq<int>)
    ensures t in Prefixed(g, ts) <==> |t| >= |g| && t[..|g|] == g && t[|g|..] in ts
  {
    var p := Prefixed(g, ts);
    if t in p {
      var j :| 0 <= j < |p| && p[j] == t;
      assert t[|g|..] == ts[j];
    }
    if |t| >= |g| && t[..|g|] == g && t[|g|..] in ts {
      var j :| 0 <= j < |ts| && ts[j] == t[|g|..];
      assert p[j] == t;
    }
  }

  /** A tuple is produced iff it is a valid group: nothing is missing or extra. */
  lemma {:induction false} TuplesMembers(ns: seq<int>, t: seq<int>)
    ensures t in Tuples(ns) <==> InBounds(t, ns)
    decreases |ns|, 1
  {
    if |ns| > 0 {
      TuplesBelowMembers(ns, Clamp(ns[0]), t);
      if |t| > 0 {
        TuplesMembers(ns[1..], t[1..]);
        if InBounds(t, ns) {
          forall k | 0 <= k < |ns[1..]|
            ensures 0 <= t[1..][k] < ns[1..][k]
          {
            assert t[1..][k] == t[k + 1];
          }
        }
        if 0 <= t[0] < Clamp(ns[0]) && InBounds(t[1..], ns[1..]) {
          forall k | 0 <= k < |ns|
            ensures 0 <= t[k] < ns[k]
          {
            if k > 0 {
              assert t[k] == t[1..][k - 1];
            }
          }
        }
      }
    }
  }

  lemma {:induction false} TuplesBelowMembers(ns: seq<int>, i: nat, t: seq<int>)
    requires |ns| > 0
    ensures t in TuplesBelow(ns, i) <==> |t| > 0 && 0 <= t[0] < i && t[1..] in Tuples(ns[1..])
    decreases |ns|, 0, i
  {
    if i > 0 {
      TuplesBelowMembers(ns, i - 1, t);
      PrefixedMembers([i - 1], Tuples(ns[1..]), t);
      if |t| > 0 {
        assert t[..1] == [i - 1] <==> t[0] == i - 1;
      }
    }
  }

  /** a comes strictly before b in lexicographic order. */
  predicate LexLess(a: seq<int>, b: seq<int>)
  {
    |a| > 0 && |b| > 0 && (a[0] < b[0] || (a[0] == b[0] && LexLess(a[1..], b[1..])))
  }

  predicate StrictlyIncreasing(ts: seq<seq<int>>)
  {
    forall i, j :: 0 <= i < j < |ts| ==> LexLess(ts[i], ts[j])
  }

  /** The groups come in strictly increasing lexicographic order (so no repeats). */
  lemma {:induction false} TuplesSorted(ns: seq<int>)
    ensures StrictlyIncreasing(Tuples(ns))
    decreases |ns|, 1
  {
    if |ns| > 0 {
      TuplesBelowSorted(ns, Clamp(ns[0]));
    }
  }

  lemma {:induction false} TuplesBelowSorted(ns: seq<int>, i: nat)
    requires |ns| > 0
    ensures StrictlyIncreasing(TuplesBelow(ns, i))
    decreases |ns|, 0, i
  {
    if i > 0 {
      var a := TuplesBelow(ns, i - 1);
      var rest := Tuples(ns[1..]);
      var b := Prefixed([i - 1], rest);
      TuplesBelowSorted(ns, i - 1);
      TuplesSorted(ns[1..]);
      var s := a + b;
      assert s == TuplesBelow(ns, i);
      forall p, q | 0 <= p < q < |s|
        ensures LexLess(s[p], s[q])
      {
        if q < |a| {
          assert s[p] == a[p] && s[q] == a[q];
        } else if p < |a| {
          TuplesBelowMembers(ns, i - 1, a[p]);
          assert s[q] == [i - 1] + rest[q - |a|];
        } else {
          var x, y := rest[p - |a|], rest[q - |a|];
          assert s[p] == [i - 1] + x && s[q] == [i - 1] + y;
          assert ([i - 1] + x)[1..] == x && ([i - 1] + y)[1..] == y;
        }
      }
    }
  }

  // ---------------------------------------------------------------------------
  // GenerateUnLynxData (deterministic-group mode)
  // ---------------------------------------------------------------------------

  /** How many attributes of each kind an entry has. */
  datatype Layout = Layout(groupsClear: nat, groupsEnc: nat, whereClear: nat, whereEnc: nat,
                           aggrClear: nat, aggrEnc: nat)

  /** One entry: the group, where and aggregating values split into clear and encrypted maps. */
  function Entry(layout: Layout, grp: seq<int>, where: seq<int>, aggr: seq<int>): DpClearResponse
    requires |grp| == layout.groupsClear + layout.groupsEnc
    requires |where| == layout.whereClear + layout.whereEnc
    requires |aggr| == layout.aggrClear + layout.aggrEnc
  {
    var gc, wc, ac := layout.groupsClear, layout.whereClear, layout.aggrClear;
    DpClearResponse(
      AttrMap(grp[..gc], "g", 0), AttrMap(grp[gc..], "g", gc),
      AttrMap(where[..wc], "w", 0), AttrMap(where[wc..], "w", wc),
      AttrMap(aggr[..ac], "s", 0), AttrMap(aggr[ac..], "s", ac))
  }

  /**
   * Every where value comes from where, every aggregating value from aggr,
   * and group attribute i holds grp[i].
   */
  lemma EntryFacts(layout: Layout, grp: seq<int>, where: seq<int>, aggr: seq<int>)
    requires |grp| == layout.groupsClear + layout.groupsEnc
    requires |where| == layout.whereClear + layout.whereEnc
    requires |aggr| == layout.aggrClear + layout.aggrEnc
    ensures var e := Entry(layout, grp, where, aggr);
      (forall k :: k in e.whereClear ==> e.whereClear[k] in where) &&
      (forall k :: k in e.whereEnc ==> e.whereEnc[k] in where) &&
      (forall k :: k in e.aggrClear ==> e.aggrClear[k] in aggr) &&
      (forall k :: k in e.aggrEnc ==> e.aggrEnc[k] in aggr) &&
      (forall i :: 0 <= i < layout.groupsClear ==>
        AttrKey("g", i) in e.groupByClear && e.groupByClear[AttrKey("g", i)] == grp[i]) &&
      (forall i :: layout.groupsClear <= i < |grp| ==>
        AttrKey("g", i) in e.groupByEnc && e.groupByEnc[AttrKey("g", i)] == grp[i])
  {
    var gc, wc := layout.groupsClear, layout.whereClear;
    SplitValues(where, wc);
    AttrMapValues(where[..wc], "w", 0);
    AttrMapValues(where[wc..], "w", wc);
    var ac := layout.aggrClear;
    SplitValues(aggr, ac);
    AttrMapValues(aggr[..ac], "s", 0);
    AttrMapValues(aggr[ac..], "s", ac);
    SplitGroups(grp, gc);
  }

  lemma SplitValues(where: seq<int>, wc: nat)
    requires wc <= |where|
    ensures forall x :: x in where[..wc] ==> x in where
    ensures forall x :: x in where[wc..] ==> x in where
  {
  }

  lemma SplitGroups(grp: seq<int>, gc: nat)
    requires gc <= |grp|
    ensures forall i :: 0 <= i < gc ==>
      AttrKey("g", i) in AttrMap(grp[..gc], "g", 0) && AttrMap(grp[..gc], "g", 0)[AttrKey("g", i)] == grp[i]
    ensures forall i :: gc <= i < |grp| ==>
      AttrKey("g", i) in AttrMap(grp[gc..], "g", gc) && AttrMap(grp[gc..], "g", gc)[AttrKey("g", i)] == grp[i]
  {
    AttrMapLookup(grp[..gc], "g", 0);
    AttrMapLookup(grp[gc..], "g", gc);
    forall i | gc <= i < |grp|
      ensures grp[gc..][i - gc] == grp[i]
    {
    }
  }

  /** The where value of entry j: 1 for the first numEntriesFiltered entries, else 0. */
  function WhereValue(j: int, numEntriesFiltered: int): int
  {
    if j < numEntriesFiltered then 1 else 0
  }

  /** Entry j's aggregating values for provider dp: draws in {0, 1}. */
  function Draws(coin: (int, int, nat) -> bool, dp: int, j: int, n: nat): (r: seq<int>)
    ensures |r| == n && forall k :: 0 <= k < n ==> r[k] == 0 || r[k] == 1
  {
    seq(n, k requires 0 <= k < n => if coin(dp, j, k) then 1 else 0)
  }

  /** Entry j of provider dp. */
  function GeneratedEntry(layout: Layout, numEntriesFiltered: int, grp: seq<int>,
                          coin: (int, int, nat) -> bool, dp: int, j: int): DpClearResponse
    requires |grp| == layout.groupsClear + layout.groupsEnc
  {
    Entry(layout, grp, seq(layout.whereClear + layout.whereEnc, _ => WhereValue(j, numEntriesFiltered)),
          Draws(coin, dp, j, layout.aggrClear + layout.aggrEnc))
  }

  /** The entries generated for provider dp. */
  function Generated(layout: Layout, numEntries: nat, numEntriesFiltered: int,
                     groups: seq<seq<int>>, coin: (int, int, nat) -> bool, dp: int): seq<DpClearResponse>
    requires numEntries <= |groups|
    requires forall j :: 0 <= j < |groups| ==> |groups[j]| == layout.groupsClear + layout.groupsEnc
  {
    GeneratedUpTo(numEntries, layout, numEntriesFiltered, groups, coin, dp)
  }

  function GeneratedUpTo(n: nat, layout: Layout, numEntriesFiltered: int,
                         groups: seq<seq<int>>, coin: (int, int, nat) -> bool, dp: int): (r: seq<DpClearResponse>)
    requires n <= |groups|
    requires forall j :: 0 <= j < |groups| ==> |groups[j]| == layout.groupsClear + layout.groupsEnc
    ensures |r| == n
  {
    if n == 0 then []
    else GeneratedUpTo(n - 1, layout, numEntriesFiltered, groups, coin, dp)
         + [GeneratedEntry(layout, numEntriesFiltered, groups[n - 1], coin, dp, n - 1)]
  }

  /**
   * Every where attribute of entry j is WhereValue(j), every aggregating
   * value is 0 or 1, and group attribute i holds grp[i].
   */
  predicate EntryShape(e: DpClearResponse, layout: Layout, grp: seq<int>, whereValue: int)
  {
    (forall k :: k in e.whereClear ==> e.whereClear[k] == whereValue) &&
    (forall k :: k in e.whereEnc ==> e.whereEnc[k] == whereValue) &&
    (forall k :: k in e.aggrClear ==> e.aggrClear[k] == 0 || e.aggrClear[k] == 1) &&
    (forall k :: k in e.aggrEnc ==> e.aggrEnc[k] == 0 || e.aggrEnc[k] == 1) &&
    (forall i :: 0 <= i < |grp| ==>
      (i < layout.groupsClear ==> AttrKey("g", i) in e.groupByClear && e.groupByClear[AttrKey("g", i)] == grp[i]) &&
      (i >= layout.groupsClear ==> AttrKey("g", i) in e.groupByEnc && e.groupByEnc[AttrKey("g", i)] == grp[i]))
  }

  lemma GeneratedEntryShape(layout: Layout, numEntriesFiltered: int, grp: seq<int>,
                            coin: (int, int, nat) -> bool, dp: int, j: int)
    requires |grp| == layout.groupsClear + layout.groupsEnc
    ensures EntryShape(GeneratedEntry(layout, numEntriesFiltered, grp, coin, dp, j), layout, grp,
                       if j < numEntriesFiltered then 1 else 0)
  {
    var v := WhereValue(j, numEntriesFiltered);
    var where := seq(layout.whereClear + layout.whereEnc, _ => v);
    var e := Entry(layout, grp, where, Draws(coin, dp, j, layout.aggrClear + layout.aggrEnc));
    var aggr := Draws(coin, dp, j, layout.aggrClear + layout.aggrEnc);
    EntryFacts(layout, grp, where, aggr);
    forall x | x in where
      ensures x == v
    {
    }
    forall x | x in aggr
      ensures x == 0 || x == 1
    {
    }
  }

  /**
   * The first numEntriesFiltered entries have every where attribute 1 and the
   * rest 0; entry j's group values are the j-th group tuple.
   */
  lemma GeneratedEntries(layout: Layout, numEntries: nat, numEntriesFiltered: int,
                         groups: seq<seq<int>>, coin: (int, int, nat) -> bool, dp: int, j: nat)
    requires numEntries <= |groups|
    requires forall j :: 0 <= j < |groups| ==> |groups[j]| == layout.groupsClear + layout.groupsEnc
    requires j < numEntries
    ensures EntryShape(Generated(layout, numEntries, numEntriesFiltered, groups, coin, dp)[j], layout, groups[j],
                       if j < numEntriesFiltered then 1 else 0)
  {
    GeneratedUpToIndex(numEntries, layout, numEntriesFiltered, groups, coin, dp, j);
    GeneratedEntryShape(layout, numEntriesFiltered, groups[j], coin, dp, j);
  }

  lemma {:induction false} GeneratedUpToIndex(n: nat, layout: Layout, numEntriesFiltered: int,
                                              groups: seq<seq<int>>, coin: (int, int, nat) -> bool, dp: int, j: nat)
    requires n <= |groups|
    requires forall j :: 0 <= j < |groups| ==> |groups[j]| == layout.groupsClear + layout.groupsEnc
    requires j < n
    ensures GeneratedUpTo(n, layout, numEntriesFiltered, groups, coin, dp)[j]
         == GeneratedEntry(layout, numEntriesFiltered, groups[j], coin, dp, j)
  {
    if j < n - 1 {
      GeneratedUpToIndex(n - 1, layout, numEntriesFiltered, groups, coin, dp, j);
    }
  }

  /**
   * Builds the test data of numDPs providers, keyed "0".."numDPs-1", each
   * with numEntries entries covering every group tuple once. Fails when
   * numType does not give one count per grouping attribute or when the
   * number of tuples differs from numEntries. The random aggregating values
   * are drawn by coin.
   */
  method GenerateUnLynxData(gen: GroupGenerator, numDPs: int, numEntries: int, numEntriesFiltered: int,
                            layout: Layout, numType: seq<int>, coin: (int, int, nat) -> bool)
    returns (r: Result<map<string, seq<DpClearResponse>>>)
    requires NonNegative(numType)
    modifies gen
    ensures r.Err? <==> |numType| != layout.groupsClear + layout.groupsEnc || Product(numType) != numEntries
    ensures r.Ok? ==> (gen.groups == Tuples(numType) && |gen.groups| == numEntries &&
      forall j :: 0 <= j < |gen.groups| ==> |gen.groups[j]| == layout.groupsClear + layout.groupsEnc)
    ensures r.Ok? ==> r.value == Indexed(GeneratedAll(Clamp(numDPs), layout, numEntries, numEntriesFiltered, gen.groups, coin))
  {
    if |numType| != layout.groupsClear + layout.groupsEnc {
      return Err("Please ensure that you specify the number of group types for each grouping attribute");
    }
    var numElem := NumElem(numType);
    if numElem != numEntries {
      return Err("Please ensure that the number of groups is the same as the number of entries");
    }
    gen.groups := [];
    gen.AllPossibleGroups(numType, [], 0);
    EnumerationFromEmpty(numType, gen.groups);
    var groups := gen.groups;
    var testData := BuildTestData(numDPs, numEntries, numEntriesFiltered, layout, groups, coin);
    r := Ok(testData);
  }

  /** The keyed providers' entries: keys "0".."numDPs-1", provider i under key i. */
  lemma TestDataLookup(numDPs: int, numEntries: nat, numEntriesFiltered: int, layout: Layout,
                       groups: seq<seq<int>>, coin: (int, int, nat) -> bool)
    requires numEntries <= |groups|
    requires forall j :: 0 <= j < |groups| ==> |groups[j]| == layout.groupsClear + layout.groupsEnc
    ensures var testData := Indexed(GeneratedAll(Clamp(numDPs), layout, numEntries, numEntriesFiltered, groups, coin));
      testData.Keys == (set i: nat | i < numDPs :: DpKey(i)) &&
      forall i: nat :: i < numDPs ==>
        testData[DpKey(i)] == Generated(layout, numEntries, numEntriesFiltered, groups, coin, i)
  {
    var all := GeneratedAll(Clamp(numDPs), layout, numEntries, numEntriesFiltered, groups, coin);
    IndexedLookup(all);
    forall i: nat | i < numDPs
      ensures Indexed(all)[DpKey(i)] == Generated(layout, numEntries, numEntriesFiltered, groups, coin, i)
    {
      GeneratedAllIndex(Clamp(numDPs), layout, numEntries, numEntriesFiltered, groups, coin, i);
    }
    assert (set p: nat | p < numDPs :: DpKey(p)) == set p | 0 <= p < |all| :: DpKey(p);
  }

  /** Enumerating from the empty group at position 0 yields exactly Tuples(numType). */
  lemma EnumerationFromEmpty(numType: seq<int>, groups: seq<seq<int>>)
    requires NonNegative(numType)
    requires groups == [] + Prefixed([], Tuples(numType[0..]))
    ensures groups == Tuples(numType)
    ensures |groups| == Product(numType)
    ensures forall j :: 0 <= j < |groups| ==> |groups[j]| == |numType|
  {
    assert numType[0..] == numType;
    GroupsShape(numType);
  }

  /** The enumeration from the empty group: Π numType tuples, each of length |numType|. */
  lemma GroupsShape(numType: seq<int>)
    requires NonNegative(numType)
    ensures Prefixed([], Tuples(numType)) == Tuples(numType)
    ensures |Tuples(numType)| == Product(numType)
    ensures forall j :: 0 <= j < |Tuples(numType)| ==> |Tuples(numType)[j]| == |numType|
  {
    var ts := Tuples(numType);
    assert forall j :: 0 <= j < |ts| ==> [] + ts[j] == ts[j];
    TuplesCount(numType);
    forall j | 0 <= j < |ts|
      ensures |ts[j]| == |numType|
    {
      TuplesMembers(numType, ts[j]);
    }
  }

  /** The number of group tuples, multiplied out left to right. */
  method NumElem(numType: seq<int>) returns (numElem: int)
    ensures numElem == Product(numType)
  {
    numElem := 1;
    var k := 0;
    while k < |numType|
      invariant 0 <= k <= |numType|
      invariant numElem == Product(numType[..k])
    {
      assert numType[..k + 1][..k] == numType[..k];
      numElem := numElem * numType[k];
      k := k + 1;
    }
    assert numType[..k] == numType;
  }

  /** The key of provider i: the decimal text of i. */
  function DpKey(i: nat): string
  {
    Decimal(i)
  }

  lemma DpKeyInjective()
    ensures forall a: nat, b: nat :: DpKey(a) == DpKey(b) ==> a == b
  {
    forall a: nat, b: nat | DpKey(a) == DpKey(b)
      ensures a == b
    {
      DecimalInjective(a, b);
    }
  }

  /** vals[p] stored under the key of p, inserted in index order. */
  function Indexed<T>(vals: seq<T>): map<string, T>
  {
    if |vals| == 0 then map[] else Indexed(vals[..|vals| - 1])[DpKey(|vals| - 1) := vals[|vals| - 1]]
  }

  lemma IndexedSnoc<T>(vals: seq<T>, v: T)
    ensures Indexed(vals + [v]) == Indexed(vals)[DpKey(|vals|) := v]
  {
    assert (vals + [v])[..|vals|] == vals;
  }

  /** The keys are exactly the keys of 0..|vals|-1, each holding its own value. */
  lemma {:induction false} IndexedLookup<T>(vals: seq<T>)
    ensures Indexed(vals).Keys == set p | 0 <= p < |vals| :: DpKey(p)
    ensures forall p :: 0 <= p < |vals| ==> Indexed(vals)[DpKey(p)] == vals[p]
  {
    if |vals| > 0 {
      var n := |vals| - 1;
      IndexedLookup(vals[..n]);
      DpKeyInjective();
      assert (set p | 0 <= p < |vals| :: DpKey(p)) == Indexed(vals[..n]).Keys + {DpKey(n)};
    }
  }

  /** The entries of providers 0..n-1, in provider order. */
  function GeneratedAll(n: nat, layout: Layout, numEntries: nat, numEntriesFiltered: int,
                        groups: seq<seq<int>>, coin: (int, int, nat) -> bool): (r: seq<seq<DpClearResponse>>)
    requires numEntries <= |groups|
    requires forall j :: 0 <= j < |groups| ==> |groups[j]| == layout.groupsClear + layout.groupsEnc
    ensures |r| == n
  {
    if n == 0 then []
    else GeneratedAll(n - 1, layout, numEntries, numEntriesFiltered, groups, coin)
         + [Generated(layout, numEntries, numEntriesFiltered, groups, coin, n - 1)]
  }

  lemma {:induction false} GeneratedAllIndex(n: nat, layout: Layout, numEntries: nat, numEntriesFiltered: int,
                                             groups: seq<seq<int>>, coin: (int, int, nat) -> bool, p: nat)
    requires numEntries <= |groups|
    requires forall j :: 0 <= j < |groups| ==> |groups[j]| == layout.groupsClear + layout.groupsEnc
    requires p < n
    ensures GeneratedAll(n, layout, numEntries, numEntriesFiltered, groups, coin)[p]
         == Generated(layout, numEntries, numEntriesFiltered, groups, coin, p)
  {
    if p < n - 1 {
      GeneratedAllIndex(n - 1, layout, numEntries, numEntriesFiltered, groups, coin, p);
    }
  }

  /** The providers' entries keyed by the decimal text of each provider index. */
  method BuildTestData(numDPs: int, numEntries: nat, numEntriesFiltered: int, layout: Layout,
                       groups: seq<seq<int>>, coin: (int, int, nat) -> bool)
    returns (testData: map<string, seq<DpClearResponse>>)
    requires numEntries <= |groups|
    requires forall j :: 0 <= j < |groups| ==> |groups[j]| == layout.groupsClear + layout.groupsEnc
    ensures testData == Indexed(GeneratedAll(Clamp(numDPs), layout, numEntries, numEntriesFiltered, groups, coin))
  {
    testData := map[];
    var i: nat := 0;
    while i < numDPs
      invariant i <= Clamp(numDPs)
      invariant testData == Indexed(GeneratedAll(i, layout, numEntries, numEntriesFiltered, groups, coin))
    {
      ghost var prev := GeneratedAll(i, layout, numEntries, numEntriesFiltered, groups, coin);
      var dpData := DpEntries(layout, numEntries, numEntriesFiltered, groups, coin, i);
      assert GeneratedAll(i + 1, layout, numEntries, numEntriesFiltered, groups, coin) == prev + [dpData];
      IndexedSnoc(prev, dpData);
      testData := testData[DpKey(i) := dpData];
      i := i + 1;
    }
    assert i == Clamp(numDPs);
  }

  /** The entries of one provider, built one by one. */
  method DpEntries(layout: Layout, numEntries: nat, numEntriesFiltered: int,
                   groups: seq<seq<int>>, coin: (int, int, nat) -> bool, dp: int)
    returns (dpData: seq<DpClearResponse>)
    requires numEntries <= |groups|
    requires forall j :: 0 <= j < |groups| ==> |groups[j]| == layout.groupsClear + layout.groupsEnc
    ensures dpData == Generated(layout, numEntries, numEntriesFiltered, groups, coin, dp)
  {
    dpData := [];
    var j := 0;
    while j < numEntries
      invariant 0 <= j <= numEntries
      invariant dpData == GeneratedUpTo(j, layout, numEntriesFiltered, groups, coin, dp)
    {
      var e := MakeEntry(layout, numEntriesFiltered, groups[j], coin, dp, j);
      dpData := dpData + [e];
      j := j + 1;
    }
  }

  /** Entry j: random aggregating values, where values from FillInt64Slice, group j. */
  method MakeEntry(layout: Layout, numEntriesFiltered: int, grp: seq<int>,
                   coin: (int, int, nat) -> bool, dp: int, j: int) returns (e: DpClearResponse)
    requires |grp| == layout.groupsClear + layout.groupsEnc
    ensures e == GeneratedEntry(layout, numEntriesFiltered, grp, coin, dp, j)
  {
    var aggr := RandomFill(coin, dp, j, layout.aggrClear + layout.aggrEnc);
    var where := WhereAttributes(layout.whereClear + layout.whereEnc, j, numEntriesFiltered);
    e := Entry(layout, grp, where, aggr);
  }

  /** The aggregating values of one entry, each drawn in {0, 1}. */
  method RandomFill(coin: (int, int, nat) -> bool, dp: int, j: int, n: nat) returns (aggr: seq<int>)
    ensures aggr == Draws(coin, dp, j, n)
  {
    var a := new int[n];
    var k := 0;
    while k < n
      invariant 0 <= k <= n
      invariant forall m :: 0 <= m < k ==> a[m] == (if coin(dp, j, m) then 1 else 0)
    {
      a[k] := if coin(dp, j, k) then 1 else 0;
      k := k + 1;
    }
    aggr := a[..];
  }

  /** The where values of entry j: all 1 when j < numEntriesFiltered, else all 0. */
  method WhereAttributes(n: nat, j: int, numEntriesFiltered: int) returns (where: seq<int>)
    ensures where == seq(n, _ => WhereValue(j, numEntriesFiltered))
  {
    var w := new int[n];
    if j < numEntriesFiltered {
      FillInt64Slice(w, 1);
    } else {
      FillInt64Slice(w, 0);
    }
    where := w[..];
  }

  // ---------------------------------------------------------------------------
  // joinMaps, ClearExpectedResult, CompareClearResponses
  // ---------------------------------------------------------------------------

  /** Right-biased union: b's values win on shared keys. */
  method JoinMaps(a: map<string, int>, b: map<string, int>) returns (concat: map<string, int>)
    ensures concat.Keys == a.Keys + b.Keys
    ensures forall k :: k in b ==> concat[k] == b[k]
    ensures forall k :: k in a && k !in b ==> concat[k] == a[k]
  {
    concat := map[];
    var keys := a.Keys;
    while keys != {}
      invariant keys <= a.Keys
      invariant concat.Keys == a.Keys - keys
      invariant forall k :: k in concat ==> concat[k] == a[k]
      decreases keys
    {
      var k :| k in keys;
      concat := concat[k := a[k]];
      keys := keys - {k};
    }
    keys := b.Keys;
    while keys != {}
      invariant keys <= b.Keys
      invariant concat.Keys == a.Keys + (b.Keys - keys)
      invariant forall k :: k in b && k !in keys ==> concat[k] == b[k]
      invariant forall k :: k in a && k !in b ==> concat[k] == a[k]
      invariant forall k :: k in a && k in keys ==> concat[k] == a[k]
      decreases keys
    {
      var k :| k in keys;
      concat := concat[k := b[k]];
      keys := keys - {k};
    }
  }

  /** An expected result with no where attributes, every group and aggregate in the clear maps. */
  function Cleared(e: DpClearResponse): DpClearResponse
  {
    DpClearResponse(e.groupByClear + e.groupByEnc, map[], map[], map[], e.aggrClear + e.aggrEnc, map[])
  }

  /** Clearing twice is clearing once. */
  lemma ClearedIdempotent(e: DpClearResponse)
    ensures Cleared(Cleared(e)) == Cleared(e)
  {
    assert Cleared(e).groupByClear + map[] == Cleared(e).groupByClear;
    assert Cleared(e).aggrClear + map[] == Cleared(e).aggrClear;
  }

  /**
   * Empties both where maps and the encrypted maps, and merges the encrypted
   * group-by and aggregating values into the clear ones, entry by entry.
   */
  method ClearExpectedResult(expectedResult: seq<DpClearResponse>) returns (r: seq<DpClearResponse>)
    ensures |r| == |expectedResult|
    ensures forall i :: 0 <= i < |r| ==> r[i] == Cleared(expectedResult[i])
    ensures forall i :: 0 <= i < |r| ==>
      r[i].whereClear == map[] && r[i].whereEnc == map[] && r[i].groupByEnc == map[] && r[i].aggrEnc == map[] &&
      r[i].groupByClear.Keys == expectedResult[i].groupByClear.Keys + expectedResult[i].groupByEnc.Keys &&
      r[i].aggrClear.Keys == expectedResult[i].aggrClear.Keys + expectedResult[i].aggrEnc.Keys
  {
    r := [];
    var i := 0;
    while i < |expectedResult|
      invariant 0 <= i <= |expectedResult|
      invariant |r| == i
      invariant forall p :: 0 <= p < i ==> r[p] == Cleared(expectedResult[p])
    {
      var elem := expectedResult[i];
      var groups := JoinMaps(elem.groupByClear, elem.groupByEnc);
      var aggrs := JoinMaps(elem.aggrClear, elem.aggrEnc);
      assert groups == elem.groupByClear + elem.groupByEnc;
      assert aggrs == elem.aggrClear + elem.aggrEnc;
      elem := elem.(whereClear := map[], whereEnc := map[], groupByClear := groups, groupByEnc := map[],
                    aggrClear := aggrs, aggrEnc := map[]);
      r := r + [elem];
      i := i + 1;
    }
  }

  /** Two maps match when they are equal or both empty. */
  predicate FieldMatch(a: map<string, int>, b: map<string, int>)
  {
    a == b || (|a| == 0 && |b| == 0)
  }

  predicate Matches(x: DpClearResponse, y: DpClearResponse)
  {
    FieldMatch(x.groupByClear, y.groupByClear) && FieldMatch(x.groupByEnc, y.groupByEnc) &&
    FieldMatch(x.whereClear, y.whereClear) && FieldMatch(x.whereEnc, y.whereEnc) &&
    FieldMatch(x.aggrClear, y.aggrClear) && FieldMatch(x.aggrEnc, y.aggrEnc)
  }

  /** Without nil maps, field-wise matching is plain equality. */
  lemma MatchesIsEquality(x: DpClearResponse, y: DpClearResponse)
    ensures Matches(x, y) <==> x == y
  {
  }

  /**
   * False for an empty x; otherwise true iff every element of x has a
   * matching element in y.
   */
  method CompareClearResponses(x: seq<DpClearResponse>, y: seq<DpClearResponse>) returns (test: bool)
    ensures test <==> |x| > 0 && forall a :: a in x ==> a in y
  {
    test := false;
    var i := 0;
    while i < |x|
      invariant 0 <= i <= |x|
      invariant forall p :: 0 <= p < i ==> x[p] in y
      invariant test <==> i > 0
    {
      test := false;
      var j := 0;
      while j < |y|
        invariant 0 <= j <= |y|
        invariant !test
        invariant forall q :: 0 <= q < j ==> !Matches(x[i], y[q])
      {
        if Matches(x[i], y[j]) {
          MatchesIsEquality(x[i], y[j]);
          test := true;
          break;
        }
        j := j + 1;
      }
      if !test {
        forall q | 0 <= q < |y|
          ensures y[q] != x[i]
        {
          MatchesIsEquality(x[i], y[q]);
        }
        assert x[i] in x && x[i] !in y;
        break;
      }
      i := i + 1;
    }
    if i == |x| {
      forall a | a in x
        ensures a in y
      {
        var p :| 0 <= p < |x| && x[p] == a;
      }
    }
  }
}
