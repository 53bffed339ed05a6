/**
 * The class-balancing script of the logistic-regression application: the
 * heartbeat records are split into a normal and an arrhythmia pool, and
 * every trial samples as many records from each pool as the smaller pool
 * holds, shuffles them together and writes them out. The reported score
 * is the mean of the per-trial scores.
 *
 * The random module's sample and shuffle are modelled by their outcomes
 * (a Draw), constrained by what the module guarantees: distinct indices
 * for a sample, a rearrangement for a shuffle.
 */
module Predict {
  import opened Common
  import Text
  import LogisticData

  // ---------------------------------------------------------------------
  // Part 1: the two pools

  /** The stored record: fields 1 to 9 of the row joined by commas, then the label. */
  function Record(row: seq<string>, mark: string): string
    requires |row| >= 10
  {
    Text.Join(row[1..10], ",") + "," + mark
  }

  /** The record is the ten fields 1 .. 9 and the label, joined by commas. */
  lemma RecordFields(row: seq<string>, mark: string)
    requires |row| >= 10
    ensures Record(row, mark) == Text.Join(row[1..10] + [mark], ",")
  {
    Text.JoinSnoc(row[1..10], mark, ",");
  }

  /** A beat is normal when its last field is N. */
  predicate IsNormal(row: seq<string>)
    requires |row| >= 1
  {
    row[|row| - 1] == "N"
  }

  /** Every row has the fields the record takes. */
  predicate WideRows(rows: seq<seq<string>>)
  {
    forall i :: 0 <= i < |rows| ==> |rows[i]| >= 10
  }

  /** The label a pool appends: 0 for normal beats, 1 for arrhythmia. */
  function PoolLabel(normal: bool): string
  {
    if normal then "0" else "1"
  }

  /** The records of the normal (or arrhythmia) rows, in reading order. */
  function Pool(rows: seq<seq<string>>, normal: bool): (pool: seq<string>)
    requires WideRows(rows)
    ensures |pool| <= |rows|
  {
    if |rows| == 0 then []
    else
      var n := |rows| - 1;
      Pool(rows[..n], normal) + (if IsNormal(rows[n]) == normal then [Record(rows[n], PoolLabel(normal))] else [])
  }

  /** The reading loop: each row is appended to the pool its last field selects. */
  method ReadPools(rows: seq<seq<string>>) returns (normal: seq<string>, arrhythmia: seq<string>)
    requires WideRows(rows)
    ensures normal == Pool(rows, true) && arrhythmia == Pool(rows, false)
  {
    normal, arrhythmia := [], [];
    var i := 0;
    while i < |rows|
      invariant 0 <= i <= |rows|
      invariant normal == Pool(rows[..i], true) && arrhythmia == Pool(rows[..i], false)
    {
      assert rows[..i + 1][..i] == rows[..i];
      var row := rows[i];
      if row[|row| - 1] == "N" {
        normal := normal + [Record(row, "0")];
      } else {
        arrhythmia := arrhythmia + [Record(row, "1")];
      }
      i := i + 1;
    }
    assert rows[..i] == rows;
  }

  /** Every row lands in exactly one pool. */
  lemma {:induction false} PoolsPartitionRows(rows: seq<seq<string>>)
    requires WideRows(rows)
    ensures |Pool(rows, true)| + |Pool(rows, false)| == |rows|
  {
    if |rows| > 0 {
      PoolsPartitionRows(rows[..|rows| - 1]);
    }
  }

  /** The record ends with the given label character. */
  predicate HasLabel(record: string, c: char)
  {
    |record| > 0 && record[|record| - 1] == c
  }

  /** Every normal record ends in 0 and every arrhythmia record in 1. */
  lemma {:induction false} PoolLabels(rows: seq<seq<string>>, normal: bool, k: nat)
    requires WideRows(rows) && k < |Pool(rows, normal)|
    ensures HasLabel(Pool(rows, normal)[k], if normal then '0' else '1')
  {
    var n := |rows| - 1;
    if k < |Pool(rows[..n], normal)| {
      PoolLabels(rows[..n], normal, k);
    }
  }

  // ---------------------------------------------------------------------
  // Counting labels

  /** The number of records ending with the label c. */
  function CountLabel(records: seq<string>, c: char): (n: nat)
    ensures n <= |records|
  {
    if |records| == 0 then 0
    else CountLabel(records[..|records| - 1], c) + (if HasLabel(records[|records| - 1], c) then 1 else 0)
  }

  lemma {:induction false} CountLabelAppend(a: seq<string>, b: seq<string>, c: char)
    ensures CountLabel(a + b, c) == CountLabel(a, c) + CountLabel(b, c)
    decreases |b|
  {
    if |b| == 0 {
      assert a + b == a;
    } else {
      assert (a + b)[..|a + b| - 1] == a + b[..|b| - 1];
      CountLabelAppend(a, b[..|b| - 1], c);
    }
  }

  /** Rearranging the records does not change how many carry a label. */
  lemma {:induction false} CountLabelPermutation(a: seq<string>, b: seq<string>, c: char)
    requires multiset(a) == multiset(b)
    ensures CountLabel(a, c) == CountLabel(b, c)
    decreases |a|
  {
    if |a| == 0 {
      assert |b| == |multiset(b)| == 0;
    } else {
      var n := |a| - 1;
      var x := a[n];
      assert a == a[..n] + [x];
      assert x in multiset(b);
      var k :| 0 <= k < |b| && b[k] == x;
      var rest := b[..k] + b[k + 1..];
      assert b == b[..k] + [x] + b[k + 1..];
      assert multiset(b) == multiset(b[..k]) + multiset{x} + multiset(b[k + 1..]);
      assert multiset(rest) == multiset(b[..k]) + multiset(b[k + 1..]);
      assert multiset(rest) == multiset(b) - multiset{x};
      assert multiset(a) == multiset(a[..n]) + multiset{x};
      assert multiset(a[..n]) == multiset(a) - multiset{x};
      CountLabelPermutation(a[..n], rest, c);
      CountLabelAppend(b[..k] + [x], b[k + 1..], c);
      CountLabelAppend(b[..k], [x], c);
      CountLabelAppend(b[..k], b[k + 1..], c);
      assert [x][..0] == [];
    }
  }

  /** Records that all carry label c count fully for c and not at all for another label. */
  lemma {:induction false} CountUniform(records: seq<string>, c: char, other: char)
    requires c != other
    requires forall k :: 0 <= k < |records| ==> HasLabel(records[k], c)
    ensures CountLabel(records, c) == |records| && CountLabel(records, other) == 0
  {
    if |records| > 0 {
      CountUniform(records[..|records| - 1], c, other);
    }
  }

  // ---------------------------------------------------------------------
  // The trials

  /** The indices random.sample picks: size distinct positions of the pool. */
  predicate IsSample(pool: seq<string>, picks: seq<int>, size: int)
  {
    |picks| == size
    && (forall k :: 0 <= k < |picks| ==> 0 <= picks[k] < |pool|)
    && (forall k, l :: 0 <= k < l < |picks| ==> picks[k] != picks[l])
  }

  /** The outcome of one trial's random calls. */
  datatype Draw = Draw(normalPicks: seq<int>, arrhythmiaPicks: seq<int>, shuffled: seq<string>)

  /** The size of both samples: the size of the smaller pool. */
  function RequiredSize(normal: seq<string>, arrhythmia: seq<string>): (size: nat)
    ensures size <= |normal| && size <= |arrhythmia|
    ensures size == |normal| || size == |arrhythmia|
  {
    if |arrhythmia| < |normal| then |arrhythmia| else |normal|
  }

  /** The records of both samples, normal first, before the shuffle. */
  function Joined(normal: seq<string>, arrhythmia: seq<string>, d: Draw): seq<string>
    requires IsSample(normal, d.normalPicks, RequiredSize(normal, arrhythmia))
    requires IsSample(arrhythmia, d.arrhythmiaPicks, RequiredSize(normal, arrhythmia))
  {
    LogisticData.Gathered(normal, d.normalPicks) + LogisticData.Gathered(arrhythmia, d.arrhythmiaPicks)
  }

  /** A draw the random module can produce for these pools. */
  predicate ValidDraw(normal: seq<string>, arrhythmia: seq<string>, d: Draw)
  {
    IsSample(normal, d.normalPicks, RequiredSize(normal, arrhythmia))
    && IsSample(arrhythmia, d.arrhythmiaPicks, RequiredSize(normal, arrhythmia))
    && multiset(d.shuffled) == multiset(Joined(normal, arrhythmia, d))
  }

  /** A record as the CSV writer receives it: its comma-separated fields. */
  function Written(records: seq<string>): (rows: seq<seq<string>>)
    ensures |rows| == |records|
  {
    seq(|records|, k requires 0 <= k < |records| => Text.Split(records[k], ","))
  }

  /**
   * The trial loop: one dataset per trial index, made of the shuffled
   * samples of that trial; the pools themselves are only read.
   */
  method BuildDatasets(normal: seq<string>, arrhythmia: seq<string>, nbrIterations: int, draws: seq<Draw>)
    returns (datasets: seq<seq<seq<string>>>)
    requires |draws| == if nbrIterations > 0 then nbrIterations else 0
    requires forall t :: 0 <= t < |draws| ==> ValidDraw(normal, arrhythmia, draws[t])
    ensures |datasets| == |draws|
    ensures forall t :: 0 <= t < |draws| ==> datasets[t] == Written(draws[t].shuffled)
  {
    var requiredSize := RequiredSize(normal, arrhythmia);
    datasets := [];
    var i := 0;
    while i < nbrIterations
      invariant 0 <= i <= |draws|
      invariant |datasets| == i
      invariant forall t :: 0 <= t < i ==> datasets[t] == Written(draws[t].shuffled)
    {
      var totalData := draws[i].shuffled;
      var rows := WriteRows(totalData);
      datasets := datasets + [rows];
      i := i + 1;
    }
  }

  /** The writing loop: each record goes out split at its commas. */
  method WriteRows(totalData: seq<string>) returns (rows: seq<seq<string>>)
    ensures rows == Written(totalData)
  {
    rows := [];
    var j := 0;
    while j < |totalData|
      invariant 0 <= j <= |totalData|
      invariant rows == Written(totalData[..j])
    {
      rows := rows + [Text.Split(totalData[j], ",")];
      j := j + 1;
    }
    assert totalData[..j] == totalData;
  }

  /** Writing the fields back joined by commas gives each record unchanged. */
  lemma WrittenRestores(records: seq<string>, k: nat)
    requires k < |records|
    ensures Text.Join(Written(records)[k], ",") == records[k]
  {
    Text.SplitJoin(records[k], ",");
  }

  /**
   * Every trial's dataset is balanced: it holds 2 * requiredSize records,
   * requiredSize of them labelled 0 and requiredSize labelled 1.
   */
  lemma DatasetBalanced(rows: seq<seq<string>>, d: Draw)
    requires WideRows(rows)
    requires ValidDraw(Pool(rows, true), Pool(rows, false), d)
    ensures var size := RequiredSize(Pool(rows, true), Pool(rows, false));
      |d.shuffled| == 2 * size && CountLabel(d.shuffled, '0') == size && CountLabel(d.shuffled, '1') == size
  {
    var normal, arrhythmia := Pool(rows, true), Pool(rows, false);
    var ns := LogisticData.Gathered(normal, d.normalPicks);
    var arr := LogisticData.Gathered(arrhythmia, d.arrhythmiaPicks);
    forall k | 0 <= k < |ns|
      ensures HasLabel(ns[k], '0')
    {
      PoolLabels(rows, true, d.normalPicks[k]);
    }
    forall k | 0 <= k < |arr|
      ensures HasLabel(arr[k], '1')
    {
      PoolLabels(rows, false, d.arrhythmiaPicks[k]);
    }
    CountUniform(ns, '0', '1');
    CountUniform(arr, '1', '0');
    CountLabelAppend(ns, arr, '0');
    CountLabelAppend(ns, arr, '1');
    CountLabelPermutation(d.shuffled, ns + arr, '0');
    CountLabelPermutation(d.shuffled, ns + arr, '1');
    assert |d.shuffled| == |multiset(d.shuffled)| == |multiset(ns + arr)| == |ns + arr|;
  }

  // ---------------------------------------------------------------------
  // Part 2: the average score

  function RealSum(s: seq<real>): real
  {
    if |s| == 0 then 0.0 else RealSum(s[..|s| - 1]) + s[|s| - 1]
  }

  /**
   * Adds up the per-trial scores and divides by the number of trials.
   * With no trials the division by zero raises an error.
   */
  method AverageScore(scores: seq<real>, nbrIterations: int) returns (r: Result<real>)
    requires |scores| == if nbrIterations > 0 then nbrIterations else 0
    ensures r.Err? <==> nbrIterations == 0
    ensures r.Ok? ==> r.value * (nbrIterations as real) == RealSum(scores)
  {
    var avg := 0.0;
    var i := 0;
    while i < nbrIterations
      invariant 0 <= i <= |scores|
      invariant avg == RealSum(scores[..i])
    {
      assert scores[..i + 1][..i] == scores[..i];
      avg := avg + scores[i];
      i := i + 1;
    }
    assert scores[..i] == scores;
    if nbrIterations == 0 {
      return Err("division by zero");
    }
    r := Ok(avg / nbrIterations as real);
  }

  /** Scores between 0 and 1 have a sum between 0 and their number. */
  lemma {:induction false} RealSumBounds(s: seq<real>)
    requires forall k :: 0 <= k < |s| ==> 0.0 <= s[k] <= 1.0
    ensures 0.0 <= RealSum(s) <= |s| as real
  {
    if |s| > 0 {
      RealSumBounds(s[..|s| - 1]);
    }
  }

  /** So the average of accuracies is itself between 0 and 1. */
  lemma AverageIsAccuracy(scores: seq<real>, avg: real)
    requires |scores| > 0 && forall k :: 0 <= k < |scores| ==> 0.0 <= scores[k] <= 1.0
    requires avg * (|scores| as real) == RealSum(scores)
    ensures 0.0 <= avg <= 1.0
  {
    RealSumBounds(scores);
  }
}
