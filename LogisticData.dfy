/**
 * Matrix helpers of the logistic-regression code: taking, removing and
 * inserting a column, prepending the intercept column, replacing strings
 * in place, and cutting a dataset into cross-validation folds.
 */
module LogisticData {
  import opened Common
  import opened Seqs
  import LogisticUtil

  // ---------------------------------------------------------------------
  // Rows and columns as values

  /** Every row of the matrix has an entry at column idx. */
  predicate HasColumn<T>(matrix: seq<seq<T>>, idx: int)
  {
    0 <= idx && forall i :: 0 <= i < |matrix| ==> idx < |matrix[i]|
  }

  /** The entries of column idx, top to bottom. */
  function Column<T>(matrix: seq<seq<T>>, idx: int): (c: seq<T>)
    requires HasColumn(matrix, idx)
    ensures |c| == |matrix|
  {
    seq(|matrix|, i requires 0 <= i < |matrix| => matrix[i][idx])
  }

  /** The row without its entry at idx. */
  function RemoveAt<T>(row: seq<T>, idx: int): (r: seq<T>)
    requires 0 <= idx < |row|
    ensures |r| == |row| - 1
  {
    row[..idx] + row[idx + 1..]
  }

  /** The row with x placed at position idx, the later entries moving right. */
  function InsertAt<T>(row: seq<T>, idx: int, x: T): (r: seq<T>)
    requires 0 <= idx <= |row|
    ensures |r| == |row| + 1
  {
    row[..idx] + [x] + row[idx..]
  }

  /** Putting a removed entry back where it was restores the row. */
  lemma InsertRemove<T>(row: seq<T>, idx: int)
    requires 0 <= idx < |row|
    ensures InsertAt(RemoveAt(row, idx), idx, row[idx]) == row
  {
    var r := RemoveAt(row, idx);
    assert r[..idx] == row[..idx];
    assert r[idx..] == row[idx + 1..];
    assert row == row[..idx] + [row[idx]] + row[idx + 1..];
  }

  /** Removing an inserted entry gives the row back, and the entry sits at idx. */
  lemma RemoveInsert<T>(row: seq<T>, idx: int, x: T)
    requires 0 <= idx <= |row|
    ensures InsertAt(row, idx, x)[idx] == x
    ensures RemoveAt(InsertAt(row, idx, x), idx) == row
  {
    var r := InsertAt(row, idx, x);
    assert r[..idx] == row[..idx];
    assert r[idx + 1..] == row[idx..];
  }

  /** Every row without its column idx. */
  function RemoveColumnRows<T>(matrix: seq<seq<T>>, idx: int): (r: seq<seq<T>>)
    requires HasColumn(matrix, idx)
    ensures |r| == |matrix|
  {
    seq(|matrix|, i requires 0 <= i < |matrix| => RemoveAt(matrix[i], idx))
  }

  /** Every row with column[i] placed at position idx of row i. */
  function InsertColumnRows<T>(matrix: seq<seq<T>>, column: seq<T>, idx: int): (r: seq<seq<T>>)
    requires |column| >= |matrix|
    requires 0 <= idx && forall i :: 0 <= i < |matrix| ==> idx <= |matrix[i]|
    ensures |r| == |matrix| && HasColumn(r, idx)
  {
    seq(|matrix|, i requires 0 <= i < |matrix| => InsertAt(matrix[i], idx, column[i]))
  }

  /**
   * Splitting a dataset into its features and its label column and then
   * inserting the labels back at the same index restores the dataset.
   */
  lemma SplitLabelRoundTrip<T>(matrix: seq<seq<T>>, idx: int)
    requires HasColumn(matrix, idx)
    ensures InsertColumnRows(RemoveColumnRows(matrix, idx), Column(matrix, idx), idx) == matrix
  {
    var r := InsertColumnRows(RemoveColumnRows(matrix, idx), Column(matrix, idx), idx);
    forall i | 0 <= i < |matrix|
      ensures r[i] == matrix[i]
    {
      InsertRemove(matrix[i], idx);
    }
  }

  /** Inserting a column and taking it out again gives back both the matrix and the column. */
  lemma InsertColumnRoundTrip<T>(matrix: seq<seq<T>>, column: seq<T>, idx: int)
    requires |column| == |matrix|
    requires 0 <= idx && forall i :: 0 <= i < |matrix| ==> idx <= |matrix[i]|
    ensures Column(InsertColumnRows(matrix, column, idx), idx) == column
    ensures RemoveColumnRows(InsertColumnRows(matrix, column, idx), idx) == matrix
  {
    var r := InsertColumnRows(matrix, column, idx);
    forall i | 0 <= i < |matrix|
      ensures r[i][idx] == column[i] && RemoveAt(r[i], idx) == matrix[i]
    {
      RemoveInsert(matrix[i], idx, column[i]);
    }
  }

  // ---------------------------------------------------------------------
  // GetColumn

  /**
   * Copies column idx into a new slice. An index at or past the width of
   * the first row is a fatal error.
   */
  method GetColumn<T(0)>(matrix: seq<seq<T>>, idx: int) returns (r: Result<seq<T>>)
    requires |matrix| > 0 && idx >= 0
    requires idx < |matrix[0]| ==> HasColumn(matrix, idx)
    ensures r.Err? <==> idx >= |matrix[0]|
    ensures r.Ok? ==> r.value == Column(matrix, idx)
  {
    if idx >= |matrix[0]| {
      return Err("column index exceeds matrix dimension");
    }
    var a := new T[|matrix|];
    var i := 0;
    while i < |matrix|
      invariant 0 <= i <= |matrix|
      invariant forall k :: 0 <= k < i ==> a[k] == matrix[k][idx]
    {
      a[i] := matrix[i][idx];
      i := i + 1;
    }
    assert a[..] == Column(matrix, idx);
    r := Ok(a[..]);
  }

  // ---------------------------------------------------------------------
  // RemoveColumn and RemoveColumnString

  /** The guard of RemoveColumn: it compares the column index with the number of ROWS. */
  predicate RemoveColumnRejects<T>(matrix: seq<seq<T>>, idx: int)
  {
    idx >= |matrix|
  }

  /**
   * RemoveColumn as written (the float and the string versions are the
   * same loop): the guard rejects an index that is not below the number of
   * rows; otherwise every row is rebuilt from the entries before and after
   * idx.
   */
  method RemoveColumn<T>(matrix: seq<seq<T>>, idx: int) returns (r: Result<seq<seq<T>>>)
    requires idx >= 0
    requires !RemoveColumnRejects(matrix, idx) ==> HasColumn(matrix, idx)
    ensures r.Err? <==> RemoveColumnRejects(matrix, idx)
    ensures r.Ok? ==> r.value == RemoveColumnRows(matrix, idx)
  {
    if RemoveColumnRejects(matrix, idx) {
      return Err("column index exceeds matrix dimension");
    }
    var rows: seq<seq<T>> := [];
    var i := 0;
    while i < |matrix|
      invariant 0 <= i <= |matrix|
      invariant |rows| == i
      invariant forall k :: 0 <= k < i ==> rows[k] == RemoveAt(matrix[k], idx)
    {
      var row := [] + matrix[i][..idx];
      row := row + matrix[i][idx + 1..];
      rows := rows + [row];
      i := i + 1;
    }
    r := Ok(rows);
  }

  /**
   * RemoveColumn with the guard the error message describes: an index is
   * rejected exactly when some row has no entry there.
   */
  function RemoveColumnChecked<T>(matrix: seq<seq<T>>, idx: int): (r: Result<seq<seq<T>>>)
    requires idx >= 0
    ensures r.Err? <==> exists i :: 0 <= i < |matrix| && idx >= |matrix[i]|
    ensures r.Ok? ==> |r.value| == |matrix|
    ensures r.Ok? ==> forall i :: 0 <= i < |matrix| ==>
      |r.value[i]| == |matrix[i]| - 1 && InsertAt(r.value[i], idx, matrix[i][idx]) == matrix[i]
  {
    if HasColumn(matrix, idx) then
      SplitLabelRoundTrip(matrix, idx);
      Ok(RemoveColumnRows(matrix, idx))
    else
      Err("column index exceeds matrix dimension")
  }

  /**
   * The label column of a provider's records sits at index d, after the d
   * features. A provider with at most d records is rejected by the guard as
   * written although every record has the label column, while the checked
   * version splits it.
   */
  lemma LabelColumnRejected<T>(data: seq<seq<T>>, d: nat)
    requires |data| <= d
    requires forall i :: 0 <= i < |data| ==> |data[i]| == d + 1
    ensures RemoveColumnRejects(data, d)
    ensures RemoveColumnChecked(data, d).Ok?
  {
  }

  /** Conversely the guard lets through an index past the width of a tall, narrow matrix. */
  lemma GuardMissesShortRows()
    ensures !RemoveColumnRejects([[1], [2], [3]], 2)
    ensures RemoveColumnChecked([[1], [2], [3]], 2).Err?
  {
    var m := [[1], [2], [3]];
    assert 2 >= |m[0]|;
  }

  // ---------------------------------------------------------------------
  // InsertColumn and Augment

  /**
   * InsertColumn as written: each new row starts empty, so copying the
   * first idx entries into it copies nothing, and the row ends up as the
   * inserted value followed by the entries from idx on.
   */
  method InsertColumn<T>(matrix: seq<seq<T>>, column: seq<T>, idx: int) returns (r: seq<seq<T>>)
    requires |column| >= |matrix|
    requires 0 <= idx && forall i :: 0 <= i < |matrix| ==> idx <= |matrix[i]|
    ensures |r| == |matrix|
    ensures forall i :: 0 <= i < |matrix| ==> r[i] == [column[i]] + matrix[i][idx..]
  {
    var rows := new seq<T>[|matrix|];
    var i := 0;
    while i < |matrix|
      invariant 0 <= i <= |matrix|
      invariant forall k :: 0 <= k < i ==> rows[k] == [column[k]] + matrix[k][idx..]
    {
      var row: seq<T> := [];
      var copied := CopyInto(row, matrix[i][..idx]);
      row := row + [column[i]];
      row := row + matrix[i][idx..];
      rows[i] := row;
      i := i + 1;
    }
    r := rows[..];
  }

  /**
   * The built-in copy: it copies min(|dst|, |src|) entries into dst and
   * reports how many it copied; the length of dst never changes.
   */
  method CopyInto<T>(dst: seq<T>, src: seq<T>) returns (copied: nat)
    ensures copied == if |dst| < |src| then |dst| else |src|
  {
    copied := 0;
    while copied < |dst| && copied < |src|
      invariant copied <= |dst| && copied <= |src|
    {
      copied := copied + 1;
    }
  }

  /**
   * The row InsertColumn builds agrees with the intended insertion exactly
   * when the column goes first: any other index loses the idx entries
   * before it.
   */
  lemma InsertColumnDropsPrefix<T>(row: seq<T>, idx: int, x: T)
    requires 0 <= idx <= |row|
    ensures [x] + row[idx..] == InsertAt(row, idx, x) <==> idx == 0
  {
    if idx == 0 {
      assert row[..0] == [];
      assert row[0..] == row;
    } else {
      assert |[x] + row[idx..]| < |InsertAt(row, idx, x)|;
    }
  }

  /** The concrete case: inserting 9 at index 1 of the row [1, 2] gives [9, 2], not [1, 9, 2]. */
  lemma InsertColumnExample()
    ensures [9] + [1, 2][1..] == [9, 2]
    ensures InsertAt([1, 2], 1, 9) == [1, 9, 2]
  {
    assert [1, 2][..1] == [1];
    assert [1, 2][1..] == [2];
  }

  /** A column of n ones. */
  function Ones(n: nat): (c: seq<real>)
    ensures |c| == n && forall i :: 0 <= i < n ==> c[i] == 1.0
  {
    seq(n, _ => 1.0)
  }

  /**
   * Prepends the intercept column of ones. It inserts at index 0, where
   * InsertColumn as written and the intended insertion agree.
   */
  method Augment(matrix: seq<seq<real>>) returns (r: seq<seq<real>>)
    ensures r == InsertColumnRows(matrix, Ones(|matrix|), 0)
    ensures forall i :: 0 <= i < |matrix| ==> r[i] == [1.0] + matrix[i]
  {
    var column := new real[|matrix|];
    var i := 0;
    while i < |matrix|
      invariant 0 <= i <= |matrix|
      invariant forall k :: 0 <= k < i ==> column[k] == 1.0
    {
      column[i] := 1.0;
      i := i + 1;
    }
    assert column[..] == Ones(|matrix|);
    r := InsertColumn(matrix, column[..], 0);
    forall k | 0 <= k < |matrix|
      ensures r[k] == InsertAt(matrix[k], 0, 1.0) && r[k] == [1.0] + matrix[k]
    {
      InsertColumnDropsPrefix(matrix[k], 0, 1.0);
      assert matrix[k][0..] == matrix[k];
    }
  }

  // ---------------------------------------------------------------------
  // ReplaceString

  /** A cell after replacement. */
  function Replaced(cell: string, target: string, replacement: string): (r: string)
    ensures cell == target ==> r == replacement
    ensures cell != target ==> r == cell
  {
    if cell == target then replacement else cell
  }

  /** Replacing twice is replacing once, so a row reachable twice is no different. */
  lemma ReplacedIdempotent(cell: string, target: string, replacement: string)
    ensures Replaced(Replaced(cell, target, replacement), target, replacement) == Replaced(cell, target, replacement)
  {
  }

  /**
   * Replaces, in place, every cell equal to target by replacement. The rows
   * may be shared: a row met a second time is already replaced and stays
   * so.
   */
  method ReplaceString(matrix: seq<array<string>>, target: string, replacement: string)
    modifies set i | 0 <= i < |matrix| :: matrix[i]
    ensures forall i, j :: 0 <= i < |matrix| && 0 <= j < matrix[i].Length ==>
      matrix[i][j] == Replaced(old(matrix[i][j]), target, replacement)
  {
    var i := 0;
    while i < |matrix|
      invariant 0 <= i <= |matrix|
      invariant forall k, j :: 0 <= k < |matrix| && 0 <= j < matrix[k].Length ==>
        matrix[k][j] == old(matrix[k][j]) || matrix[k][j] == Replaced(old(matrix[k][j]), target, replacement)
      invariant forall k, j :: 0 <= k < i && 0 <= j < matrix[k].Length ==>
        matrix[k][j] == Replaced(old(matrix[k][j]), target, replacement)
    {
      var row := matrix[i];
      var j := 0;
      while j < row.Length
        invariant 0 <= j <= row.Length
        invariant forall k, t :: 0 <= k < |matrix| && 0 <= t < matrix[k].Length ==>
          matrix[k][t] == old(matrix[k][t]) || matrix[k][t] == Replaced(old(matrix[k][t]), target, replacement)
        invariant forall k, t :: 0 <= k < i && 0 <= t < matrix[k].Length ==>
          matrix[k][t] == Replaced(old(matrix[k][t]), target, replacement)
        invariant forall t :: 0 <= t < j ==> row[t] == Replaced(old(row[t]), target, replacement)
      {
        if row[j] == target {
          row[j] := replacement;
        }
        j := j + 1;
      }
      i := i + 1;
    }
  }

  // ---------------------------------------------------------------------
  // PartitionDatasetCV

  /** The number of test records of each fold. */
  function FoldSize(n: nat, kfold: int): int
    requires kfold != 0
  {
    TruncDiv(n, kfold)
  }

  /** The ranges the method builds are well formed and stay inside the records. */
  predicate FoldFits(n: nat, partition: int, kfold: int)
    requires kfold != 0
  {
    var t := FoldSize(n, kfold);
    0 <= t && 0 <= partition * t && (partition + 1) * t <= n
  }

  /** The records at the given indices, in that order. */
  function Gathered<T>(s: seq<T>, indices: seq<int>): (r: seq<T>)
    requires forall k :: 0 <= k < |indices| ==> 0 <= indices[k] < |s|
    ensures |r| == |indices|
  {
    seq(|indices|, k requires 0 <= k < |indices| => s[indices[k]])
  }

  /** Gathering a contiguous run of indices is a slice. */
  lemma GatheredInterval<T>(s: seq<T>, lo: int, hi: int)
    requires 0 <= lo <= hi <= |s|
    ensures Gathered(s, LogisticUtil.Interval(lo, hi)) == s[lo..hi]
  {
  }

  /**
   * Fold partition of a cross-validation: the test records are those of
   * the fold, the training records all the others, both in their original
   * order.
   */
  method PartitionDatasetCV(X: seq<seq<real>>, y: seq<int>, partition: int, kfold: int)
    returns (XTrain: seq<seq<real>>, yTrain: seq<int>, XTest: seq<seq<real>>, yTest: seq<int>)
    requires kfold != 0 && FoldFits(|X|, partition, kfold) && |X| <= |y|
    ensures var t := FoldSize(|X|, kfold);
      XTest == X[partition * t..(partition + 1) * t] &&
      XTrain == X[..partition * t] + X[(partition + 1) * t..] &&
      yTest == y[partition * t..(partition + 1) * t] &&
      yTrain == y[..partition * t] + y[(partition + 1) * t..|X|]
  {
    var n := |X|;
    var t := TruncDiv(n, kfold);
    var lo, hi := partition * t, (partition + 1) * t;
    var indicesTest := LogisticUtil.Range(lo, hi);
    var before := LogisticUtil.Range(0, lo);
    var after := LogisticUtil.Range(hi, n);
    var indicesTrain := before + after;
    XTrain, yTrain := Gather(X, y, indicesTrain);
    XTest, yTest := Gather(X, y, indicesTest);
    assert indicesTest == LogisticUtil.Interval(lo, hi);
    assert before == LogisticUtil.Interval(0, lo);
    assert after == LogisticUtil.Interval(hi, n);
    GatheredInterval(X, lo, hi);
    GatheredInterval(y, lo, hi);
    GatheredConcat(X, before, after);
    GatheredConcat(y, before, after);
    GatheredInterval(X, 0, lo);
    GatheredInterval(X, hi, n);
    GatheredInterval(y, 0, lo);
    GatheredInterval(y, hi, n);
  }

  /** The gathering loop: appends the record and the label at each index. */
  method Gather(X: seq<seq<real>>, y: seq<int>, indices: seq<int>) returns (Xs: seq<seq<real>>, ys: seq<int>)
    requires |X| <= |y|
    requires forall k :: 0 <= k < |indices| ==> 0 <= indices[k] < |X|
    ensures Xs == Gathered(X, indices) && ys == Gathered(y, indices)
  {
    Xs, ys := [], [];
    var i := 0;
    while i < |indices|
      invariant 0 <= i <= |indices|
      invariant Xs == Gathered(X, indices[..i]) && ys == Gathered(y, indices[..i])
    {
      assert indices[..i + 1] == indices[..i] + [indices[i]];
      Xs := Xs + [X[indices[i]]];
      ys := ys + [y[indices[i]]];
      i := i + 1;
    }
    assert indices[..i] == indices;
  }

  lemma GatheredConcat<T>(s: seq<T>, a: seq<int>, b: seq<int>)
    requires forall k :: 0 <= k < |a| ==> 0 <= a[k] < |s|
    requires forall k :: 0 <= k < |b| ==> 0 <= b[k] < |s|
    ensures Gathered(s, a + b) == Gathered(s, a) + Gathered(s, b)
  {
  }

  /** Every position 0 .. n - 1 lies in exactly one of the fold's index lists. */
  lemma FoldIndicesOnce(lo: int, hi: int, n: int, x: int)
    requires 0 <= lo <= hi <= n
    ensures var train := LogisticUtil.Interval(0, lo) + LogisticUtil.Interval(hi, n);
      var test := LogisticUtil.Interval(lo, hi);
      Count(train + test, x) == (if 0 <= x < n then 1 else 0)
  {
    var a, b, c := LogisticUtil.Interval(0, lo), LogisticUtil.Interval(hi, n), LogisticUtil.Interval(lo, hi);
    CountAppend(a + b, c, x);
    CountAppend(a, b, x);
    IntervalCount(0, lo, x);
    IntervalCount(hi, n, x);
    IntervalCount(lo, hi, x);
  }

  /** A range holds each of its integers once and nothing else. */
  lemma {:induction false} IntervalCount(lo: int, hi: int, x: int)
    requires lo <= hi
    ensures Count(LogisticUtil.Interval(lo, hi), x) == (if lo <= x < hi then 1 else 0)
    decreases hi - lo
  {
    if lo < hi {
      var s := LogisticUtil.Interval(lo, hi);
      assert s[..|s| - 1] == LogisticUtil.Interval(lo, hi - 1);
      IntervalCount(lo, hi - 1, x);
    }
  }

  /** Training and test records together are the dataset: none lost, none repeated. */
  lemma FoldCoversDataset<T>(X: seq<T>, lo: int, hi: int)
    requires 0 <= lo <= hi <= |X|
    ensures multiset(X[..lo] + X[hi..]) + multiset(X[lo..hi]) == multiset(X)
    ensures (X[..lo] + X[hi..])[..lo] + X[lo..hi] + (X[..lo] + X[hi..])[lo..] == X
  {
    assert X == X[..lo] + X[lo..hi] + X[hi..];
    var train := X[..lo] + X[hi..];
    assert train[..lo] == X[..lo];
    assert train[lo..] == X[hi..];
  }
}
