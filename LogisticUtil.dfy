/**
 * Utility functions of the logistic-regression code: integer ranges, the
 * cartesian product of ranges used to index the approximation
 * coefficients, and occurrence counting.
 */
module LogisticUtil {
  import opened Seqs
  import HandleData

  /** The integers start, start + 1, ..., end - 1. */
  function Interval(start: int, end: int): seq<int>
    requires start <= end
  {
    seq(end - start, i => start + i)
  }

  /** Fills a slice of end - start integers counting up from start. */
  method Range(start: int, end: int) returns (result: seq<int>)
    requires start <= end
    ensures |result| == end - start
    ensures forall i :: 0 <= i < |result| ==> result[i] == start + i
  {
    var n := end - start;
    var a := new int[n];
    var i := 0;
    while i < n
      invariant 0 <= i <= n
      invariant forall t :: 0 <= t < i ==> a[t] == start + t
    {
      a[i] := start + i;
      i := i + 1;
    }
    result := a[..];
  }

  // ---------------------------------------------------------------------
  // Cartesian product

  /** The number of elements of each list. */
  function Lengths(lists: seq<seq<int>>): (ns: seq<int>)
    ensures |ns| == |lists| && forall i :: 0 <= i < |lists| ==> ns[i] == |lists[i]|
  {
    seq(|lists|, i requires 0 <= i < |lists| => |lists[i]|)
  }

  /** One element from each list: list i contributes its element at t[i]. */
  function Pick(lists: seq<seq<int>>, t: seq<int>): (row: seq<int>)
    requires HandleData.InBounds(t, Lengths(lists))
    ensures |row| == |lists|
  {
    seq(|lists|, i requires 0 <= i < |lists| => lists[i][t[i]])
  }

  /**
   * The cartesian product as the numerical library documents it: one row
   * per way of picking an element from each list, the last list varying
   * fastest.
   */
  function Cartesian(lists: seq<seq<int>>): (rows: seq<seq<int>>)
    ensures forall k :: 0 <= k < |rows| ==> |rows[k]| == |lists|
  {
    var ts := HandleData.Tuples(Lengths(lists));
    seq(|ts|, k requires 0 <= k < |ts| =>
      HandleData.TuplesMembers(Lengths(lists), ts[k]);
      Pick(lists, ts[k]))
  }

  /** dim copies of the range start .. end - 1. */
  function Ranges(start: int, end: int, dim: nat): seq<seq<int>>
    requires start <= end
  {
    seq(dim, _ => Interval(start, end))
  }

  /** Every tuple of dim integers from start .. end - 1, in lexicographic order. */
  function Grid(start: int, end: int, dim: nat): seq<seq<int>>
    requires start <= end
  {
    Cartesian(Ranges(start, end, dim))
  }

  /**
   * Builds dimension copies of the range, takes their cartesian product and
   * copies it row by row into a fresh matrix.
   */
  method CartesianProduct(start: int, end: int, dimension: int) returns (combinations: seq<seq<int>>)
    requires start < end && dimension >= 1
    ensures combinations == Grid(start, end, dimension)
  {
    var indices: seq<seq<int>> := [];
    var i := 0;
    while i < dimension
      invariant 0 <= i <= dimension
      invariant indices == Ranges(start, end, i)
    {
      var r := Range(start, end);
      assert r == Interval(start, end);
      indices := indices + [r];
      i := i + 1;
    }
    var matrix := Cartesian(indices);
    combinations := CopyRows(matrix, dimension);
  }

  /** The conversion loop: every entry of every row copied into a new row of width dimension. */
  method CopyRows(matrix: seq<seq<int>>, dimension: int) returns (combinations: seq<seq<int>>)
    requires dimension >= 0 && forall k :: 0 <= k < |matrix| ==> |matrix[k]| == dimension
    ensures combinations == matrix
  {
    var rows := new seq<int>[|matrix|];
    var i := 0;
    while i < |matrix|
      invariant 0 <= i <= |matrix|
      invariant forall k :: 0 <= k < i ==> rows[k] == matrix[k]
    {
      var row := new int[dimension];
      var j := 0;
      while j < dimension
        invariant 0 <= j <= dimension
        invariant forall t :: 0 <= t < j ==> row[t] == matrix[i][t]
        modifies row
      {
        row[j] := matrix[i][j];
        j := j + 1;
      }
      assert row[..] == matrix[i];
      rows[i] := row[..];
      i := i + 1;
    }
    combinations := rows[..];
  }

  /** There are (end - start)^dim tuples. */
  lemma GridCount(start: int, end: int, dim: nat)
    requires start <= end
    ensures |Grid(start, end, dim)| == Pow(end - start, dim)
  {
    var ns := Lengths(Ranges(start, end, dim));
    assert ns == seq(dim, _ => end - start);
    HandleData.TuplesCount(ns);
    ProductConstant(end - start, dim);
  }

  lemma {:induction false} ProductConstant(n: int, m: nat)
    ensures HandleData.Product(seq(m, _ => n)) == Pow(n, m)
  {
    if m > 0 {
      var s := seq(m, _ => n);
      assert s[..m - 1] == seq(m - 1, _ => n);
      ProductConstant(n, m - 1);
    }
  }

  /** Row k of the grid is index tuple k shifted by start. */
  lemma GridRow(start: int, end: int, dim: nat, k: nat)
    requires start <= end && k < |Grid(start, end, dim)|
    ensures var ts := HandleData.Tuples(Lengths(Ranges(start, end, dim)));
      k < |ts| && HandleData.InBounds(ts[k], Lengths(Ranges(start, end, dim))) &&
      |Grid(start, end, dim)[k]| == dim &&
      forall i :: 0 <= i < dim ==> Grid(start, end, dim)[k][i] == start + ts[k][i]
  {
    var lists := Ranges(start, end, dim);
    var ts := HandleData.Tuples(Lengths(lists));
    HandleData.TuplesMembers(Lengths(lists), ts[k]);
  }

  /** A tuple is in the grid exactly when it has dim entries, each in start .. end - 1. */
  lemma GridMembers(start: int, end: int, dim: nat, u: seq<int>)
    requires start <= end
    ensures u in Grid(start, end, dim) <==> |u| == dim && forall i :: 0 <= i < dim ==> start <= u[i] < end
  {
    var lists := Ranges(start, end, dim);
    var ns := Lengths(lists);
    var ts := HandleData.Tuples(ns);
    var g := Grid(start, end, dim);
    if u in g {
      var k :| 0 <= k < |g| && g[k] == u;
      GridRow(start, end, dim, k);
    }
    if |u| == dim && forall i :: 0 <= i < dim ==> start <= u[i] < end {
      var t := seq(dim, i requires 0 <= i < dim => u[i] - start);
      HandleData.TuplesMembers(ns, t);
      var k :| 0 <= k < |ts| && ts[k] == t;
      GridRow(start, end, dim, k);
      assert g[k] == u;
    }
  }

  /** The rows come in strictly increasing lexicographic order, so no tuple repeats. */
  lemma GridSorted(start: int, end: int, dim: nat)
    requires start <= end
    ensures HandleData.StrictlyIncreasing(Grid(start, end, dim))
  {
    var ts := HandleData.Tuples(Lengths(Ranges(start, end, dim)));
    var g := Grid(start, end, dim);
    HandleData.TuplesSorted(Lengths(Ranges(start, end, dim)));
    forall p, q | 0 <= p < q < |g|
      ensures HandleData.LexLess(g[p], g[q])
    {
      GridRow(start, end, dim, p);
      GridRow(start, end, dim, q);
      LexLessShift(ts[p], ts[q], g[p], g[q], start);
    }
  }

  /** Adding the same constant to every entry keeps lexicographic order. */
  lemma {:induction false} LexLessShift(a: seq<int>, b: seq<int>, a': seq<int>, b': seq<int>, c: int)
    requires |a'| == |a| && |b'| == |b|
    requires forall i :: 0 <= i < |a| ==> a'[i] == a[i] + c
    requires forall i :: 0 <= i < |b| ==> b'[i] == b[i] + c
    requires HandleData.LexLess(a, b)
    ensures HandleData.LexLess(a', b')
    decreases |a|
  {
    if a[0] == b[0] {
      LexLessShift(a[1..], b[1..], a'[1..], b'[1..], c);
    }
  }

  // ---------------------------------------------------------------------
  // Counting

  /** The number of occurrences of element in values. */
  method CountElement(values: seq<int>, element: int) returns (c: int)
    ensures c == Count(values, element)
  {
    c := 0;
    var i := 0;
    while i < |values|
      invariant 0 <= i <= |values|
      invariant c == Count(values[..i], element)
    {
      assert values[..i + 1][..i] == values[..i];
      if values[i] == element {
        c := c + 1;
      }
      i := i + 1;
    }
    assert values[..i] == values;
  }
}
