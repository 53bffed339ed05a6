/**
 * The file-backed data loader of a data provider: the tab-separated file's
 * header names the columns, the query's selector names the columns wanted,
 * and the loader answers one parsed column per selected name.
 *
 * The file is given as its records already cut into fields (the first
 * record is the header); number parsing is the parameter `parse`.
 */
module FileLoader {
  import opened Common

  /** The first position of `s` in `header`. */
  function FirstIndex(header: seq<string>, s: string): (r: Option<nat>)
    ensures r.None? <==> s !in header
    ensures r.Some? ==> r.value < |header| && header[r.value] == s && s !in header[..r.value]
  {
    if |header| == 0 then None
    else if header[0] == s then Some(0)
    else match FirstIndex(header[1..], s)
      case None => None
      case Some(i) =>
        assert header[1..][..i] == header[1..i + 1];
        assert header[..i + 1] == [header[0]] + header[1..i + 1];
        Some(i + 1)
  }

  /** The first selected name, from position `i` on, that the header lacks. */
  function FirstMissing(header: seq<string>, selector: seq<string>, i: nat): (r: Option<string>)
    requires i <= |selector|
    ensures r.None? <==> forall m :: i <= m < |selector| ==> selector[m] in header
    ensures r.Some? ==> r.value in selector && r.value !in header
    decreases |selector| - i
  {
    if i == |selector| then None
    else if selector[i] !in header then Some(selector[i])
    else FirstMissing(header, selector, i + 1)
  }

  /** Every record has as many fields as the header (the CSV reader's field-count rule). */
  predicate FieldsMatch(rows: seq<seq<string>>)
  {
    forall k :: 1 <= k < |rows| ==> |rows[k]| == |rows[0]|
  }

  predicate AllFound(header: seq<string>, selector: seq<string>)
  {
    forall m :: 0 <= m < |selector| ==> selector[m] in header
  }

  function SelectorIndexes(header: seq<string>, selector: seq<string>): seq<nat>
    requires AllFound(header, selector)
  {
    seq(|selector|, m requires 0 <= m < |selector| => FirstIndex(header, selector[m]).value)
  }

  predicate IndexesFit(records: seq<seq<string>>, indexes: seq<nat>)
  {
    forall j, i :: 0 <= j < |records| && 0 <= i < |indexes| ==> indexes[i] < |records[j]|
  }

  /** Field `index` of the first `n` records, parsed; the first parse failure is the answer. */
  function Column(records: seq<seq<string>>, index: nat, parse: string -> Result<real>, n: nat): Result<seq<real>>
    requires n <= |records|
    requires forall j :: 0 <= j < |records| ==> index < |records[j]|
  {
    if n == 0 then Ok([])
    else match Column(records, index, parse, n - 1)
      case Err(e) => Err(e)
      case Ok(col) =>
        match parse(records[n - 1][index])
        case Err(e) => Err(e)
        case Ok(v) => Ok(col + [v])
  }

  /** The first `n` selected columns, column after column. */
  function Columns(records: seq<seq<string>>, indexes: seq<nat>, parse: string -> Result<real>, n: nat)
    : Result<seq<seq<real>>>
    requires n <= |indexes| && IndexesFit(records, indexes)
  {
    if n == 0 then Ok([])
    else match Columns(records, indexes, parse, n - 1)
      case Err(e) => Err(e)
      case Ok(cols) =>
        match Column(records, indexes[n - 1], parse, |records|)
        case Err(e) => Err(e)
        case Ok(col) => Ok(cols + [col])
  }

  /** What the loader answers for a query asking `nbrInput` columns named by `selector`. */
  function Provided(nbrInput: int, selector: seq<string>, rows: seq<seq<string>>, parse: string -> Result<real>)
    : Result<seq<seq<real>>>
  {
    if nbrInput != |selector| then Err("malformed query")
    else if |rows| == 0 then Err("EOF")
    else if |rows[0]| < nbrInput then Err("not enough column in CSV")
    else match FirstMissing(rows[0], selector, 0)
      case Some(s) => Err("unable to find '" + s + "' in CSV header")
      case None =>
        if !FieldsMatch(rows) then Err("wrong number of fields")
        else
          IndexesFitRows(rows, selector);
          Columns(rows[1..], SelectorIndexes(rows[0], selector), parse, |selector|)
  }

  lemma IndexesFitRows(rows: seq<seq<string>>, selector: seq<string>)
    requires |rows| > 0 && FieldsMatch(rows) && AllFound(rows[0], selector)
    ensures IndexesFit(rows[1..], SelectorIndexes(rows[0], selector))
  {
    var records := rows[1..];
    forall j, i | 0 <= j < |records| && 0 <= i < |selector|
      ensures SelectorIndexes(rows[0], selector)[i] < |records[j]|
    {
      assert records[j] == rows[j + 1];
    }
  }

  method Provide(nbrInput: int, selector: seq<string>, rows: seq<seq<string>>, parse: string -> Result<real>)
    returns (r: Result<seq<seq<real>>>)
    ensures r == Provided(nbrInput, selector, rows, parse)
  {
    if nbrInput != |selector| {
      return Err("malformed query");
    }
    if |rows| == 0 {
      return Err("EOF");
    }
    var header := rows[0];
    if |header| < nbrInput {
      return Err("not enough column in CSV");
    }

    var found := FindSelectorIndexes(header, selector);
    if found.Err? {
      return Err(found.msg);
    }
    var selectorIndexes := found.value;

    var records := rows[1..];
    var k := 0;
    while k < |records|
      invariant 0 <= k <= |records|
      invariant forall k' :: 0 <= k' < k ==> |records[k']| == |header|
    {
      if |records[k]| != |header| {
        assert rows[k + 1] == records[k];
        return Err("wrong number of fields");
      }
      k := k + 1;
    }
    assert FieldsMatch(rows) by {
      forall n | 1 <= n < |rows| ensures |rows[n]| == |rows[0]| {
        assert rows[n] == records[n - 1];
      }
    }
    IndexesFitRows(rows, selector);
    r := ReadColumns(records, selectorIndexes, parse);
  }

  /** Each selected name's first header position, or the error naming the first missing one. */
  method FindSelectorIndexes(header: seq<string>, selector: seq<string>) returns (r: Result<seq<nat>>)
    ensures FirstMissing(header, selector, 0).Some? ==>
      r == Err("unable to find '" + FirstMissing(header, selector, 0).value + "' in CSV header")
    ensures FirstMissing(header, selector, 0).None? ==> AllFound(header, selector) && r == Ok(SelectorIndexes(header, selector))
  {
    var selectorIndexes: seq<nat> := [];
    var i := 0;
    while i < |selector|
      invariant 0 <= i <= |selector|
      invariant |selectorIndexes| == i
      invariant FirstMissing(header, selector, 0) == FirstMissing(header, selector, i)
      invariant forall m :: 0 <= m < i ==> selector[m] in header && selectorIndexes[m] == FirstIndex(header, selector[m]).value
    {
      var s := selector[i];
      var j := 0;
      while j < |header|
        invariant 0 <= j <= |header|
        invariant s !in header[..j]
        invariant |selectorIndexes| == i
      {
        if header[j] == s {
          assert header[..j + 1] == header[..j] + [s];
          selectorIndexes := selectorIndexes + [j];
          break;
        }
        assert header[..j + 1] == header[..j] + [header[j]];
        j := j + 1;
      }
      if |selectorIndexes| != i + 1 {
        assert header[..j] == header;
        return Err("unable to find '" + s + "' in CSV header");
      }
      i := i + 1;
    }
    assert selectorIndexes == SelectorIndexes(header, selector);
    r := Ok(selectorIndexes);
  }

  /** The selected columns parsed in order; the first unparsable field aborts with its error. */
  method ReadColumns(records: seq<seq<string>>, selectorIndexes: seq<nat>, parse: string -> Result<real>)
    returns (r: Result<seq<seq<real>>>)
    requires IndexesFit(records, selectorIndexes)
    ensures r == Columns(records, selectorIndexes, parse, |selectorIndexes|)
  {
    var ret := new seq<real>[|selectorIndexes|];
    var i := 0;
    while i < |selectorIndexes|
      invariant 0 <= i <= |selectorIndexes|
      invariant Columns(records, selectorIndexes, parse, i) == Ok(ret[..i])
    {
      var index := selectorIndexes[i];
      var arr := new real[|records|];
      var j := 0;
      while j < |records|
        invariant 0 <= j <= |records|
        invariant Column(records, index, parse, j) == Ok(arr[..j])
        invariant Columns(records, selectorIndexes, parse, i) == Ok(ret[..i])
      {
        match parse(records[j][index]) {
          case Err(e) =>
            ColumnErrorStays(records, index, parse, j + 1, |records|);
            ColumnsErrorStays(records, selectorIndexes, parse, i + 1, |selectorIndexes|);
            return Err(e);
          case Ok(v) =>
            arr[j] := v;
            assert arr[..j + 1] == arr[..j] + [v];
        }
        j := j + 1;
      }
      assert arr[..j] == arr[..];
      ret[i] := arr[..];
      assert ret[..i + 1] == ret[..i] + [arr[..]];
      i := i + 1;
    }
    assert ret[..i] == ret[..];
    r := Ok(ret[..]);
  }

  lemma {:induction false} ColumnErrorStays(records: seq<seq<string>>, index: nat, parse: string -> Result<real>, j: nat, n: nat)
    requires j <= n <= |records|
    requires forall k :: 0 <= k < |records| ==> index < |records[k]|
    requires Column(records, index, parse, j).Err?
    ensures Column(records, index, parse, n) == Column(records, index, parse, j)
    decreases n - j
  {
    if j < n {
      ColumnErrorStays(records, index, parse, j, n - 1);
    }
  }

  lemma {:induction false} ColumnsErrorStays(records: seq<seq<string>>, indexes: seq<nat>, parse: string -> Result<real>, i: nat, n: nat)
    requires i <= n <= |indexes| && IndexesFit(records, indexes)
    requires Columns(records, indexes, parse, i).Err?
    ensures Columns(records, indexes, parse, n) == Columns(records, indexes, parse, i)
    decreases n - i
  {
    if i < n {
      ColumnsErrorStays(records, indexes, parse, i, n - 1);
    }
  }

  /** A column parses exactly when every one of its fields parses, and then holds those values in record order. */
  lemma {:induction false} ColumnOk(records: seq<seq<string>>, index: nat, parse: string -> Result<real>, n: nat)
    requires n <= |records|
    requires forall j :: 0 <= j < |records| ==> index < |records[j]|
    ensures Column(records, index, parse, n).Ok? <==> forall j :: 0 <= j < n ==> parse(records[j][index]).Ok?
    ensures Column(records, index, parse, n).Ok? ==>
      |Column(records, index, parse, n).value| == n &&
      forall j :: 0 <= j < n ==> Column(records, index, parse, n).value[j] == parse(records[j][index]).value
  {
    if n > 0 {
      ColumnOk(records, index, parse, n - 1);
    }
  }

  lemma {:induction false} ColumnsOk(records: seq<seq<string>>, indexes: seq<nat>, parse: string -> Result<real>, n: nat)
    requires n <= |indexes| && IndexesFit(records, indexes)
    ensures Columns(records, indexes, parse, n).Ok? <==>
      forall i, j :: 0 <= i < n && 0 <= j < |records| ==> parse(records[j][indexes[i]]).Ok?
    ensures Columns(records, indexes, parse, n).Ok? ==>
      |Columns(records, indexes, parse, n).value| == n &&
      forall i :: 0 <= i < n ==>
        Column(records, indexes[i], parse, |records|).Ok? &&
        Columns(records, indexes, parse, n).value[i] == Column(records, indexes[i], parse, |records|).value
  {
    if n > 0 {
      ColumnsOk(records, indexes, parse, n - 1);
      ColumnOk(records, indexes[n - 1], parse, |records|);
      if Columns(records, indexes, parse, n).Ok? {
        var prev := Columns(records, indexes, parse, n - 1).value;
        var col := Column(records, indexes[n - 1], parse, |records|).value;
        assert Columns(records, indexes, parse, n).value == prev + [col];
      }
      forall i | 0 <= i < n - 1 ensures Column(records, indexes[i], parse, |records|).Ok? ==>
        forall j :: 0 <= j < |records| ==> parse(records[j][indexes[i]]).Ok?
      {
        ColumnOk(records, indexes[i], parse, |records|);
      }
      forall i | 0 <= i < n - 1 ensures (forall j :: 0 <= j < |records| ==> parse(records[j][indexes[i]]).Ok?) ==>
        Column(records, indexes[i], parse, |records|).Ok?
      {
        ColumnOk(records, indexes[i], parse, |records|);
      }
    }
  }

  /** The loader fails on a malformed query, a missing header, a short header, an unknown name, a ragged record or an unparsable field. */
  lemma ProvidedFails(nbrInput: int, selector: seq<string>, rows: seq<seq<string>>, parse: string -> Result<real>)
    ensures nbrInput != |selector| ==> Provided(nbrInput, selector, rows, parse) == Err("malformed query")
    ensures nbrInput == |selector| && |rows| > 0 && |rows[0]| < nbrInput ==>
      Provided(nbrInput, selector, rows, parse) == Err("not enough column in CSV")
    ensures (exists m :: 0 <= m < |selector| && selector[m] !in (if |rows| > 0 then rows[0] else [])) ==>
      Provided(nbrInput, selector, rows, parse).Err?
  {
  }

  /**
   * The loader succeeds exactly when the query is well formed, every
   * selected name is in the header, all records have the header's width
   * and every selected field parses; then it answers one column per
   * selected name, taken at the name's first header position, over all
   * records in order.
   */
  lemma ProvidedOk(nbrInput: int, selector: seq<string>, rows: seq<seq<string>>, parse: string -> Result<real>)
    ensures Provided(nbrInput, selector, rows, parse).Ok? <==>
      nbrInput == |selector| && |rows| > 0 && |rows[0]| >= nbrInput && AllFound(rows[0], selector) &&
      FieldsMatch(rows) &&
      forall i, j :: 0 <= i < |selector| && 1 <= j < |rows| ==>
        parse(rows[j][SelectorIndexes(rows[0], selector)[i]]).Ok?
    ensures Provided(nbrInput, selector, rows, parse).Ok? ==>
      var cols := Provided(nbrInput, selector, rows, parse).value;
      |cols| == nbrInput &&
      forall i :: 0 <= i < |selector| ==>
        |cols[i]| == |rows| - 1 &&
        forall j :: 1 <= j < |rows| ==>
          rows[0][SelectorIndexes(rows[0], selector)[i]] == selector[i] &&
          cols[i][j - 1] == parse(rows[j][SelectorIndexes(rows[0], selector)[i]]).value
  {
    if nbrInput == |selector| && |rows| > 0 && |rows[0]| >= nbrInput && AllFound(rows[0], selector) && FieldsMatch(rows) {
      var records := rows[1..];
      var indexes := SelectorIndexes(rows[0], selector);
      IndexesFitRows(rows, selector);
      ColumnsOk(records, indexes, parse, |selector|);
      forall i | 0 <= i < |selector| {
        ColumnOk(records, indexes[i], parse, |records|);
      }
    }
  }
}
