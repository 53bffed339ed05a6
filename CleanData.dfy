/**
 * The dataset-cleaning script: it reads a comma-separated dataset, drops
 * the columns or prefixes a dataset does not use, parses the label and
 * the features of every line, drops the lines whose features do not
 * parse, and writes the records back as label first, then the features.
 *
 * The file's text is a parameter and the result is the text written
 * back. Python's int, float and str conversions are parameters: the
 * model fixes how they are used, not how they parse or print numbers.
 */
module CleanData {
  import opened Common
  import Text
  import LogisticData

  // ---------------------------------------------------------------------
  // Arguments

  datatype LabelType = IntLabel | FloatLabel

  /** The label type named on the command line; any other name raises an error. */
  function ParseLabelType(name: string): (r: Result<LabelType>)
    ensures r.Ok? <==> name == "int" || name == "float"
    ensures r.Ok? ==> (r.value == IntLabel <==> name == "int")
  {
    if name == "int" then Ok(IntLabel)
    else if name == "float" then Ok(FloatLabel)
    else Err("Unknow type " + name)
  }

  datatype Dataset = Pima | Pcs | Spectf | Mnist | GasSensorMulti | GasSensor

  /** The name the script knows each dataset by. */
  function Name(d: Dataset): string
  {
    match d
    case Pima => "PIMA"
    case Pcs => "PCS"
    case Spectf => "SPECTF"
    case Mnist => "MNIST"
    case GasSensorMulti => "GAS_SENSOR_MULTI"
    case GasSensor => "GAS_SENSOR"
  }

  function UpperChar(c: char): char
  {
    if 'a' <= c <= 'z' then (c as int - 32) as char else c
  }

  /** Upper case, on the ASCII letters. */
  function Upper(s: string): (u: string)
    ensures |u| == |s|
    ensures forall i :: 0 <= i < |u| ==> !('a' <= u[i] <= 'z')
    ensures forall i :: 0 <= i < |s| && !('a' <= s[i] <= 'z') ==> u[i] == s[i]
  {
    seq(|s|, i requires 0 <= i < |s| => UpperChar(s[i]))
  }

  /** The dataset named (in any case); an unknown name raises an error. */
  function DatasetOf(name: string): (r: Result<Dataset>)
    ensures r.Ok? ==> Name(r.value) == Upper(name)
    ensures r.Err? ==> forall d: Dataset :: Name(d) != Upper(name)
  {
    var u := Upper(name);
    if u == "PIMA" then Ok(Pima)
    else if u == "PCS" then Ok(Pcs)
    else if u == "SPECTF" then Ok(Spectf)
    else if u == "MNIST" then Ok(Mnist)
    else if u == "GAS_SENSOR_MULTI" then Ok(GasSensorMulti)
    else if u == "GAS_SENSOR" then Ok(GasSensor)
    else Err("unknow dataset : " + u)
  }

  // ---------------------------------------------------------------------
  // Lines and fields

  /** The text cut at newlines, without the empty piece after a final newline. */
  function Lines(text: string): seq<string>
  {
    var parts := Text.Split(text, "\n");
    if parts[|parts| - 1] == "" then parts[..|parts| - 1] else parts
  }

  /**
   * Only the empty piece after a final newline is dropped: joining the
   * lines with newlines and putting that newline back gives the text, and
   * no line holds a newline.
   */
  lemma LinesRestore(text: string)
    ensures text == "" ==> Lines(text) == []
    ensures text != "" ==>
      Text.Join(Lines(text), "\n") + (if text[|text| - 1] == '\n' then "\n" else "") == text
    ensures forall k :: 0 <= k < |Lines(text)| ==> '\n' !in Lines(text)[k]
  {
    var parts := Text.Split(text, "\n");
    var n := |parts| - 1;
    Text.SplitJoin(text, "\n");
    Text.SplitLastEmpty(text, '\n');
    if text != "" && text[|text| - 1] == '\n' {
      assert parts == parts[..n] + [""];
      Text.JoinSnoc(parts[..n], "", "\n");
    }
    forall k | 0 <= k < |Lines(text)|
      ensures '\n' !in Lines(text)[k]
    {
      Text.SplitFieldsFree(text, '\n', k);
    }
  }

  /** Every line cut at its commas. */
  function Rows(lines: seq<string>): (rows: seq<seq<string>>)
    ensures |rows| == |lines|
    ensures forall i :: 0 <= i < |rows| ==> |rows[i]| >= 1
  {
    seq(|lines|, i requires 0 <= i < |lines| => Text.Split(lines[i], ","))
  }

  // ---------------------------------------------------------------------
  // The table, edited in place

  /** The text of a field after its first colon, up to the next one. */
  function ValueOf(field: string): string
    requires |Text.Split(field, ":")| >= 2
  {
    Text.Split(field, ":")[1]
  }

  /** An index:value field gives its value, up to a further colon if there is one. */
  lemma ValueAfterColon(index: string, value: string)
    requires ':' !in index
    ensures |Text.Split(index + ":" + value, ":")| >= 2
    ensures ValueOf(index + ":" + value) == Text.Split(value, ":")[0]
    ensures ':' !in value ==> ValueOf(index + ":" + value) == value
  {
    Text.SplitFirst(index, ':', value);
    if ':' !in value {
      Text.SplitNone(value, ':');
    }
  }

  /** Every field after the first has a colon. */
  predicate ColonFields(row: seq<string>)
  {
    forall j :: 0 < j < |row| ==> |Text.Split(row[j], ":")| >= 2
  }

  /** The row with the first field kept and every other field replaced by its value. */
  function ValuesOnly(row: seq<string>): (r: seq<string>)
    requires ColonFields(row)
    ensures |r| == |row|
  {
    seq(|row|, j requires 0 <= j < |row| => if j == 0 then row[j] else ValueOf(row[j]))
  }

  /** The rows of the dataset, a list of lists that the script edits in place. */
  class Table {
    var rows: seq<seq<string>>

    constructor (rows0: seq<seq<string>>)
      ensures rows == rows0
    {
      rows := rows0;
    }

    /** removeColumn: deletes entry index of every row. */
    method RemoveColumn(index: int)
      requires LogisticData.HasColumn(rows, index)
      modifies this
      ensures rows == LogisticData.RemoveColumnRows(old(rows), index)
    {
      var i := 0;
      while i < |rows|
        invariant 0 <= i <= |rows| && |rows| == |old(rows)|
        invariant forall k :: 0 <= k < i ==> rows[k] == LogisticData.RemoveAt(old(rows)[k], index)
        invariant forall k :: i <= k < |rows| ==> rows[k] == old(rows)[k]
      {
        rows := rows[i := LogisticData.RemoveAt(rows[i], index)];
        i := i + 1;
      }
    }

    /** Replaces every field but the first of every row by its text after the colon. */
    method KeepValues()
      requires forall i :: 0 <= i < |rows| ==> ColonFields(rows[i])
      modifies this
      ensures |rows| == |old(rows)|
      ensures forall i :: 0 <= i < |rows| ==> rows[i] == ValuesOnly(old(rows)[i])
    {
      var line := 0;
      while line < |rows|
        invariant 0 <= line <= |rows| && |rows| == |old(rows)|
        invariant forall k :: 0 <= k < line ==> rows[k] == ValuesOnly(old(rows)[k])
        invariant forall k :: line <= k < |rows| ==> rows[k] == old(rows)[k]
      {
        var row := rows[line];
        var column := 0;
        while column < |row|
          invariant 0 <= column <= |row| && |row| == |rows[line]|
          invariant forall j :: 0 <= j < column ==> row[j] == ValuesOnly(rows[line])[j]
          invariant forall j :: column <= j < |row| ==> row[j] == rows[line][j]
        {
          if column != 0 {
            row := row[column := ValueOf(row[column])];
          }
          column := column + 1;
        }
        rows := rows[line := row];
        line := line + 1;
      }
    }
  }

  /** Deleting columns 11, 10 and 0 in that order deletes the original columns 0, 10 and 11. */
  lemma PcsColumns(row: seq<string>)
    requires |row| >= 12
    ensures LogisticData.RemoveAt(LogisticData.RemoveAt(LogisticData.RemoveAt(row, 11), 10), 0)
      == row[1..10] + row[12..]
  {
    var r1 := LogisticData.RemoveAt(row, 11);
    assert r1 == row[..11] + row[12..];
    var r2 := LogisticData.RemoveAt(r1, 10);
    assert r2 == row[..10] + row[12..];
    var r3 := LogisticData.RemoveAt(r2, 0);
    assert r3 == r2[1..];
  }

  /**
   * The per-dataset edits: PCS loses its index column and its two mast
   * columns, GAS_SENSOR_MULTI keeps the values of its index:value fields,
   * the others are left as they are. A row too short for the deletions,
   * or a field without a colon, raises an index error.
   */
  function Prepared(d: Dataset, rows: seq<seq<string>>): (r: Result<seq<seq<string>>>)
    ensures r.Ok? ==> |r.value| == |rows|
    ensures r.Ok? && (forall i :: 0 <= i < |rows| ==> |rows[i]| >= 1) ==>
      forall i :: 0 <= i < |rows| ==> |r.value[i]| >= 1
  {
    match d
    case Pcs =>
      if forall i :: 0 <= i < |rows| ==> |rows[i]| >= 12 then
        Ok(LogisticData.RemoveColumnRows(LogisticData.RemoveColumnRows(LogisticData.RemoveColumnRows(rows, 11), 10), 0))
      else Err("list assignment index out of range")
    case GasSensorMulti =>
      if forall i :: 0 <= i < |rows| ==> ColonFields(rows[i]) then
        Ok(seq(|rows|, i requires 0 <= i < |rows| => ValuesOnly(rows[i])))
      else Err("list index out of range")
    case _ => Ok(rows)
  }

  /** After the PCS edits each row is its fields 1 to 9 followed by the fields from 12 on. */
  lemma PcsPrepared(rows: seq<seq<string>>)
    requires forall i :: 0 <= i < |rows| ==> |rows[i]| >= 12
    ensures Prepared(Pcs, rows).Ok?
    ensures forall i :: 0 <= i < |rows| ==> Prepared(Pcs, rows).value[i] == rows[i][1..10] + rows[i][12..]
  {
    forall i | 0 <= i < |rows|
      ensures Prepared(Pcs, rows).value[i] == rows[i][1..10] + rows[i][12..]
    {
      PcsColumns(rows[i]);
    }
  }

  /** The edits applied through the table, checking first for the cases that raise. */
  method Prepare(d: Dataset, rows: seq<seq<string>>) returns (r: Result<seq<seq<string>>>)
    ensures r == Prepared(d, rows)
  {
    var table := new Table(rows);
    match d
    case Pcs =>
      if exists i :: 0 <= i < |rows| && |rows[i]| < 12 {
        return Err("list assignment index out of range");
      }
      table.RemoveColumn(11);
      table.RemoveColumn(10);
      table.RemoveColumn(0);
      assert forall i :: 0 <= i < |rows| ==> |rows[i]| >= 12;
      r := Ok(table.rows);
    case GasSensorMulti =>
      if exists i :: 0 <= i < |rows| && !ColonFields(rows[i]) {
        return Err("list index out of range");
      }
      table.KeepValues();
      assert table.rows == seq(|rows|, i requires 0 <= i < |rows| => ValuesOnly(rows[i]));
      r := Ok(table.rows);
    case _ =>
      r := Ok(table.rows);
  }

  // ---------------------------------------------------------------------
  // Parsing

  datatype Label = IntValue(i: int) | FloatValue(x: real)

  /** The label converted by the chosen type; None when the conversion fails. */
  function ParseLabel(t: LabelType, s: string, parseInt: string -> Option<int>, parseFloat: string -> Option<real>): Option<Label>
  {
    match t
    case IntLabel => (match parseInt(s) case Some(v) => Some(IntValue(v)) case None => None)
    case FloatLabel => (match parseFloat(s) case Some(v) => Some(FloatValue(v)) case None => None)
  }

  /**
   * The ValueError message of the label conversion: int() and float()
   * word it differently. The offending text is shown between single
   * quotes (Python's escaping inside repr is not modelled).
   */
  function LabelError(t: LabelType, s: string): (msg: string)
    ensures t == IntLabel ==> msg == "invalid literal for int() with base 10: '" + s + "'"
    ensures t == FloatLabel ==> msg == "could not convert string to float: '" + s + "'"
  {
    match t
    case IntLabel => "invalid literal for int() with base 10: '" + s + "'"
    case FloatLabel => "could not convert string to float: '" + s + "'"
  }

  /** Every field converted to a float, or None when one of them fails. */
  function ParseAll(fields: seq<string>, parseFloat: string -> Option<real>): (r: Option<seq<real>>)
    ensures r.Some? ==> |r.value| == |fields|
  {
    if |fields| == 0 then Some([])
    else
      var n := |fields| - 1;
      match ParseAll(fields[..n], parseFloat)
      case None => None
      case Some(front) =>
        match parseFloat(fields[n])
        case None => None
        case Some(v) => Some(front + [v])
  }

  /** The parsed records: features and labels. */
  datatype Parsed = Parsed(X: seq<seq<real>>, y: seq<Label>)

  /**
   * The parsing loop: a label that does not convert raises; a line whose
   * features do not all convert is dropped together with its label.
   */
  function ParseRows(rows: seq<seq<string>>, t: LabelType, parseInt: string -> Option<int>, parseFloat: string -> Option<real>): (r: Result<Parsed>)
    requires forall i :: 0 <= i < |rows| ==> |rows[i]| >= 1
    ensures r.Ok? ==> |r.value.X| == |r.value.y| <= |rows|
  {
    if |rows| == 0 then Ok(Parsed([], []))
    else
      var n := |rows| - 1;
      match ParseRows(rows[..n], t, parseInt, parseFloat)
      case Err(e) => Err(e)
      case Ok(p) =>
        match ParseLabel(t, rows[n][0], parseInt, parseFloat)
        case None => Err(LabelError(t, rows[n][0]))
        case Some(l) =>
          match ParseAll(rows[n][1..], parseFloat)
          case None => Ok(p)
          case Some(f) => Ok(Parsed(p.X + [f], p.y + [l]))
  }

  /** Parsing fails exactly when some label does not convert. */
  lemma {:induction false} ParseFailsOnLabel(rows: seq<seq<string>>, t: LabelType, parseInt: string -> Option<int>, parseFloat: string -> Option<real>)
    requires forall i :: 0 <= i < |rows| ==> |rows[i]| >= 1
    ensures ParseRows(rows, t, parseInt, parseFloat).Err? <==>
      exists i :: 0 <= i < |rows| && ParseLabel(t, rows[i][0], parseInt, parseFloat).None?
  {
    if |rows| > 0 {
      var n := |rows| - 1;
      ParseFailsOnLabel(rows[..n], t, parseInt, parseFloat);
      if exists i :: 0 <= i < n && ParseLabel(t, rows[..n][i][0], parseInt, parseFloat).None? {
        var i :| 0 <= i < n && ParseLabel(t, rows[..n][i][0], parseInt, parseFloat).None?;
        assert rows[..n][i] == rows[i];
      }
      if exists i :: 0 <= i < |rows| && ParseLabel(t, rows[i][0], parseInt, parseFloat).None? {
        var i :| 0 <= i < |rows| && ParseLabel(t, rows[i][0], parseInt, parseFloat).None?;
        if i < n {
          assert rows[..n][i] == rows[i];
        }
      }
    }
  }

  /** The number of rows whose features all convert. */
  function Convertible(rows: seq<seq<string>>, parseFloat: string -> Option<real>): (c: nat)
    requires forall i :: 0 <= i < |rows| ==> |rows[i]| >= 1
  {
    if |rows| == 0 then 0
    else
      var n := |rows| - 1;
      Convertible(rows[..n], parseFloat) + (if ParseAll(rows[n][1..], parseFloat).Some? then 1 else 0)
  }

  /** The rows whose features all convert, in order. */
  function Kept(rows: seq<seq<string>>, parseFloat: string -> Option<real>): (k: seq<seq<string>>)
    requires forall i :: 0 <= i < |rows| ==> |rows[i]| >= 1
    ensures |k| == Convertible(rows, parseFloat)
    ensures forall j :: 0 <= j < |k| ==> |k[j]| >= 1 && k[j] in rows && ParseAll(k[j][1..], parseFloat).Some?
    ensures forall i :: 0 <= i < |rows| && ParseAll(rows[i][1..], parseFloat).Some? ==> rows[i] in k
  {
    if |rows| == 0 then []
    else
      var n := |rows| - 1;
      var front := Kept(rows[..n], parseFloat);
      assert forall i :: 0 <= i < n ==> rows[..n][i] == rows[i];
      if ParseAll(rows[n][1..], parseFloat).Some? then front + [rows[n]] else front
  }

  /** Record j of p holds the features and the label of row j of k. */
  predicate RecordsOf(p: Parsed, k: seq<seq<string>>, t: LabelType, parseInt: string -> Option<int>, parseFloat: string -> Option<real>)
  {
    |p.X| == |k| && |p.y| == |k| &&
    forall j :: 0 <= j < |k| ==>
      |k[j]| >= 1 && ParseAll(k[j][1..], parseFloat).Some? &&
      p.X[j] == ParseAll(k[j][1..], parseFloat).value && ParseLabel(t, k[j][0], parseInt, parseFloat) == Some(p.y[j])
  }

  /**
   * Exactly the rows whose features convert are kept, in order: record j
   * holds the features and the label of the j-th such row.
   */
  lemma {:induction false} ParseKeepsConvertible(rows: seq<seq<string>>, t: LabelType, parseInt: string -> Option<int>, parseFloat: string -> Option<real>)
    requires forall i :: 0 <= i < |rows| ==> |rows[i]| >= 1
    requires ParseRows(rows, t, parseInt, parseFloat).Ok?
    ensures |ParseRows(rows, t, parseInt, parseFloat).value.X| == Convertible(rows, parseFloat)
    ensures RecordsOf(ParseRows(rows, t, parseInt, parseFloat).value, Kept(rows, parseFloat), t, parseInt, parseFloat)
  {
    if |rows| > 0 {
      var n := |rows| - 1;
      ParseKeepsConvertible(rows[..n], t, parseInt, parseFloat);
      var p0, k0 := ParseRows(rows[..n], t, parseInt, parseFloat).value, Kept(rows[..n], parseFloat);
      var l := ParseLabel(t, rows[n][0], parseInt, parseFloat);
      var f := ParseAll(rows[n][1..], parseFloat);
      assert l.Some?;
      if f.Some? {
        assert Kept(rows, parseFloat) == k0 + [rows[n]];
        assert ParseRows(rows, t, parseInt, parseFloat).value == Parsed(p0.X + [f.value], p0.y + [l.value]);
        RecordsAppend(p0, k0, rows[n], t, parseInt, parseFloat);
      } else {
        assert Kept(rows, parseFloat) == k0;
        assert ParseRows(rows, t, parseInt, parseFloat).value == p0;
      }
    }
  }

  /** One more kept row adds its own record. */
  lemma RecordsAppend(p: Parsed, k: seq<seq<string>>, row: seq<string>, t: LabelType, parseInt: string -> Option<int>, parseFloat: string -> Option<real>)
    requires RecordsOf(p, k, t, parseInt, parseFloat)
    requires |row| >= 1 && ParseAll(row[1..], parseFloat).Some? && ParseLabel(t, row[0], parseInt, parseFloat).Some?
    ensures RecordsOf(Parsed(p.X + [ParseAll(row[1..], parseFloat).value], p.y + [ParseLabel(t, row[0], parseInt, parseFloat).value]),
                      k + [row], t, parseInt, parseFloat)
  {
    var q := Parsed(p.X + [ParseAll(row[1..], parseFloat).value], p.y + [ParseLabel(t, row[0], parseInt, parseFloat).value]);
    var k' := k + [row];
    forall j | 0 <= j < |k'|
      ensures |k'[j]| >= 1 && ParseAll(k'[j][1..], parseFloat).Some? &&
        q.X[j] == ParseAll(k'[j][1..], parseFloat).value && ParseLabel(t, k'[j][0], parseInt, parseFloat) == Some(q.y[j])
    {
      if j < |k| {
        assert k'[j] == k[j] && q.X[j] == p.X[j] && q.y[j] == p.y[j];
      }
    }
  }

  /** The parsing loop of the script. */
  method ParseLoop(rows: seq<seq<string>>, t: LabelType, parseInt: string -> Option<int>, parseFloat: string -> Option<real>)
    returns (r: Result<Parsed>)
    requires forall i :: 0 <= i < |rows| ==> |rows[i]| >= 1
    ensures r == ParseRows(rows, t, parseInt, parseFloat)
  {
    var X: seq<seq<real>> := [];
    var y: seq<Label> := [];
    var lineDrop := 0;
    var i := 0;
    while i < |rows|
      invariant 0 <= i <= |rows|
      invariant ParseRows(rows[..i], t, parseInt, parseFloat) == Ok(Parsed(X, y))
    {
      assert rows[..i + 1][..i] == rows[..i];
      var ligne := rows[i];
      var l := ParseLabel(t, ligne[0], parseInt, parseFloat);
      if l.None? {
        ParseErrorPersists(rows, i + 1, t, parseInt, parseFloat);
        return Err(LabelError(t, ligne[0]));
      }
      y := y + [l.value];
      var features := ParseFeatures(ligne[1..], parseFloat);
      if features.Some? {
        X := X + [features.value];
      } else {
        y := y[..|y| - 1];
        lineDrop := lineDrop + 1;
      }
      i := i + 1;
    }
    assert rows[..i] == rows;
    r := Ok(Parsed(X, y));
  }

  /** Once a prefix fails, the whole parse fails the same way. */
  lemma {:induction false} ParseErrorPersists(rows: seq<seq<string>>, m: nat, t: LabelType, parseInt: string -> Option<int>, parseFloat: string -> Option<real>)
    requires forall i :: 0 <= i < |rows| ==> |rows[i]| >= 1
    requires m <= |rows| && ParseRows(rows[..m], t, parseInt, parseFloat).Err?
    ensures ParseRows(rows, t, parseInt, parseFloat) == ParseRows(rows[..m], t, parseInt, parseFloat)
    decreases |rows| - m
  {
    if m < |rows| {
      assert rows[..m + 1][..m] == rows[..m];
      ParseErrorPersists(rows, m + 1, t, parseInt, parseFloat);
    } else {
      assert rows[..m] == rows;
    }
  }

  /** The list comprehension over the features, stopped by the first failure. */
  method ParseFeatures(fields: seq<string>, parseFloat: string -> Option<real>) returns (r: Option<seq<real>>)
    ensures r == ParseAll(fields, parseFloat)
  {
    var values: seq<real> := [];
    var k := 0;
    while k < |fields|
      invariant 0 <= k <= |fields|
      invariant ParseAll(fields[..k], parseFloat) == Some(values)
    {
      assert fields[..k + 1][..k] == fields[..k];
      var v := parseFloat(fields[k]);
      if v.None? {
        ParseAllFailurePersists(fields, k + 1, parseFloat);
        return None;
      }
      values := values + [v.value];
      k := k + 1;
    }
    assert fields[..k] == fields;
    r := Some(values);
  }

  lemma {:induction false} ParseAllFailurePersists(fields: seq<string>, m: nat, parseFloat: string -> Option<real>)
    requires m <= |fields| && ParseAll(fields[..m], parseFloat).None?
    ensures ParseAll(fields, parseFloat).None?
    decreases |fields| - m
  {
    if m < |fields| {
      assert fields[..m + 1][..m] == fields[..m];
      ParseAllFailurePersists(fields, m + 1, parseFloat);
    } else {
      assert fields[..m] == fields;
    }
  }

  // ---------------------------------------------------------------------
  // MNIST scaling

  /** Scales a pixel value: pixels 0 .. 255 land in 0.001 .. 1. */
  function Scale(x: real): (r: real)
    ensures 0.0 <= x <= 255.0 ==> 0.001 <= r <= 1.0
  {
    x / 255.0 * 0.999 + 0.001
  }

  function ScaledRows(X: seq<seq<real>>): (r: seq<seq<real>>)
    ensures |r| == |X|
  {
    seq(|X|, i requires 0 <= i < |X| => seq(|X[i]|, j requires 0 <= j < |X[i]| => Scale(X[i][j])))
  }

  // ---------------------------------------------------------------------
  // Output

  /** One output line without its newline: the label, then the features, joined by commas. */
  function Body(l: Label, features: seq<real>, showLabel: Label -> string, showReal: real -> string): string
  {
    showLabel(l) + "," + Text.Join(seq(|features|, k requires 0 <= k < |features| => showReal(features[k])), ",")
  }

  /** The lines of the first n records. */
  function Bodies(X: seq<seq<real>>, y: seq<Label>, n: nat, showLabel: Label -> string, showReal: real -> string): (b: seq<string>)
    requires n <= |X| && n <= |y|
    ensures |b| == n
  {
    seq(n, k requires 0 <= k < n => Body(y[k], X[k], showLabel, showReal))
  }

  /** The text written for the first n records, each line ended by a newline. */
  function Output(X: seq<seq<real>>, y: seq<Label>, n: nat, showLabel: Label -> string, showReal: real -> string): string
    requires n <= |X| && n <= |y|
  {
    if n == 0 then ""
    else Output(X, y, n - 1, showLabel, showReal) + Body(y[n - 1], X[n - 1], showLabel, showReal) + "\n"
  }

  /** The number of records zip pairs up. */
  function Paired(X: seq<seq<real>>, y: seq<Label>): nat
  {
    if |X| < |y| then |X| else |y|
  }

  /** The writing loop: one line per record that zip pairs up. */
  method WriteText(X: seq<seq<real>>, y: seq<Label>, showLabel: Label -> string, showReal: real -> string) returns (txt: string)
    ensures txt == Output(X, y, Paired(X, y), showLabel, showReal)
  {
    txt := "";
    var i := 0;
    while i < Paired(X, y)
      invariant 0 <= i <= Paired(X, y)
      invariant txt == Output(X, y, i, showLabel, showReal)
    {
      txt := txt + Body(y[i], X[i], showLabel, showReal) + "\n";
      i := i + 1;
    }
  }

  /** Each line ended by c, the lines in order. */
  function Terminated(lines: seq<string>, c: char): string
  {
    if |lines| == 0 then "" else lines[0] + [c] + Terminated(lines[1..], c)
  }

  lemma {:induction false} TerminatedSnoc(lines: seq<string>, x: string, c: char)
    ensures Terminated(lines + [x], c) == Terminated(lines, c) + x + [c]
    decreases |lines|
  {
    if |lines| == 0 {
      assert [] + [x] == [x];
      assert [x][1..] == [];
    } else {
      assert (lines + [x])[1..] == lines[1..] + [x];
      TerminatedSnoc(lines[1..], x, c);
    }
  }

  /** Lines without the separator read back from their terminated text, with one empty piece at the end. */
  lemma {:induction false} SplitTerminated(lines: seq<string>, c: char)
    requires forall k :: 0 <= k < |lines| ==> c !in lines[k]
    ensures Text.Split(Terminated(lines, c), [c]) == lines + [""]
    decreases |lines|
  {
    if |lines| > 0 {
      SplitTerminated(lines[1..], c);
      Text.SplitFirst(lines[0], c, Terminated(lines[1..], c));
      assert lines == [lines[0]] + lines[1..];
    }
  }

  lemma {:induction false} OutputTerminated(X: seq<seq<real>>, y: seq<Label>, n: nat, showLabel: Label -> string, showReal: real -> string)
    requires n <= |X| && n <= |y|
    ensures Output(X, y, n, showLabel, showReal) == Terminated(Bodies(X, y, n, showLabel, showReal), '\n')
  {
    if n > 0 {
      OutputTerminated(X, y, n - 1, showLabel, showReal);
      assert Bodies(X, y, n, showLabel, showReal)
        == Bodies(X, y, n - 1, showLabel, showReal) + [Body(y[n - 1], X[n - 1], showLabel, showReal)];
      TerminatedSnoc(Bodies(X, y, n - 1, showLabel, showReal), Body(y[n - 1], X[n - 1], showLabel, showReal), '\n');
    }
  }

  /**
   * When no printed number holds a newline, the written text reads back
   * as exactly one line per record, in order, each the label followed by
   * the features.
   */
  lemma OneLinePerRecord(X: seq<seq<real>>, y: seq<Label>, showLabel: Label -> string, showReal: real -> string)
    requires forall k :: 0 <= k < Paired(X, y) ==> '\n' !in Body(y[k], X[k], showLabel, showReal)
    ensures var n := Paired(X, y);
      Text.Split(Output(X, y, n, showLabel, showReal), "\n") == Bodies(X, y, n, showLabel, showReal) + [""]
  {
    var n := Paired(X, y);
    OutputTerminated(X, y, n, showLabel, showReal);
    SplitTerminated(Bodies(X, y, n, showLabel, showReal), '\n');
  }

  // ---------------------------------------------------------------------
  // The whole script

  /** What cleanData writes back, or the error it raises. */
  function Cleaned(datasetName: string, text: string, labelTypeName: string,
                   parseInt: string -> Option<int>, parseFloat: string -> Option<real>,
                   showLabel: Label -> string, showReal: real -> string): Result<string>
  {
    match ParseLabelType(labelTypeName)
    case Err(e) => Err(e)
    case Ok(t) =>
      match DatasetOf(datasetName)
      case Err(e) => Err(e)
      case Ok(d) =>
        match Prepared(d, Rows(Lines(text)))
        case Err(e) => Err(e)
        case Ok(rows) =>
          match ParseRows(rows, t, parseInt, parseFloat)
          case Err(e) => Err(e)
          case Ok(p) =>
            var X := if d == Mnist then ScaledRows(p.X) else p.X;
            Ok(Output(X, p.y, Paired(X, p.y), showLabel, showReal))
  }

  /**
   * cleanData: checks the label type, reads the lines, applies the
   * dataset's edits, parses every line and writes the records back.
   */
  method CleanDataset(datasetName: string, text: string, labelTypeName: string,
                      parseInt: string -> Option<int>, parseFloat: string -> Option<real>,
                      showLabel: Label -> string, showReal: real -> string) returns (r: Result<string>)
    ensures r == Cleaned(datasetName, text, labelTypeName, parseInt, parseFloat, showLabel, showReal)
    ensures ParseLabelType(labelTypeName).Err? || DatasetOf(datasetName).Err? ==> r.Err?
  {
    var lt := ParseLabelType(labelTypeName);
    if lt.Err? {
      return Err(lt.msg);
    }
    var dataString := Lines(text);
    var rows := Rows(dataString);
    var d := DatasetOf(datasetName);
    if d.Err? {
      return Err(d.msg);
    }
    var prepared := Prepare(d.value, rows);
    if prepared.Err? {
      return Err(prepared.msg);
    }
    var parsed := ParseLoop(prepared.value, lt.value, parseInt, parseFloat);
    if parsed.Err? {
      return Err(parsed.msg);
    }
    var X := parsed.value.X;
    if d.value == Mnist {
      X := ScaledRows(X);
    }
    var txt := WriteText(X, parsed.value.y, showLabel, showReal);
    r := Ok(txt);
  }
}
