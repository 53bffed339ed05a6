/**
 * The line- and list-level logic of the simulation timing report:
 * padding labels with spaces, flag membership, regrouping the timing CSV
 * into one list of values per flag, and picking one setup line of the
 * simulation's .toml description.
 */
module ParseTimeData {
  import opened Common
  import opened Text

  /** Column width the report pads labels to. */
  const Spacing := 50

  /** As many spaces as `final` exceeds `length` by, and none when it does not. */
  method AddSpaces(length: int, final: int) returns (spaces: string)
    ensures |spaces| == if final - length > 0 then final - length else 0
    ensures forall k :: 0 <= k < |spaces| ==> spaces[k] == ' '
  {
    spaces := "";
    var i := 0;
    while i < final - length
      invariant 0 <= i <= (if final - length > 0 then final - length else 0)
      invariant |spaces| == i
      invariant forall k :: 0 <= k < |spaces| ==> spaces[k] == ' '
    {
      spaces := spaces + " ";
      i := i + 1;
    }
  }

  method StringInSlice(a: string, list: seq<string>) returns (found: bool)
    ensures found <==> a in list
  {
    var i := 0;
    while i < |list|
      invariant 0 <= i <= |list|
      invariant a !in list[..i]
    {
      if list[i] == a {
        return true;
      }
      i := i + 1;
    }
    assert list[..i] == list;
    return false;
  }

  // ---------------------------------------------------------------------
  // Regrouping the timing CSV

  /** Values collected per flag, one entry per data line (when aligned). */
  type Table = map<string, seq<string>>

  function Entries(result: Table, key: string): seq<string>
  {
    if key in result then result[key] else []
  }

  /** A split header whose last two components are "wall" and "sum". */
  predicate WallSum(s: seq<string>)
  {
    |s| >= 2 && s[|s| - 1] == "sum" && s[|s| - 2] == "wall"
  }

  /** A header column that can feed the table: one flag alone, or a wall-sum total naming a flag. */
  predicate Qualifies(header: string, flags: seq<string>)
  {
    var s := Split(header, "_");
    (|s| == 1 && header in flags) || (WallSum(s) && exists el :: el in s && el in flags)
  }

  /**
   * Component `el` of split header `s` meets value `l` on data line `line`:
   * a wall-sum value is joined to the entry this line already has, any
   * other qualifying value is appended as a new entry.
   */
  function ElemStep(result: Table, el: string, s: seq<string>, flags: seq<string>, line: nat, l: string): Table
    requires line >= 1
  {
    if el !in flags then result
    else if |s| >= 2 then
      if WallSum(s) then
        if el in result && |result[el]| == line then
          result[el := result[el][..line - 1] + [result[el][line - 1] + ", " + l]]
        else result[el := Entries(result, el) + [l]]
      else result
    else result[el := Entries(result, el) + [l]]
  }

  function ElemsUpTo(result: Table, s: seq<string>, j: nat, flags: seq<string>, line: nat, l: string): Table
    requires j <= |s| && line >= 1
  {
    if j == 0 then result
    else ElemStep(ElemsUpTo(result, s, j - 1, flags, line, l), s[j - 1], s, flags, line, l)
  }

  /** All components of header `h` meet value `l`. */
  function CellStep(result: Table, h: string, flags: seq<string>, line: nat, l: string): Table
    requires line >= 1
  {
    var s := Split(h, "_");
    ElemsUpTo(result, s, |s|, flags, line, l)
  }

  function CellsUpTo(result: Table, header: seq<string>, row: seq<string>, i: nat, flags: seq<string>, line: nat): Table
    requires i <= |row| <= |header| && line >= 1
  {
    if i == 0 then result
    else CellStep(CellsUpTo(result, header, row, i - 1, flags, line), header[i - 1], flags, line, row[i - 1])
  }

  /** No data row is longer than the header row (a longer one is an index panic). */
  predicate RowsFit(lines: seq<seq<string>>)
  {
    forall n :: 1 <= n < |lines| ==> |lines[n]| <= |lines[0]|
  }

  /** The table after data lines 1..n-1. */
  function LinesUpTo(lines: seq<seq<string>>, n: nat, flags: seq<string>): Table
    requires 1 <= n <= |lines| && RowsFit(lines)
  {
    if n == 1 then map[]
    else CellsUpTo(LinesUpTo(lines, n - 1, flags), lines[0], lines[n - 1], |lines[n - 1]|, flags, n - 1)
  }

  function Parsed(lines: seq<seq<string>>, flags: seq<string>): Table
    requires RowsFit(lines)
  {
    if |lines| == 0 then map[] else LinesUpTo(lines, |lines|, flags)
  }

  method ParseDataFromCSVFile(lines: seq<seq<string>>, flags: seq<string>) returns (result: Table)
    requires RowsFit(lines)
    ensures result == Parsed(lines, flags)
  {
    result := map[];
    var line := 1;
    while line < |lines|
      invariant |lines| == 0 ==> result == map[]
      invariant |lines| > 0 ==> 1 <= line <= |lines| && result == LinesUpTo(lines, line, flags)
    {
      var row := lines[line];
      ghost var start := result;
      var i := 0;
      while i < |row|
        invariant 0 <= i <= |row|
        invariant result == CellsUpTo(start, lines[0], row, i, flags, line)
      {
        var l := row[i];
        var s := Split(lines[0][i], "_");
        ghost var before := result;
        var j := 0;
        while j < |s|
          invariant 0 <= j <= |s|
          invariant result == ElemsUpTo(before, s, j, flags, line, l)
        {
          result := CollectValue(result, s[j], s, flags, line, l);
          j := j + 1;
        }
        i := i + 1;
      }
      line := line + 1;
    }
  }

  /** One component of a header meeting one value: the body of the innermost loop. */
  method CollectValue(result: Table, el: string, s: seq<string>, flags: seq<string>, line: nat, l: string)
    returns (r: Table)
    requires line >= 1
    ensures r == ElemStep(result, el, s, flags, line, l)
  {
    r := result;
    var inFlags := StringInSlice(el, flags);
    if inFlags {
      if |s| >= 2 {
        if s[|s| - 1] == "sum" && s[|s| - 2] == "wall" {
          if el in r && |r[el]| == line {
            r := r[el := r[el][..line - 1] + [r[el][line - 1] + ", " + l]];
          } else {
            var entries := if el in r then r[el] else [];
            r := r[el := entries + [l]];
          }
        }
      } else {
        var entries := if el in r then r[el] else [];
        r := r[el := entries + [l]];
      }
    }
  }

  // Only flags become keys.

  predicate KeysAreFlags(result: Table, flags: seq<string>)
  {
    forall k :: k in result ==> k in flags
  }

  lemma {:induction false} ElemsKeepKeys(result: Table, s: seq<string>, j: nat, flags: seq<string>, line: nat, l: string)
    requires j <= |s| && line >= 1 && KeysAreFlags(result, flags)
    ensures KeysAreFlags(ElemsUpTo(result, s, j, flags, line, l), flags)
  {
    if j > 0 {
      ElemsKeepKeys(result, s, j - 1, flags, line, l);
    }
  }

  lemma {:induction false} CellsKeepKeys(result: Table, header: seq<string>, row: seq<string>, i: nat, flags: seq<string>, line: nat)
    requires i <= |row| <= |header| && line >= 1 && KeysAreFlags(result, flags)
    ensures KeysAreFlags(CellsUpTo(result, header, row, i, flags, line), flags)
  {
    if i > 0 {
      CellsKeepKeys(result, header, row, i - 1, flags, line);
      var s := Split(header[i - 1], "_");
      ElemsKeepKeys(CellsUpTo(result, header, row, i - 1, flags, line), s, |s|, flags, line, row[i - 1]);
    }
  }

  lemma {:induction false} LinesKeepKeys(lines: seq<seq<string>>, n: nat, flags: seq<string>)
    requires 1 <= n <= |lines| && RowsFit(lines)
    ensures KeysAreFlags(LinesUpTo(lines, n, flags), flags)
  {
    if n > 1 {
      LinesKeepKeys(lines, n - 1, flags);
      CellsKeepKeys(LinesUpTo(lines, n - 1, flags), lines[0], lines[n - 1], |lines[n - 1]|, flags, n - 1);
    }
  }

  /** Every key of the parsed table is one of the flags. */
  lemma ParsedKeysAreFlags(lines: seq<seq<string>>, flags: seq<string>)
    requires RowsFit(lines)
    ensures forall k :: k in Parsed(lines, flags) ==> k in flags
  {
    if |lines| > 0 {
      LinesKeepKeys(lines, |lines|, flags);
    }
  }

  // Columns whose header does not qualify are ignored.

  lemma {:induction false} ElemsIgnored(result: Table, s: seq<string>, j: nat, flags: seq<string>, line: nat, l: string)
    requires j <= |s| && line >= 1
    requires |s| == 1 ==> s[0] !in flags
    requires WallSum(s) ==> forall el :: el in s ==> el !in flags
    ensures ElemsUpTo(result, s, j, flags, line, l) == result
  {
    if j > 0 {
      ElemsIgnored(result, s, j - 1, flags, line, l);
      assert s[j - 1] in s;
    }
  }

  /** A value under a header that does not qualify leaves the table as it was. */
  lemma CellIgnored(result: Table, h: string, flags: seq<string>, line: nat, l: string)
    requires line >= 1
    requires !Qualifies(h, flags)
    ensures CellStep(result, h, flags, line, l) == result
  {
    var s := Split(h, "_");
    if |s| == 1 {
      SplitSingle(h, "_");
    }
    ElemsIgnored(result, s, |s|, flags, line, l);
  }

  // Wall-sum values of one line are joined into one entry.

  /** The value `l` once for each occurrence of `k` among the first `j` components. */
  function Occurrences(s: seq<string>, j: nat, k: string, l: string): seq<string>
    requires j <= |s|
  {
    if j == 0 then []
    else Occurrences(s, j - 1, k, l) + (if s[j - 1] == k then [l] else [])
  }

  /** What the first `j` components of header split `s` add to flag `k`'s entry of the line. */
  function CellOccurrences(s: seq<string>, j: nat, k: string, l: string): seq<string>
    requires j <= |s|
  {
    if WallSum(s) then Occurrences(s, j, k, l) else []
  }

  /** The wall-sum values of the first `i` cells of `row` that name flag `k`, in column order. */
  function RowContribs(header: seq<string>, row: seq<string>, i: nat, k: string): seq<string>
    requires i <= |row| <= |header|
  {
    if i == 0 then []
    else
      var s := Split(header[i - 1], "_");
      RowContribs(header, row, i - 1, k) + CellOccurrences(s, |s|, k, row[i - 1])
  }

  /** Flag `k`'s entries: the finished lines `done`, then the joined values `c` of the current line. */
  function Expected(done: seq<string>, c: seq<string>): seq<string>
  {
    if |c| == 0 then done else done + [Join(c, ", ")]
  }

  predicate Aligned(result: Table, k: string, expected: seq<string>)
  {
    (k in result <==> |expected| > 0) && Entries(result, k) == expected
  }

  lemma ElemStepAligned(result: Table, el: string, s: seq<string>, flags: seq<string>, line: nat, l: string,
                        k: string, done: seq<string>, c: seq<string>)
    requires line >= 1 && |done| == line - 1 && k in flags && el in s
    requires |s| == 1 ==> s[0] != k
    requires Aligned(result, k, Expected(done, c))
    ensures Aligned(ElemStep(result, el, s, flags, line, l), k,
                    Expected(done, c + (if WallSum(s) && el == k then [l] else [])))
  {
    var r := ElemStep(result, el, s, flags, line, l);
    if el == k && WallSum(s) {
      if |c| > 0 {
        assert k in result && |result[k]| == line;
        assert r[k] == done + [Join(c, ", ") + ", " + l];
        JoinSnoc(c, l, ", ");
      } else {
        assert r[k] == done + [l];
        assert Join([l], ", ") == l;
      }
    } else {
      assert c + [] == c;
      assert Entries(r, k) == Entries(result, k);
    }
  }

  lemma {:induction false} ElemsAligned(result: Table, s: seq<string>, j: nat, flags: seq<string>, line: nat, l: string,
                                        k: string, done: seq<string>, c: seq<string>)
    requires j <= |s| && line >= 1 && |done| == line - 1 && k in flags
    requires |s| == 1 ==> s[0] != k
    requires Aligned(result, k, Expected(done, c))
    ensures Aligned(ElemsUpTo(result, s, j, flags, line, l), k, Expected(done, c + CellOccurrences(s, j, k, l)))
  {
    if j == 0 {
      assert c + [] == c;
    } else {
      ElemsAligned(result, s, j - 1, flags, line, l, k, done, c);
      var prev := CellOccurrences(s, j - 1, k, l);
      var add := if WallSum(s) && s[j - 1] == k then [l] else [];
      assert s[j - 1] in s;
      var before := ElemsUpTo(result, s, j - 1, flags, line, l);
      assert ElemsUpTo(result, s, j, flags, line, l) == ElemStep(before, s[j - 1], s, flags, line, l);
      ElemStepAligned(before, s[j - 1], s, flags, line, l, k, done, c + prev);
      OccurrencesStep(s, j, k, l);
      AppendAssoc(c, prev, add);
      assert (c + prev) + add == c + CellOccurrences(s, j, k, l);
    }
  }

  lemma OccurrencesStep(s: seq<string>, j: nat, k: string, l: string)
    requires 0 < j <= |s|
    ensures CellOccurrences(s, j, k, l) ==
      CellOccurrences(s, j - 1, k, l) + (if WallSum(s) && s[j - 1] == k then [l] else [])
  {
  }

  lemma AppendAssoc<T>(a: seq<T>, b: seq<T>, c: seq<T>)
    ensures (a + b) + c == a + (b + c)
  {
  }

  lemma {:induction false} CellsAligned(result: Table, header: seq<string>, row: seq<string>, i: nat, flags: seq<string>,
                                        line: nat, k: string, done: seq<string>)
    requires i <= |row| <= |header| && line >= 1 && |done| == line - 1 && k in flags
    requires k !in header
    requires Aligned(result, k, done)
    ensures Aligned(CellsUpTo(result, header, row, i, flags, line), k, Expected(done, RowContribs(header, row, i, k)))
  {
    if i > 0 {
      CellsAligned(result, header, row, i - 1, flags, line, k, done);
      var s := Split(header[i - 1], "_");
      if |s| == 1 {
        SplitSingle(header[i - 1], "_");
        assert header[i - 1] in header;
      }
      ElemsAligned(CellsUpTo(result, header, row, i - 1, flags, line), s, |s|, flags, line, row[i - 1],
                   k, done, RowContribs(header, row, i - 1, k));
    }
  }

  /** Data line `m`'s wall-sum values for flag `k`, joined with ", ". */
  function LineJoin(lines: seq<seq<string>>, m: nat, k: string): string
    requires 1 <= m < |lines| && RowsFit(lines)
  {
    Join(RowContribs(lines[0], lines[m], |lines[m]|, k), ", ")
  }

  /** Flag `k`'s expected entries after data lines 1..n-1: one joined entry per line. */
  function JoinedLines(lines: seq<seq<string>>, n: nat, k: string): seq<string>
    requires 1 <= n <= |lines| && RowsFit(lines)
  {
    if n == 1 then []
    else JoinedLines(lines, n - 1, k) + [LineJoin(lines, n - 1, k)]
  }

  lemma {:induction false} JoinedLinesLength(lines: seq<seq<string>>, n: nat, k: string)
    requires 1 <= n <= |lines| && RowsFit(lines)
    ensures |JoinedLines(lines, n, k)| == n - 1
  {
    if n > 1 {
      JoinedLinesLength(lines, n - 1, k);
    }
  }

  lemma {:induction false} LinesAligned(lines: seq<seq<string>>, n: nat, flags: seq<string>, k: string)
    requires 1 <= n <= |lines| && RowsFit(lines) && k in flags && k !in lines[0]
    requires forall m :: 1 <= m < |lines| ==> |RowContribs(lines[0], lines[m], |lines[m]|, k)| > 0
    ensures Aligned(LinesUpTo(lines, n, flags), k, JoinedLines(lines, n, k))
  {
    if n > 1 {
      LinesAligned(lines, n - 1, flags, k);
      JoinedLinesLength(lines, n - 1, k);
      CellsAligned(LinesUpTo(lines, n - 1, flags), lines[0], lines[n - 1], |lines[n - 1]|, flags, n - 1,
                   k, JoinedLines(lines, n - 1, k));
    }
  }

  /**
   * When flag `k` is not a header on its own and every data line has at
   * least one wall-sum value naming it, its entry holds one item per data
   * line: that line's values joined with ", " in column order.
   */
  lemma WallSumValuesJoined(lines: seq<seq<string>>, flags: seq<string>, k: string)
    requires |lines| >= 2 && RowsFit(lines) && k in flags && k !in lines[0]
    requires forall m :: 1 <= m < |lines| ==> |RowContribs(lines[0], lines[m], |lines[m]|, k)| > 0
    ensures k in Parsed(lines, flags)
    ensures |Parsed(lines, flags)[k]| == |lines| - 1
    ensures forall m :: 1 <= m < |lines| ==>
      Parsed(lines, flags)[k][m - 1] == LineJoin(lines, m, k)
  {
    LinesAligned(lines, |lines|, flags, k);
    JoinedLinesLength(lines, |lines|, k);
    JoinedLinesIndex(lines, |lines|, k);
  }

  lemma {:induction false} JoinedLinesIndex(lines: seq<seq<string>>, n: nat, k: string)
    requires 1 <= n <= |lines| && RowsFit(lines)
    ensures |JoinedLines(lines, n, k)| == n - 1
    ensures forall m :: 1 <= m < n ==>
      JoinedLines(lines, n, k)[m - 1] == LineJoin(lines, m, k)
  {
    JoinedLinesLength(lines, n, k);
    if n > 1 {
      JoinedLinesIndex(lines, n - 1, k);
      var prev := JoinedLines(lines, n - 1, k);
      var last := LineJoin(lines, n - 1, k);
      assert JoinedLines(lines, n, k) == prev + [last];
      forall m | 1 <= m < n
        ensures JoinedLines(lines, n, k)[m - 1] == LineJoin(lines, m, k)
      {
        if m < n - 1 {
          assert (prev + [last])[m - 1] == prev[m - 1];
        }
      }
    }
  }

  // ---------------------------------------------------------------------
  // Picking one simulation setup from the .toml description

  /**
   * The scan after line `k`: `started` once a "Hosts" line was seen, `pos`
   * counts the lines after it, `parameters` holds the latest "Hosts" line's
   * fields. Yields the parameters and the fields of the chosen line.
   */
  function TomlScan(lines: seq<string>, k: nat, started: bool, pos: int, parameters: seq<string>, setupNbr: int)
    : Option<(seq<string>, seq<string>)>
    requires k <= |lines|
    decreases |lines| - k
  {
    if k == |lines| then None
    else
      var c := Split(lines[k], ", ");
      if started && pos == setupNbr then Some((parameters, c))
      else
        var pos' := if started then pos + 1 else pos;
        if c[0] == "Hosts" then TomlScan(lines, k + 1, true, pos', c, setupNbr)
        else TomlScan(lines, k + 1, started, pos', parameters, setupNbr)
  }

  function TomlChoice(lines: seq<string>, setupNbr: int): Option<(seq<string>, seq<string>)>
  {
    TomlScan(lines, 0, false, 0, [], setupNbr)
  }

  /** The chosen line has no more fields than the header it is read against (else an index panic). */
  predicate TomlFits(lines: seq<string>, setupNbr: int)
  {
    match TomlChoice(lines, setupNbr)
    case None => true
    case Some(pc) => |pc.1| <= |pc.0|
  }

  /** Parameter names of the first `n` fields mapped to the fields, a later duplicate name winning. */
  function Zip(parameters: seq<string>, c: seq<string>, n: nat): map<string, string>
    requires n <= |c| <= |parameters|
  {
    if n == 0 then map[] else Zip(parameters, c, n - 1)[parameters[n - 1] := c[n - 1]]
  }

  function TomlSetup(lines: seq<string>, setupNbr: int): map<string, string>
    requires TomlFits(lines, setupNbr)
  {
    match TomlChoice(lines, setupNbr)
    case None => map[]
    case Some(pc) => Zip(pc.0, pc.1, |pc.1|)
  }

  method ReadTomlSetup(lines: seq<string>, setupNbr: int) returns (setup: map<string, string>)
    requires TomlFits(lines, setupNbr)
    ensures setup == TomlSetup(lines, setupNbr)
  {
    var parameters: seq<string> := [];
    setup := map[];
    var started := false;
    var pos := 0;
    var k := 0;
    while k < |lines|
      invariant 0 <= k <= |lines|
      invariant setup == map[]
      invariant TomlChoice(lines, setupNbr) == TomlScan(lines, k, started, pos, parameters, setupNbr)
    {
      var c := Split(lines[k], ", ");
      if started {
        if pos == setupNbr {
          var i := 0;
          while i < |c|
            invariant 0 <= i <= |c| <= |parameters|
            invariant setup == Zip(parameters, c, i)
          {
            setup := setup[parameters[i] := c[i]];
            i := i + 1;
          }
          return;
        }
        pos := pos + 1;
      }
      if c[0] == "Hosts" {
        started := true;
        parameters := c;
      }
      k := k + 1;
    }
  }

  /** Keys are the parameter names of the chosen line's fields; a name used once maps to its own field. */
  lemma {:induction false} ZipLookup(parameters: seq<string>, c: seq<string>, n: nat)
    requires n <= |c| <= |parameters|
    ensures Zip(parameters, c, n).Keys == set i | 0 <= i < n :: parameters[i]
    ensures forall i :: 0 <= i < n && (forall j :: i < j < n ==> parameters[j] != parameters[i]) ==>
      parameters[i] in Zip(parameters, c, n) && Zip(parameters, c, n)[parameters[i]] == c[i]
  {
    if n > 0 {
      ZipLookup(parameters, c, n - 1);
    }
  }

  /** Before the first "Hosts" line nothing is counted and nothing is chosen. */
  lemma {:induction false} ScanUntilHosts(lines: seq<string>, k: nat, h: nat, setupNbr: int)
    requires k <= h < |lines|
    requires forall m :: k <= m < h ==> Split(lines[m], ", ")[0] != "Hosts"
    requires Split(lines[h], ", ")[0] == "Hosts"
    ensures TomlScan(lines, k, false, 0, [], setupNbr) == TomlScan(lines, h + 1, true, 0, Split(lines[h], ", "), setupNbr)
    decreases h - k
  {
    if k < h {
      ScanUntilHosts(lines, k + 1, h, setupNbr);
    }
  }

  /** After the "Hosts" line, line number `pos` past it is the one chosen when `pos` reaches `setupNbr`. */
  lemma {:induction false} ScanAfterHosts(lines: seq<string>, k: nat, pos: nat, parameters: seq<string>, setupNbr: nat)
    requires k <= |lines| && pos <= setupNbr && k + setupNbr - pos < |lines|
    requires forall m :: k <= m < k + setupNbr - pos ==> Split(lines[m], ", ")[0] != "Hosts"
    ensures TomlScan(lines, k, true, pos, parameters, setupNbr) ==
      Some((parameters, Split(lines[k + setupNbr - pos], ", ")))
    decreases setupNbr - pos
  {
    if pos < setupNbr {
      ScanAfterHosts(lines, k + 1, pos + 1, parameters, setupNbr);
    }
  }

  /**
   * With line `h` the first "Hosts" line and no other "Hosts" line before
   * the chosen one, the setup maps the fields of line `h` to those of line
   * h + 1 + setupNbr.
   */
  lemma TomlChoosesLineAfterHosts(lines: seq<string>, h: nat, setupNbr: nat)
    requires h + 1 + setupNbr < |lines|
    requires Split(lines[h], ", ")[0] == "Hosts"
    requires forall m :: 0 <= m < h + 1 + setupNbr && m != h ==> Split(lines[m], ", ")[0] != "Hosts"
    ensures TomlChoice(lines, setupNbr) == Some((Split(lines[h], ", "), Split(lines[h + 1 + setupNbr], ", ")))
  {
    ScanUntilHosts(lines, 0, h, setupNbr);
    ScanAfterHosts(lines, h + 1, 0, Split(lines[h], ", "), setupNbr);
  }

  /** Without a "Hosts" line, or with a negative setup number, the setup is empty. */
  lemma {:induction false} NoChoiceWithoutHosts(lines: seq<string>, k: nat, setupNbr: int)
    requires k <= |lines|
    requires forall m :: k <= m < |lines| ==> Split(lines[m], ", ")[0] != "Hosts"
    ensures TomlScan(lines, k, false, 0, [], setupNbr) == None
    decreases |lines| - k
  {
    if k < |lines| {
      NoChoiceWithoutHosts(lines, k + 1, setupNbr);
    }
  }

  lemma {:induction false} NoChoiceForNegative(lines: seq<string>, k: nat, started: bool, pos: nat, parameters: seq<string>, setupNbr: int)
    requires k <= |lines| && setupNbr < 0
    ensures TomlScan(lines, k, started, pos, parameters, setupNbr) == None
    decreases |lines| - k
  {
    if k < |lines| {
      var c := Split(lines[k], ", ");
      NoChoiceForNegative(lines, k + 1, true, if started then pos + 1 else pos, c, setupNbr);
      NoChoiceForNegative(lines, k + 1, started, if started then pos + 1 else pos, parameters, setupNbr);
    }
  }
}
