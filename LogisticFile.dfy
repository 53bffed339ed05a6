/**
 * The row filter of the logistic-regression dataset reader: every line is
 * split at the separator, the fields are trimmed and empty fields dropped,
 * and only the records as wide as the first one are kept.
 */
module LogisticFile {
  import Text

  /** The white-space characters removed by trimming. */
  predicate IsSpace(c: char)
  {
    c == ' ' || c == '\t' || c == '\n' || c == '\r' || c == '\U{000B}' || c == '\U{000C}'
    || c == '\U{0085}' || c == '\U{00A0}'
  }

  /** The text without its leading white space. */
  function TrimLeft(s: string): (r: string)
    ensures |r| <= |s| && r == s[|s| - |r|..]
    ensures |r| > 0 ==> !IsSpace(r[0])
    decreases |s|
  {
    if |s| > 0 && IsSpace(s[0]) then TrimLeft(s[1..]) else s
  }

  /** The text without its trailing white space; it keeps a first character that is not white space. */
  function TrimRight(s: string): (r: string)
    ensures |r| <= |s| && r == s[..|r|]
    ensures |r| > 0 ==> !IsSpace(r[|r| - 1])
    ensures |s| > 0 && !IsSpace(s[0]) ==> |r| > 0
    decreases |s|
  {
    if |s| > 0 && IsSpace(s[|s| - 1]) then TrimRight(s[..|s| - 1]) else s
  }

  /**
   * The text without leading and trailing white space: when it is not
   * empty it starts and ends with a character that is not white space.
   */
  function TrimSpace(s: string): (r: string)
    ensures |r| <= |s|
    ensures |r| > 0 ==> !IsSpace(r[0]) && !IsSpace(r[|r| - 1])
  {
    TrimRight(TrimLeft(s))
  }

  /** Trimming leaves nothing exactly when the text is all white space. */
  lemma TrimSpaceEmpty(s: string)
    ensures |TrimSpace(s)| == 0 <==> forall i :: 0 <= i < |s| ==> IsSpace(s[i])
  {
    TrimLeftSpaces(s);
  }

  /** TrimLeft removes only white space. */
  lemma {:induction false} TrimLeftSpaces(s: string)
    ensures forall i :: 0 <= i < |s| - |TrimLeft(s)| ==> IsSpace(s[i])
    decreases |s|
  {
    if |s| > 0 && IsSpace(s[0]) {
      TrimLeftSpaces(s[1..]);
      assert forall i :: 1 <= i < |s| ==> s[i] == s[1..][i - 1];
    }
  }

  /** The trimmed fields that are not empty, in order. */
  function Kept(parts: seq<string>): (r: seq<string>)
    ensures |r| <= |parts|
  {
    if |parts| == 0 then []
    else
      var n := |parts| - 1;
      var t := TrimSpace(parts[n]);
      Kept(parts[..n]) + (if |t| > 0 then [t] else [])
  }

  /** Every kept field is non-empty and neither starts nor ends with white space. */
  lemma {:induction false} KeptClean(parts: seq<string>, f: string)
    requires f in Kept(parts)
    ensures f != "" && !IsSpace(f[0]) && !IsSpace(f[|f| - 1])
  {
    var n := |parts| - 1;
    var t := TrimSpace(parts[n]);
    var front := Kept(parts[..n]);
    assert Kept(parts) == front + (if |t| > 0 then [t] else []);
    if f in front {
      KeptClean(parts[..n], f);
    } else {
      assert f == t;
    }
  }

  /** The fields of one line. */
  function Fields(line: string, sep: string): seq<string>
    requires |sep| > 0
  {
    Kept(Text.Split(line, sep))
  }

  /** The records of every line, in order. */
  function Records(lines: seq<string>, sep: string): (rows: seq<seq<string>>)
    requires |sep| > 0
    ensures |rows| == |lines|
  {
    seq(|lines|, i requires 0 <= i < |lines| => Fields(lines[i], sep))
  }

  /** The records of width w, in order. */
  function KeepWidth(rows: seq<seq<string>>, w: int): (r: seq<seq<string>>)
    ensures |r| <= |rows|
  {
    if |rows| == 0 then []
    else
      var n := |rows| - 1;
      KeepWidth(rows[..n], w) + (if |rows[n]| == w then [rows[n]] else [])
  }

  /**
   * Reads the lines into records and keeps those as wide as the first
   * record. Reading the first record of an empty file is a fatal error.
   */
  method ReadRows(lines: seq<string>, sep: string) returns (result: seq<seq<string>>)
    requires |lines| >= 1 && |sep| > 0
    ensures result == KeepWidth(Records(lines, sep), |Fields(lines[0], sep)|)
  {
    var matrix := Tokenize(lines, sep);
    var nbrFeatures := |matrix[0]|;
    result := KeepRows(matrix, nbrFeatures);
  }

  /** The reading loop: one record per line. */
  method Tokenize(lines: seq<string>, sep: string) returns (matrix: seq<seq<string>>)
    requires |sep| > 0
    ensures matrix == Records(lines, sep)
  {
    matrix := [];
    var i := 0;
    while i < |lines|
      invariant 0 <= i <= |lines|
      invariant matrix == Records(lines[..i], sep)
    {
      var line := Text.Split(lines[i], sep);
      var fields := KeepFields(line);
      assert Records(lines[..i + 1], sep) == Records(lines[..i], sep) + [Fields(lines[i], sep)];
      matrix := matrix + [fields];
      i := i + 1;
    }
    assert lines[..i] == lines;
  }

  /** The filtering loop: keeps the records of width nbrFeatures. */
  method KeepRows(matrix: seq<seq<string>>, nbrFeatures: int) returns (result: seq<seq<string>>)
    ensures result == KeepWidth(matrix, nbrFeatures)
  {
    result := [];
    var j := 0;
    while j < |matrix|
      invariant 0 <= j <= |matrix|
      invariant result == KeepWidth(matrix[..j], nbrFeatures)
    {
      assert matrix[..j + 1][..j] == matrix[..j];
      if |matrix[j]| == nbrFeatures {
        result := result + [matrix[j]];
      }
      j := j + 1;
    }
    assert matrix[..j] == matrix;
  }

  /** The inner loop: appends each trimmed field that is not empty. */
  method KeepFields(line: seq<string>) returns (fields: seq<string>)
    ensures fields == Kept(line)
  {
    fields := [];
    var k := 0;
    while k < |line|
      invariant 0 <= k <= |line|
      invariant fields == Kept(line[..k])
    {
      assert line[..k + 1][..k] == line[..k];
      var e := TrimSpace(line[k]);
      if |e| > 0 {
        fields := fields + [e];
      }
      k := k + 1;
    }
    assert line[..k] == line;
  }

  /** A record is kept exactly when it is one of the records and has width w. */
  lemma {:induction false} KeepWidthMembers(rows: seq<seq<string>>, w: int, row: seq<string>)
    ensures row in KeepWidth(rows, w) <==> row in rows && |row| == w
  {
    if |rows| > 0 {
      var n := |rows| - 1;
      assert rows == rows[..n] + [rows[n]];
      KeepWidthMembers(rows[..n], w, row);
    }
  }

  /** Filtering distributes over concatenation, so kept records stay in their order. */
  lemma {:induction false} KeepWidthAppend(a: seq<seq<string>>, b: seq<seq<string>>, w: int)
    ensures KeepWidth(a + b, w) == KeepWidth(a, w) + KeepWidth(b, w)
    decreases |b|
  {
    if |b| == 0 {
      assert a + b == a;
    } else {
      var n := |b| - 1;
      assert (a + b)[..|a + b| - 1] == a + b[..n];
      KeepWidthAppend(a, b[..n], w);
    }
  }

  /** The first record always survives and opens the result. */
  lemma FirstRecordKept(lines: seq<string>, sep: string)
    requires |lines| >= 1 && |sep| > 0
    ensures var result := KeepWidth(Records(lines, sep), |Fields(lines[0], sep)|);
      |result| >= 1 && result[0] == Fields(lines[0], sep)
  {
    var rows := Records(lines, sep);
    var w := |Fields(lines[0], sep)|;
    assert rows == [rows[0]] + rows[1..];
    KeepWidthAppend([rows[0]], rows[1..], w);
    assert KeepWidth([rows[0]], w) == [rows[0]] by {
      assert [rows[0]][..0] == [];
    }
  }

  /** Every kept field is non-empty and neither starts nor ends with white space. */
  lemma FieldsClean(lines: seq<string>, sep: string, i: nat, f: string)
    requires |lines| >= 1 && |sep| > 0
    requires var result := KeepWidth(Records(lines, sep), |Fields(lines[0], sep)|);
      i < |result| && f in result[i]
    ensures f != "" && !IsSpace(f[0]) && !IsSpace(f[|f| - 1])
  {
    var rows := Records(lines, sep);
    var result := KeepWidth(rows, |Fields(lines[0], sep)|);
    KeepWidthMembers(rows, |Fields(lines[0], sep)|, result[i]);
    var k :| 0 <= k < |rows| && rows[k] == result[i];
    KeptClean(Text.Split(lines[k], sep), f);
  }
}
