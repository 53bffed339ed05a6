/**
 * String splitting and joining with a non-empty separator, as Go's
 * strings.Split / strings.Join and Python's str.split / str.join behave:
 * the text is cut at every leftmost, non-overlapping occurrence of the
 * separator, and an empty text gives one empty field.
 */
module Text {

  function Split(s: string, sep: string): (r: seq<string>)
    requires |sep| > 0
    ensures |r| >= 1
    decreases |s|
  {
    if |s| == 0 then [""]
    else if sep <= s then [""] + Split(s[|sep|..], sep)
    else
      var rest := Split(s[1..], sep);
      [[s[0]] + rest[0]] + rest[1..]
  }

  function Join(parts: seq<string>, sep: string): string
  {
    if |parts| == 0 then ""
    else if |parts| == 1 then parts[0]
    else parts[0] + sep + Join(parts[1..], sep)
  }

  /** Splitting loses nothing: joining the fields with the separator gives the text back. */
  lemma {:induction false} SplitJoin(s: string, sep: string)
    requires |sep| > 0
    ensures Join(Split(s, sep), sep) == s
    decreases |s|
  {
    if |s| == 0 {
    } else if sep <= s {
      var rest := Split(s[|sep|..], sep);
      SplitJoin(s[|sep|..], sep);
      JoinEmptyHead(rest, sep);
      assert s == sep + s[|sep|..];
    } else {
      var rest := Split(s[1..], sep);
      SplitJoin(s[1..], sep);
      JoinExtendHead(s[0], rest, sep);
      assert s == [s[0]] + s[1..];
    }
  }

  lemma JoinEmptyHead(rest: seq<string>, sep: string)
    requires |rest| >= 1
    ensures Join([""] + rest, sep) == sep + Join(rest, sep)
  {
    assert ([""] + rest)[1..] == rest;
  }

  lemma JoinExtendHead(c: char, rest: seq<string>, sep: string)
    requires |rest| >= 1
    ensures Join([[c] + rest[0]] + rest[1..], sep) == [c] + Join(rest, sep)
  {
    var r := [[c] + rest[0]] + rest[1..];
    if |rest| > 1 {
      assert r[1..] == rest[1..];
    }
  }

  /** A text with no separator in it is its own single field. */
  lemma SplitSingle(s: string, sep: string)
    requires |sep| > 0
    requires |Split(s, sep)| == 1
    ensures Split(s, sep)[0] == s
  {
    SplitJoin(s, sep);
  }

  /** Joining one more field appends the separator and that field. */
  lemma {:induction false} JoinSnoc(parts: seq<string>, x: string, sep: string)
    requires |parts| > 0
    ensures Join(parts + [x], sep) == Join(parts, sep) + sep + x
    decreases |parts|
  {
    if |parts| == 1 {
      assert parts + [x] == [parts[0], x];
      assert [parts[0], x][1..] == [x];
    } else {
      assert (parts + [x])[1..] == parts[1..] + [x];
      JoinSnoc(parts[1..], x, sep);
    }
  }

  /** No field of a split on a one-character separator contains that character. */
  lemma {:induction false} SplitFieldsFree(s: string, c: char, k: nat)
    requires k < |Split(s, [c])|
    ensures c !in Split(s, [c])[k]
    decreases |s|
  {
    if |s| == 0 {
    } else if [c] <= s {
      if k > 0 {
        SplitFieldsFree(s[1..], c, k - 1);
      }
    } else {
      var rest := Split(s[1..], [c]);
      if k == 0 {
        SplitFieldsFree(s[1..], c, 0);
        assert s[0] != c;
      } else {
        SplitFieldsFree(s[1..], c, k);
      }
    }
  }

  /** Text without the separator character is its own single field. */
  lemma {:induction false} SplitNone(s: string, c: char)
    requires c !in s
    ensures Split(s, [c]) == [s]
    decreases |s|
  {
    if |s| > 0 {
      SplitNone(s[1..], c);
      assert [s[0]] + s[1..] == s;
    }
  }

  /** The first occurrence of the separator character ends the first field. */
  lemma {:induction false} SplitFirst(a: string, c: char, b: string)
    requires c !in a
    ensures Split(a + [c] + b, [c]) == [a] + Split(b, [c])
    decreases |a|
  {
    var s := a + [c] + b;
    if |a| == 0 {
      assert s == [c] + b;
      assert [c] <= s;
      assert s[1..] == b;
    } else {
      assert s[0] == a[0] && a[0] != c;
      assert s[1..] == a[1..] + [c] + b;
      SplitFirst(a[1..], c, b);
      assert [a[0]] + a[1..] == a;
    }
  }

  /**
   * Splitting on a one-character separator ends with an empty field
   * exactly when the text is empty or ends with that character.
   */
  lemma {:induction false} SplitLastEmpty(s: string, c: char)
    ensures var parts := Split(s, [c]);
      parts[|parts| - 1] == "" <==> |s| == 0 || s[|s| - 1] == c
    decreases |s|
  {
    if |s| == 0 {
    } else if [c] <= s {
      SplitLastEmpty(s[1..], c);
      if |s| > 1 {
        assert s[1..][|s| - 2] == s[|s| - 1];
      }
    } else {
      var rest := Split(s[1..], [c]);
      assert s[0] != c;
      if |rest| == 1 {
        SplitSingle(s[1..], [c]);
        SplitFieldsFree(s[1..], c, 0);
        if |s| > 1 {
          assert s[|s| - 1] == s[1..][|s| - 2];
        }
      } else {
        SplitLastEmpty(s[1..], c);
        if |s| > 1 {
          assert s[1..][|s| - 2] == s[|s| - 1];
        }
      }
    }
  }
}
