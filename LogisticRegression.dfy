/**
 * Counting and packing of the logistic-regression approximation
 * coefficients: how many coefficients each approximation degree has,
 * where each degree's block sits in the packed vector a data provider
 * encrypts, and how the querier unpacks it. Coefficients are integers
 * here (the source scales floats to int64 before packing).
 */
module LogisticRegression {
  import opened Common
  import opened Seqs

  // ---------------------------------------------------------------------
  // Factorial and combinations with repetition

  function Factorial(n: int): (r: int)
    ensures r >= 1
  {
    if n > 0 then
      var f := Factorial(n - 1);
      MulAtLeastOne(n, f);
      n * f
    else 1
  }

  lemma MulAtLeastOne(a: int, b: int)
    requires a >= 1 && b >= 1
    ensures a * b >= 1
  {
    assert a * b >= 1 * b by {
      assert a * b - 1 * b == (a - 1) * b;
      MulNonneg(a - 1, b);
    }
  }

  lemma MulNonneg(a: int, b: int)
    requires a >= 0 && b >= 0
    ensures a * b >= 0
  {
  }

  /** Binomial coefficient by Pascal's rule; 0 when k exceeds m >= 0. */
  function Binomial(m: int, k: nat): nat
    decreases k, if m > 0 then m else 0
  {
    if k == 0 then 1
    else if m <= 0 then 0
    else Binomial(m - 1, k - 1) + Binomial(m - 1, k)
  }

  /** top * (top - 1) * ... * (top - i + 1), built from its last factor. */
  function Falling(top: int, i: nat): int
  {
    if i == 0 then 1 else Falling(top, i - 1) * (top - i + 1)
  }

  lemma {:induction false} FallingFirst(top: int, i: nat)
    requires i >= 1
    ensures Falling(top, i) == top * Falling(top - 1, i - 1)
  {
    if i > 1 {
      FallingFirst(top, i - 1);
      var a, b, c := Falling(top, i - 1), Falling(top - 1, i - 2), top - i + 1;
      assert Falling(top, i) == a * c;
      assert Falling(top - 1, i - 1) == b * c;
      assert a == top * b;
      assert (top * b) * c == top * (b * c);
    }
  }

  /** The falling product of i factors is i! times the binomial coefficient. */
  lemma {:induction false} FallingBinomial(m: nat, k: nat)
    ensures Falling(m, k) == Binomial(m, k) * Factorial(k)
    decreases m
  {
    if k == 0 {
    } else if m == 0 {
      FallingFirst(0, k);
    } else {
      FallingBinomial(m - 1, k);
      FallingBinomial(m - 1, k - 1);
      FallingFirst(m, k);
      var f := Falling(m - 1, k - 1);
      var b1, b2 := Binomial(m - 1, k), Binomial(m - 1, k - 1);
      var fk, fk1 := Factorial(k), Factorial(k - 1);
      assert Falling(m - 1, k) == f * (m - k);
      assert Falling(m, k) == m * f;
      assert fk == k * fk1;
      assert f * (m - k) == b1 * fk;
      assert f == b2 * fk1;
      PascalStep(m, k, f, b1, b2, fk, fk1);
    }
  }

  lemma PascalStep(m: int, k: int, f: int, b1: int, b2: int, fk: int, fk1: int)
    requires fk == k * fk1 && f * (m - k) == b1 * fk && f == b2 * fk1
    ensures m * f == (b2 + b1) * fk
  {
    assert m * f == f * (m - k) + k * f;
    assert k * f == b2 * (k * fk1);
  }

  /** The falling product of k factors from m times (m - k)! is m!. */
  lemma {:induction false} FallingFactorial(m: nat, k: nat)
    requires k <= m
    ensures Falling(m, k) * Factorial(m - k) == Factorial(m)
  {
    if k > 0 {
      FallingFactorial(m, k - 1);
      var a, c, g := Falling(m, k - 1), m - k + 1, Factorial(m - k);
      var fc, fl := Factorial(m - (k - 1)), Falling(m, k);
      assert fc == c * g;
      assert fl == a * c;
      Regroup(a, c, g, fc, fl, Factorial(m));
    }
  }

  /** From fc == c * g, fl == a * c and a * fc == t follows fl * g == t. */
  lemma Regroup(a: int, c: int, g: int, fc: int, fl: int, t: int)
    requires fc == c * g && fl == a * c && a * fc == t
    ensures fl * g == t
  {
    assert a * (c * g) == (a * c) * g;
  }

  /** Binomial(m, k) is m! / (k! (m - k)!). */
  lemma BinomialFactorials(m: nat, k: nat)
    requires k <= m
    ensures Binomial(m, k) * Factorial(k) * Factorial(m - k) == Factorial(m)
  {
    FallingBinomial(m, k);
    FallingFactorial(m, k);
  }

  /** x! / d!, the product d+1 .. x. */
  function FactorialRatio(x: int, d: int): int
    requires d <= x
    decreases x - d
  {
    if x == d then 1 else x * FactorialRatio(x - 1, d)
  }

  lemma {:induction false} FactorialSplit(x: int, d: nat)
    requires d <= x
    ensures Factorial(x) == Factorial(d) * FactorialRatio(x, d)
    decreases x - d
  {
    if x > d {
      FactorialSplit(x - 1, d);
      var fx, fd, fr := Factorial(x - 1), Factorial(d), FactorialRatio(x - 1, d);
      var f, r := Factorial(x), FactorialRatio(x, d);
      assert f == x * fx;
      assert r == x * fr;
      Scale(x, fx, fd, fr, f, r);
    }
  }

  /** Multiplying both sides of fx == fd * fr by x. */
  lemma Scale(x: int, fx: int, fd: int, fr: int, f: int, r: int)
    requires f == x * fx && r == x * fr && fx == fd * fr
    ensures f == fd * r
  {
    assert x * (fd * fr) == fd * (x * fr);
  }

  /** a * c == b * c with c > 0 gives a == b. */
  lemma Cancel(a: int, b: int, c: int)
    requires c > 0 && a * c == b * c
    ensures a == b
  {
    if a < b {
      assert b * c - a * c == (b - a) * c;
      MulAtLeastOne(b - a, c);
    } else if a > b {
      assert a * c - b * c == (a - b) * c;
      MulAtLeastOne(a - b, c);
    }
  }

  /**
   * While d <= i, the running numerator (the falling product of i factors
   * over (d-1)!) and the running denominator (k! over (d-1)!) are both
   * divisible by d, so the reduction loop never stops below i + 1.
   */
  lemma DivisorDivides(top: nat, i: nat, k: nat, d: int, num: int, den: int)
    requires 2 <= d <= i <= k
    requires num * Factorial(d - 1) == Falling(top, i)
    requires den * Factorial(d - 1) == Factorial(k)
    ensures num % d == 0 && den % d == 0
  {
    var f := Factorial(d - 1);
    assert Factorial(d) == d * f;
    FallingBinomial(top, i);
    FactorialSplit(i, d);
    FactorialSplit(k, d);
    FactorDivides(num, f, Binomial(top, i), d, FactorialRatio(i, d));
    FactorDivides(den, f, 1, d, FactorialRatio(k, d));
  }

  /** x * f == b * (d * f * r) with f > 0 makes x a multiple of d. */
  lemma FactorDivides(x: int, f: int, b: int, d: int, r: int)
    requires f > 0 && d > 0 && x * f == b * ((d * f) * r)
    ensures x % d == 0
  {
    assert b * ((d * f) * r) == (d * (b * r)) * f;
    Cancel(x, d * (b * r), f);
    ModOfMultiple(d, b * r);
  }

  lemma ModOfMultiple(d: int, q: int)
    requires d > 0
    ensures (d * q) % d == 0
  {
    var x := d * q;
    assert x == q * d + 0;
    DivModUnique(x, d, q, 0);
  }

  lemma DivModUnique(x: int, d: int, q: int, r: int)
    requires d > 0 && 0 <= r < d && x == q * d + r
    ensures x % d == r && x / d == q
  {
    var q', r' := x / d, x % d;
    assert x == q' * d + r' && 0 <= r' < d;
    if q' < q {
      assert q * d - q' * d == (q - q') * d;
      MulAtLeastOne(q - q', d);
    } else if q' > q {
      assert q' * d - q * d == (q' - q) * d;
      MulAtLeastOne(q' - q, d);
    }
  }

  /** The running numerator is positive (the falling product of at most k factors from n + k - 1 >= k). */
  lemma {:induction false} FallingPositive(top: int, i: nat)
    requires top >= i
    ensures Falling(top, i) >= 1
  {
    if i > 0 {
      FallingPositive(top, i - 1);
      MulAtLeastOne(Falling(top, i - 1), top - i + 1);
    }
  }

  lemma PositiveFactor(a: int, b: int, c: int)
    requires b >= 1 && c >= 1 && a * b == c
    ensures a >= 1
  {
  }

  /** x stands for target / (d - 1)!. */
  ghost predicate Tracks(x: int, d: int, target: int)
  {
    x * Factorial(d - 1) == target
  }

  /**
   * The number of multisets of k elements drawn from n kinds: C(n + k - 1, k)
   * when 0 <= k <= n, and 1 when k > n or k < 0. Numerator and denominator
   * stay positive, so Go's truncating / and % agree with Dafny's here.
   */
  method CombinationsWithRepetition(n: int, k: int) returns (r: int)
    ensures k > n || k < 0 ==> r == 1
    ensures 0 <= k <= n ==> r == Binomial(n + k - 1, k)
  {
    var numerator := 1;
    var denominator := Factorial(k);
    var divisor := 2;
    if k <= n {
      ghost var top := n + k - 1;
      var i := 1;
      while i <= k
        invariant i == 1 || i <= k + 1
        invariant 2 <= divisor && (k >= 1 ==> divisor <= k + 1)
        invariant divisor >= i
        invariant numerator >= 1 && denominator >= 1
        invariant Tracks(denominator, divisor, Factorial(k))
        invariant Tracks(numerator, divisor, Falling(top, i - 1))
      {
        numerator := MultiplyIn(numerator, n + k - i, top, i, divisor);
        numerator, denominator, divisor := ReduceCommon(numerator, denominator, divisor, k, Falling(top, i));
        ReductionPassesFactor(top, i, k, divisor, numerator, denominator);
        i := i + 1;
      }
      if k >= 1 {
        ReducedToBinomial(numerator, denominator, top, k, i - 1, divisor);
      }
      return numerator / denominator;
    }
    return 1;
  }

  /** The numerator times the next factor c, still tracking the falling product. */
  method MultiplyIn(x: int, c: int, ghost top: int, ghost i: nat, ghost d: int) returns (y: int)
    requires i >= 1 && c == top - i + 1 >= 1 && x >= 1
    requires Tracks(x, d, Falling(top, i - 1))
    ensures Tracks(y, d, Falling(top, i)) && y >= 1
  {
    y := x * c;
    MultiplyTracks(x, c, top, i, d);
  }

  /** Multiplying in the next factor top - i + 1 extends the tracked falling product. */
  lemma MultiplyTracks(x: int, c: int, top: int, i: nat, d: int)
    requires i >= 1 && c == top - i + 1 >= 1 && x >= 1
    requires Tracks(x, d, Falling(top, i - 1))
    ensures Tracks(x * c, d, Falling(top, i)) && x * c >= 1
  {
    var f := Factorial(d - 1);
    assert Falling(top, i) == Falling(top, i - 1) * c;
    assert (x * c) * f == (x * f) * c;
    MulAtLeastOne(x, c);
  }

  /** The inner loop: divide numerator and denominator by 2, 3, ... while both are multiples. */
  method ReduceCommon(num: int, den: int, divisor: int, k: int, ghost target: int)
    returns (num': int, den': int, divisor': int)
    requires 2 <= divisor <= k + 1
    requires num >= 1 && den >= 1
    requires Tracks(num, divisor, target) && Tracks(den, divisor, Factorial(k))
    ensures divisor <= divisor' <= k + 1
    ensures num' >= 1 && den' >= 1
    ensures Tracks(num', divisor', target) && Tracks(den', divisor', Factorial(k))
    ensures divisor' > k || num' % divisor' != 0 || den' % divisor' != 0
  {
    num', den', divisor' := num, den, divisor;
    while divisor' <= k && num' % divisor' == 0 && den' % divisor' == 0
      invariant divisor <= divisor' <= k + 1
      invariant num' >= 1 && den' >= 1
      invariant Tracks(num', divisor', target) && Tracks(den', divisor', Factorial(k))
      decreases k + 1 - divisor'
    {
      ReduceStep(num', divisor', target);
      ReduceStep(den', divisor', Factorial(k));
      num' := num' / divisor';
      den' := den' / divisor';
      divisor' := divisor' + 1;
    }
  }

  /** Below i + 1 the divisor always divides both, so the reduction passes i. */
  lemma ReductionPassesFactor(top: nat, i: nat, k: nat, d: int, num: int, den: int)
    requires 2 <= d && i <= k
    requires Tracks(num, d, Falling(top, i)) && Tracks(den, d, Factorial(k))
    ensures d <= i ==> num % d == 0 && den % d == 0 && d <= k
  {
    if d <= i {
      DivisorDivides(top, i, k, d, num, den);
    }
  }

  /** With divisor k + 1 the denominator is 1 and the numerator the binomial coefficient. */
  lemma ReducedToBinomial(num: int, den: int, top: nat, k: nat, j: nat, d: int)
    requires k >= 1 && j == k && d == k + 1
    requires Tracks(den, d, Factorial(k)) && Tracks(num, d, Falling(top, j))
    ensures den == 1 && num / den == Binomial(top, k)
  {
    Cancel(den, 1, Factorial(k));
    FallingBinomial(top, k);
    Cancel(num, Binomial(top, k), Factorial(k));
  }

  /** Dividing a positive multiple of d by d keeps the tracked value. */
  lemma ReduceStep(x: int, d: int, target: int)
    requires d >= 2 && x >= 1 && x % d == 0
    requires Tracks(x, d, target)
    ensures Tracks(x / d, d + 1, target) && x / d >= 1
  {
    var q, f := x / d, Factorial(d - 1);
    assert x == q * d;
    assert Factorial(d) == d * f;
    assert q * (d * f) == (q * d) * f;
    PositiveFactor(q, d, x);
  }

  // ---------------------------------------------------------------------
  // Counting approximation coefficients

  /** Slots of approximation degree j for d features: (d+1)^(j+1); "degree -1" has one. */
  function Level(d: int, j: int): int
    requires j >= -1
  {
    Pow(d + 1, j + 1)
  }

  /** Slots of the degrees 0 .. k-1 together. */
  function TotalCount(d: int, k: int): int
    decreases k
  {
    if k <= 0 then 0 else TotalCount(d, k - 1) + Level(d, k - 1)
  }

  /** Adds up the slots of every degree below k. */
  method GetTotalNumberApproxCoefficients(d: int, k: int) returns (count: int)
    ensures count == TotalCount(d, k)
  {
    count := 0;
    var j := 0;
    while j < k
      invariant j >= 0 && (k >= 0 ==> j <= k) && (k < 0 ==> j == 0)
      invariant count == TotalCount(d, j)
    {
      count := count + Level(d, j);
      j := j + 1;
    }
  }

  /** The geometric series: d times the total is (d+1)^(k+1) - (d+1). */
  lemma {:induction false} TotalCountClosedForm(d: int, k: nat)
    ensures d * TotalCount(d, k) == Pow(d + 1, k + 1) - (d + 1)
  {
    if k == 0 {
      assert Pow(d + 1, 1) == (d + 1) * Pow(d + 1, 0);
    } else {
      TotalCountClosedForm(d, k - 1);
      var t, p := TotalCount(d, k - 1), Pow(d + 1, k);
      assert TotalCount(d, k) == t + p;
      assert Pow(d + 1, k + 1) == (d + 1) * p;
      GeometricStep(d, t, p);
    }
  }

  lemma GeometricStep(d: int, t: int, p: int)
    requires d * t == p - (d + 1)
    ensures d * (t + p) == (d + 1) * p - (d + 1)
  {
    assert d * (t + p) == d * t + d * p;
  }

  lemma LevelPositive(d: int, j: int)
    requires d >= 0 && j >= -1
    ensures Level(d, j) >= 1
  {
    PowPositive(d + 1, j + 1);
  }

  lemma TotalCountStep(d: int, j: nat)
    requires d >= 0
    ensures 0 <= TotalCount(d, j) && 1 <= Level(d, j)
    ensures TotalCount(d, j + 1) == TotalCount(d, j) + Level(d, j)
  {
    TotalCountNonnegative(d, j);
    LevelPositive(d, j);
  }

  /** With d >= 0 the running total never decreases. */
  lemma {:induction false} TotalCountMonotone(d: int, j: int, k: int)
    requires d >= 0 && j <= k
    ensures 0 <= TotalCount(d, j) <= TotalCount(d, k)
    decreases k - j
  {
    if j < k {
      TotalCountMonotone(d, j, k - 1);
      if k - 1 >= 0 {
        LevelPositive(d, k - 1);
      }
    } else {
      TotalCountNonnegative(d, j);
    }
  }

  lemma {:induction false} TotalCountNonnegative(d: int, k: int)
    requires d >= 0
    ensures TotalCount(d, k) >= 0
    decreases k
  {
    if k > 0 {
      TotalCountNonnegative(d, k - 1);
      LevelPositive(d, k - 1);
    }
  }

  // ---------------------------------------------------------------------
  // Blocks laid out one after the other, for any block sizes

  /** Where block j starts: the sum of the sizes before it. */
  function Start(lens: seq<int>, j: nat): int
    requires j <= |lens|
  {
    if j == 0 then 0 else Start(lens, j - 1) + lens[j - 1]
  }

  predicate Sizes(lens: seq<int>)
  {
    forall j :: 0 <= j < |lens| ==> lens[j] >= 0
  }

  lemma {:induction false} StartMonotone(lens: seq<int>, i: nat, j: nat)
    requires Sizes(lens) && i <= j <= |lens|
    ensures 0 <= Start(lens, i) <= Start(lens, j)
    decreases j
  {
    if j > 0 {
      if i < j {
        StartMonotone(lens, i, j - 1);
      } else {
        StartMonotone(lens, j - 1, j - 1);
      }
    }
  }

  /** The first |blocks| blocks have the sizes lens[0], lens[1], ... */
  predicate SizedBy(blocks: seq<seq<int>>, lens: seq<int>)
  {
    |blocks| <= |lens| && forall j :: 0 <= j < |blocks| ==> |blocks[j]| == lens[j]
  }

  /** The blocks one after the other. */
  function Concat(blocks: seq<seq<int>>): seq<int>
  {
    if |blocks| == 0 then [] else Concat(blocks[..|blocks| - 1]) + blocks[|blocks| - 1]
  }

  function Zeros(m: nat): (z: seq<int>)
    ensures |z| == m && forall t :: 0 <= t < m ==> z[t] == 0
  {
    seq(m, _ => 0)
  }

  /** Each block j lies inside the vector at packed[offs[j] .. offs[j] + lens[j]]. */
  predicate SlicesFit(packed: seq<int>, offs: seq<int>, lens: seq<int>)
  {
    |offs| == |lens| &&
    forall j :: 0 <= j < |offs| ==> 0 <= offs[j] && 0 <= lens[j] && offs[j] + lens[j] <= |packed|
  }

  function Slices(packed: seq<int>, offs: seq<int>, lens: seq<int>): seq<seq<int>>
    requires SlicesFit(packed, offs, lens)
  {
    seq(|offs|, j requires 0 <= j < |offs| => packed[offs[j]..offs[j] + lens[j]])
  }

  function Starts(lens: seq<int>): seq<int>
  {
    seq(|lens|, j requires 0 <= j < |lens| => Start(lens, j))
  }

  lemma StartsFit(packed: seq<int>, lens: seq<int>)
    requires Sizes(lens) && Start(lens, |lens|) <= |packed|
    ensures SlicesFit(packed, Starts(lens), lens)
  {
    forall j | 0 <= j < |lens|
      ensures 0 <= Start(lens, j) && Start(lens, j) + lens[j] <= |packed|
    {
      StartMonotone(lens, 0, j);
      StartMonotone(lens, j + 1, |lens|);
    }
  }

  /** The corrected unpacking: block j read from Start(lens, j). */
  function Unpack(packed: seq<int>, lens: seq<int>): (blocks: seq<seq<int>>)
    requires Sizes(lens) && Start(lens, |lens|) <= |packed|
    ensures |blocks| == |lens| && SizedBy(blocks, lens)
  {
    StartsFit(packed, lens);
    Slices(packed, Starts(lens), lens)
  }

  /** Unpacked block j is the vector from Start(lens, j) to Start(lens, j + 1). */
  lemma UnpackBlock(packed: seq<int>, lens: seq<int>, j: nat)
    requires Sizes(lens) && Start(lens, |lens|) <= |packed| && j < |lens|
    ensures 0 <= Start(lens, j) <= Start(lens, j + 1) <= |packed|
    ensures Unpack(packed, lens)[j] == packed[Start(lens, j)..Start(lens, j + 1)]
  {
    StartMonotone(lens, 0, j);
    StartMonotone(lens, j + 1, |lens|);
  }

  lemma PrefixSplit<T>(s: seq<T>, a: int, b: int)
    requires 0 <= a <= b <= |s|
    ensures s[..b] == s[..a] + s[a..b]
  {
  }

  /** Laying out blocks of the given sizes takes the sum of the sizes. */
  lemma {:induction false} ConcatLength(blocks: seq<seq<int>>, lens: seq<int>)
    requires SizedBy(blocks, lens)
    ensures |Concat(blocks)| == Start(lens, |blocks|)
  {
    if |blocks| > 0 {
      ConcatLength(blocks[..|blocks| - 1], lens);
    }
  }

  /** Block j of the layout sits at Start(lens, j). */
  lemma {:induction false} ConcatBlock(blocks: seq<seq<int>>, lens: seq<int>, j: nat)
    requires SizedBy(blocks, lens) && j < |blocks|
    ensures |Concat(blocks)| == Start(lens, |blocks|)
    ensures 0 <= Start(lens, j) <= Start(lens, j + 1) <= |Concat(blocks)|
    ensures Concat(blocks)[Start(lens, j)..Start(lens, j + 1)] == blocks[j]
  {
    var k := |blocks|;
    var front := blocks[..k - 1];
    var c := Concat(front);
    assert Concat(blocks) == c + blocks[k - 1];
    ConcatLength(front, lens);
    if j < k - 1 {
      ConcatBlock(front, lens, j);
      assert Concat(blocks)[..|c|] == c;
    } else {
      ConcatLength(blocks, lens);
    }
  }

  /** Unpacking a vector that starts with the laid-out blocks gives the blocks back. */
  lemma UnpackPrefix(packed: seq<int>, blocks: seq<seq<int>>, lens: seq<int>)
    requires Sizes(lens) && SizedBy(blocks, lens) && |blocks| == |lens|
    requires |Concat(blocks)| <= |packed| && packed[..|Concat(blocks)|] == Concat(blocks)
    ensures Start(lens, |lens|) <= |packed|
    ensures Unpack(packed, lens) == blocks
  {
    ConcatLength(blocks, lens);
    var u := Unpack(packed, lens);
    forall j | 0 <= j < |blocks|
      ensures u[j] == blocks[j]
    {
      ConcatBlock(blocks, lens, j);
      UnpackBlock(packed, lens, j);
      var a, b := Start(lens, j), Start(lens, j + 1);
      assert packed[a..b] == Concat(blocks)[a..b];
    }
  }

  /** Packing then unpacking gives the blocks back, whatever their sizes. */
  lemma UnpackConcat(blocks: seq<seq<int>>, lens: seq<int>)
    requires SizedBy(blocks, lens) && |blocks| == |lens|
    ensures Sizes(lens) && Start(lens, |lens|) == |Concat(blocks)|
    ensures Unpack(Concat(blocks), lens) == blocks
  {
    ConcatLength(blocks, lens);
    UnpackPrefix(Concat(blocks), blocks, lens);
  }

  /** The first m unpacked blocks, laid out again, are the vector up to Start(lens, m). */
  lemma {:induction false} ConcatUnpackPrefix(packed: seq<int>, lens: seq<int>, m: nat)
    requires Sizes(lens) && Start(lens, |lens|) <= |packed| && m <= |lens|
    ensures 0 <= Start(lens, m) <= |packed|
    ensures Concat(Unpack(packed, lens)[..m]) == packed[..Start(lens, m)]
  {
    StartMonotone(lens, 0, m);
    StartMonotone(lens, m, |lens|);
    if m > 0 {
      ConcatUnpackPrefix(packed, lens, m - 1);
      var u := Unpack(packed, lens);
      UnpackBlock(packed, lens, m - 1);
      assert u[..m][..m - 1] == u[..m - 1];
      PrefixSplit(packed, Start(lens, m - 1), Start(lens, m));
    }
  }

  /** Unpacking then packing gives back the part of the vector the blocks cover. */
  lemma ConcatUnpack(packed: seq<int>, lens: seq<int>)
    requires Sizes(lens) && Start(lens, |lens|) <= |packed|
    ensures 0 <= Start(lens, |lens|)
    ensures Concat(Unpack(packed, lens)) == packed[..Start(lens, |lens|)]
  {
    var u := Unpack(packed, lens);
    ConcatUnpackPrefix(packed, lens, |lens|);
    assert u[..|lens|] == u;
  }

  // ---------------------------------------------------------------------
  // The coefficient blocks of the approximation degrees

  /** The block sizes of degrees 0 .. k-1. */
  function Levels(d: int, k: nat): (lens: seq<int>)
    ensures |lens| == k
  {
    seq(k, j requires 0 <= j => Level(d, j))
  }

  /** The blocks of degrees j start at the running totals. */
  lemma {:induction false} LevelsStart(d: int, k: nat, j: nat)
    requires d >= 0 && j <= k
    ensures Sizes(Levels(d, k))
    ensures Start(Levels(d, k), j) == TotalCount(d, j)
  {
    forall t | 0 <= t < k
      ensures Levels(d, k)[t] >= 0
    {
      LevelPositive(d, t);
    }
    if j > 0 {
      LevelsStart(d, k, j - 1);
      TotalCountStep(d, j - 1);
    }
  }

  /** The offset the source gives degree j: j times the size of degree j - 1. */
  function AsWrittenOffset(d: int, j: int): int
    requires j >= 0
  {
    j * Level(d, j - 1)
  }

  lemma OffsetNonnegative(d: int, j: int)
    requires d >= 0 && j >= 0
    ensures AsWrittenOffset(d, j) >= 0
  {
    LevelPositive(d, j - 1);
    MulNonneg(j, Level(d, j - 1));
  }

  lemma {:induction false} LevelOfOneFeatureless(j: int)
    requires j >= -1
    ensures Level(0, j) == 1
    decreases j
  {
    if j >= 0 {
      LevelOfOneFeatureless(j - 1);
    }
  }

  lemma {:induction false} TotalOfFeatureless(k: nat)
    ensures TotalCount(0, k) == k
  {
    if k > 0 {
      TotalOfFeatureless(k - 1);
      LevelOfOneFeatureless(k - 1);
    }
  }

  /** For degrees 0 and 1, or without features, the source's offset is the running total. */
  lemma OffsetsAgree(d: int, j: int)
    requires d >= 0 && j >= 0 && (j <= 1 || d == 0)
    ensures AsWrittenOffset(d, j) == TotalCount(d, j)
  {
    if d == 0 {
      LevelOfOneFeatureless(j - 1);
      TotalOfFeatureless(j);
    } else if j == 1 {
      assert TotalCount(d, 1) == TotalCount(d, 0) + Level(d, 0);
    }
  }

  /** Every degree is strictly larger than the one before it once d >= 1. */
  lemma LevelGrows(d: int, j: int)
    requires d >= 1 && j >= 0
    ensures Level(d, j) >= 2 * Level(d, j - 1) && Level(d, j - 1) >= 1
  {
    LevelPositive(d, j - 1);
    var p := Level(d, j - 1);
    assert Level(d, j) == (d + 1) * p;
    assert (d + 1) * p == d * p + p;
    MulAtLeastOne(d, p);
  }

  /** Below degree m >= 2, the total is less than m copies of the top degree. */
  lemma {:induction false} TotalBelowLast(d: int, m: int)
    requires d >= 1 && m >= 2
    ensures TotalCount(d, m) < m * Level(d, m - 1)
    decreases m
  {
    var t, a, b := TotalCount(d, m - 1), Level(d, m - 2), Level(d, m - 1);
    assert TotalCount(d, m) == t + b;
    LevelGrows(d, m - 1);
    if m == 2 {
      assert t == TotalCount(d, 0) + a;
      assert t + b < 2 * b;
    } else {
      TotalBelowLast(d, m - 1);
      OverflowStep(m, t, a, b);
    }
  }

  lemma OverflowStep(m: int, t: int, a: int, b: int)
    requires m >= 2 && 0 <= a <= b && t < (m - 1) * a
    ensures t + b < m * b
  {
    assert (m - 1) * b - (m - 1) * a == (m - 1) * (b - a);
    MulNonneg(m - 1, b - a);
    assert m * b == (m - 1) * b + b;
  }

  /**
   * With at least one feature and three or more degrees, the last degree's
   * block, written from the source's offset, ends past the packed vector of
   * TotalCount(d, k) slots (for d = 1, k = 3: offset 8, 8 slots, 14 in all).
   */
  lemma AsWrittenPackingOverflows(d: int, k: int)
    requires d >= 1 && k >= 3
    ensures AsWrittenOffset(d, k - 1) + Level(d, k - 1) > TotalCount(d, k)
  {
    TotalBelowLast(d, k - 1);
  }

  /** The source's offsets of degrees 0 .. k-1. */
  function AsWrittenOffsets(d: int, k: nat): seq<int>
  {
    seq(k, j requires 0 <= j => AsWrittenOffset(d, j))
  }

  /** Reading every degree j from the source's offset stays inside the vector. */
  predicate ReadsFit(packed: seq<int>, d: int, k: nat)
  {
    SlicesFit(packed, AsWrittenOffsets(d, k), Levels(d, k))
  }

  /** The source's unpacking: degree j read from AsWrittenOffset(d, j). */
  function UnpackAsWritten(packed: seq<int>, d: int, k: nat): seq<seq<int>>
    requires ReadsFit(packed, d, k)
  {
    Slices(packed, AsWrittenOffsets(d, k), Levels(d, k))
  }

  /**
   * For at most two degrees, or without features, the source's offsets are
   * the running totals, so its reads stay inside a vector of TotalCount
   * slots and it unpacks what the corrected unpacking does.
   */
  lemma AsWrittenAgrees(packed: seq<int>, d: int, k: nat)
    requires d >= 0 && (k <= 2 || d == 0) && TotalCount(d, k) <= |packed|
    ensures Sizes(Levels(d, k)) && Start(Levels(d, k), k) <= |packed|
    ensures ReadsFit(packed, d, k)
    ensures UnpackAsWritten(packed, d, k) == Unpack(packed, Levels(d, k))
  {
    var lens := Levels(d, k);
    LevelsStart(d, k, k);
    forall j | 0 <= j < k
      ensures AsWrittenOffsets(d, k)[j] == Starts(lens)[j]
    {
      OffsetsAgree(d, j);
      LevelsStart(d, k, j);
    }
    assert AsWrittenOffsets(d, k) == Starts(lens);
    StartsFit(packed, lens);
  }

  /** The source's decoding inverts its encoding for at most two degrees or no features. */
  lemma DecodeInvertsEncode(blocks: seq<seq<int>>, d: int)
    requires d >= 0 && SizedBy(blocks, Levels(d, |blocks|)) && (|blocks| <= 2 || d == 0)
    ensures ReadsFit(Concat(blocks), d, |blocks|)
    ensures UnpackAsWritten(Concat(blocks), d, |blocks|) == blocks
  {
    var k := |blocks|;
    UnpackConcat(blocks, Levels(d, k));
    LevelsStart(d, k, k);
    AsWrittenAgrees(Concat(blocks), d, k);
  }

  // ---------------------------------------------------------------------
  // The packing and unpacking loops

  /**
   * The data provider's packing loop: a zeroed vector of TotalCount(d, k)
   * slots, and, when there is data, degree j's block written from
   * AsWrittenOffset(d, j). The writes stay inside the vector only for
   * k <= 2 or d == 0 (AsWrittenPackingOverflows shows the rest).
   */
  method PackCoefficients(d: int, k: int, blocks: Option<seq<seq<int>>>) returns (packed: seq<int>)
    requires d >= 0
    requires blocks.Some? ==> |blocks.value| == k && SizedBy(blocks.value, Levels(d, k)) && (k <= 2 || d == 0)
    ensures |packed| == TotalCount(d, k)
    ensures blocks.None? ==> forall t :: 0 <= t < |packed| ==> packed[t] == 0
    ensures blocks.Some? ==> packed == Concat(blocks.value)
  {
    var n := GetTotalNumberApproxCoefficients(d, k);
    TotalCountNonnegative(d, k);
    var a := new int[n](_ => 0);
    if blocks.Some? {
      var b := blocks.value;
      ghost var lens := Levels(d, k);
      LevelsStart(d, k, 0);
      var nLevelPrevious := Level(d, -1);
      var j := 0;
      while j < k
        invariant 0 <= j <= k
        invariant nLevelPrevious == Level(d, j - 1)
        invariant 0 <= Start(lens, j) <= n
        invariant a[..] == Concat(b[..j]) + Zeros(n - Start(lens, j))
      {
        var nLevel := Level(d, j);
        OffsetsAgree(d, j);
        LevelsStart(d, k, j);
        LevelsStart(d, k, j + 1);
        TotalCountMonotone(d, j + 1, k);
        ghost var before := a[..];
        WriteBlock(a, j * nLevelPrevious, b[j]);
        PackStep(b, lens, j, n, before, a[..]);
        nLevelPrevious := nLevel;
        j := j + 1;
      }
      assert b[..j] == b;
      ConcatLength(b, lens);
      LevelsStart(d, k, k);
      assert a[..] == Concat(b) + Zeros(0);
    }
    packed := a[..];
  }

  /** The inner packing loop: block copied into a from offset off; nothing else changes. */
  method WriteBlock(a: array<int>, off: int, block: seq<int>)
    requires 0 <= off && off + |block| <= a.Length
    modifies a
    ensures a[..] == old(a[..])[..off] + block + old(a[..])[off + |block|..]
  {
    var i := 0;
    while i < |block|
      invariant 0 <= i <= |block|
      invariant forall t :: 0 <= t < a.Length ==>
        a[t] == (if off <= t < off + i then block[t - off] else old(a[t]))
    {
      a[off + i] := block[i];
      i := i + 1;
    }
    assert a[..] == old(a[..])[..off] + block + old(a[..])[off + |block|..];
  }

  /** Writing block j over the zeros after the first j blocks extends the layout by one block. */
  lemma PackStep(b: seq<seq<int>>, lens: seq<int>, j: nat, n: int, before: seq<int>, after: seq<int>)
    requires SizedBy(b, lens) && j < |b|
    requires 0 <= Start(lens, j) && Start(lens, j + 1) <= n
    requires before == Concat(b[..j]) + Zeros(n - Start(lens, j)) && |before| == n
    requires after == before[..Start(lens, j)] + b[j] + before[Start(lens, j) + |b[j]|..]
    ensures after == Concat(b[..j + 1]) + Zeros(n - Start(lens, j + 1))
  {
    var c := Concat(b[..j]);
    ConcatLength(b[..j], lens);
    assert before[..|c|] == c;
    assert before[|c| + |b[j]|..] == Zeros(n - Start(lens, j + 1));
    assert b[..j + 1][..j] == b[..j];
  }

  /**
   * The querier's unpacking loop: degree j is read from
   * AsWrittenOffset(d, j); every read must land inside the vector.
   */
  method UnpackCoefficients(packed: seq<int>, d: int, k: int) returns (blocks: seq<seq<int>>)
    requires d >= 0 && k >= 0 && ReadsFit(packed, d, k)
    ensures blocks == UnpackAsWritten(packed, d, k)
  {
    ghost var expected := UnpackAsWritten(packed, d, k);
    blocks := [];
    var nLevelPrevious := Level(d, -1);
    var j := 0;
    while j < k
      invariant 0 <= j <= k
      invariant nLevelPrevious == Level(d, j - 1)
      invariant blocks == expected[..j]
    {
      var nLevel := Level(d, j);
      assert AsWrittenOffsets(d, k)[j] == j * nLevelPrevious;
      assert Levels(d, k)[j] == nLevel;
      var block := ReadBlock(packed, j * nLevelPrevious, nLevel);
      blocks := blocks + [block];
      assert expected[..j + 1] == expected[..j] + [expected[j]];
      nLevelPrevious := nLevel;
      j := j + 1;
    }
    assert expected[..k] == expected;
  }

  /** The inner unpacking loop: the len values from offset off. */
  method ReadBlock(packed: seq<int>, off: int, len: int) returns (block: seq<int>)
    requires 0 <= off && 0 <= len && off + len <= |packed|
    ensures block == packed[off..off + len]
  {
    var a := new int[len];
    var i := 0;
    while i < len
      invariant 0 <= i <= len
      invariant forall t :: 0 <= t < i ==> a[t] == packed[off + t]
    {
      a[i] := packed[off + i];
      i := i + 1;
    }
    block := a[..];
  }
}
