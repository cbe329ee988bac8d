/** Tuning constants, and the arithmetic of bucket and sample counts. */
module Config {
  import opened Powers

  /**
   * baseCase: kBaseCaseSize; logMax: kLogBuckets; threshold: kEqualBucketsThreshold;
   * unroll: kUnrollClassifier. Oversampling is the default 20 percent of log2(n).
   */
  datatype Config = Config(baseCase: nat, logMax: nat, threshold: nat, unroll: nat) {

    function SingleLevel(): nat { baseCase * Pow2(logMax) }

    function TwoLevel(): nat { SingleLevel() * Pow2(logMax) }

    function LogBuckets(n: nat): nat
      requires baseCase > 0 && n >= baseCase
    {
      QuotientCompare(n, baseCase, 1);
      var l := Log2(n / baseCase);
      if n <= SingleLevel() then Max(1, l)
      else if n <= TwoLevel() then Max(1, (l + 1) / 2)
      else logMax
    }

    /** Oversampling step: max(1, 0.2 * log2(n)), truncated. */
    function Step(n: nat): (s: nat)
      requires n > 0
      ensures s >= 1
    {
      Max(1, Log2(n) / 5)
    }

    function NumSamples(n: nat): nat
      requires baseCase > 0 && n >= baseCase
    {
      Step(n) * Pow2(LogBuckets(n)) - 1
    }

    /** The static assertions. */
    predicate Valid() {
      1 <= unroll <= baseCase && 1 <= logMax <= 8
    }

    /** Equality buckets are switched on whenever an input on a recursive level has one splitter only. */
    predicate Shrinks() {
      Pow2((logMax + 1) / 2) >= threshold + 2
    }
  }

  lemma Log2Below(n: nat)
    requires n > 0
    ensures Log2(n) < n
  {
    Pow2Grows(n);
    Log2Less(n, n);
  }

  lemma Log2Product(base: nat, m: nat, n: nat)
    requires base > 0 && m > 0 && 0 < n < (m + 1) * base
    ensures Log2(n) <= Log2(base) + Log2(m) + 1
  {
    var x, y := Log2(base) + 1, Log2(m) + 1;
    MulBoth(m + 1, base, Pow2(y), Pow2(x));
    Pow2Add(y, x);
    Log2Less(n, y + x);
  }

  lemma TwoLevelPower(c: Config)
    ensures c.SingleLevel() == Pow2(c.logMax) * c.baseCase
    ensures c.TwoLevel() == Pow2(2 * c.logMax) * c.baseCase
  {
    var p := Pow2(c.logMax);
    Pow2Add(c.logMax, c.logMax);
    assert c.baseCase * p * p == (p * p) * c.baseCase;
  }

  /** Which thresholds n exceeds, in terms of the logarithm of n / kBaseCaseSize. */
  lemma TwoLevelLog(c: Config, n: nat, m: nat)
    requires c.Valid() && m == n / c.baseCase > 0
    ensures n > c.TwoLevel() ==> 2 * c.logMax <= Log2(m)
    ensures n <= c.TwoLevel() ==> Log2(m) <= 2 * c.logMax
  {
    var p := Pow2(2 * c.logMax);
    TwoLevelPower(c);
    hide Config.TwoLevel, Config.SingleLevel;
    QuotientCompare(n, c.baseCase, p);
    Log2Less(m, 2 * c.logMax);
    if n <= c.TwoLevel() {
      AtMost(n, c.baseCase, p);
      Log2Less(m, 2 * c.logMax + 1);
    }
  }

  /** There are never more buckets than n / kBaseCaseSize. */
  lemma BucketsFit(c: Config, n: nat)
    requires c.Valid() && n > 2 * c.baseCase
    ensures n / c.baseCase >= 2
    ensures 1 <= c.LogBuckets(n) <= Log2(n / c.baseCase)
    ensures Pow2(c.LogBuckets(n)) <= n / c.baseCase
    ensures n > c.TwoLevel() ==> 2 * c.logMax <= Log2(n / c.baseCase)
    ensures n <= c.TwoLevel() ==> Log2(n / c.baseCase) <= 2 * c.logMax
  {
    var m := n / c.baseCase;
    QuotientCompare(n, c.baseCase, 2);
    Log2Mono(2, m);
    TwoLevelLog(c, n, m);
    Pow2Mono(c.LogBuckets(n), Log2(m));
  }

  lemma AtMost(n: nat, d: nat, q: nat)
    requires d > 0 && n <= q * d
    ensures n / d <= q
  {
    QuotientCompare(n, d, q + 1);
    assert (q + 1) * d == q * d + d;
  }

  /** Whichever threshold decides, at least about half of the levels below are left to the next steps. */
  lemma LevelsLeft(c: Config, n: nat)
    requires c.Valid() && n > 2 * c.baseCase
    ensures n / c.baseCase > 0 && c.LogBuckets(n) <= Log2(n / c.baseCase)
    ensures Log2(n / c.baseCase) <= 2 * (Log2(n / c.baseCase) - c.LogBuckets(n)) + 8
  {
    BucketsFit(c, n);
    if n <= c.SingleLevel() {
      TwoLevelPower(c);
      SmallLog(n, c.baseCase, c.logMax);
    }
  }

  /**
   * How many buckets: on the last level, so that they hold one to two base cases on average; if two levels are left,
   * so that both together do, and the first is not the smaller one; else as many as there can be.
   */
  lemma BucketSizes(c: Config, n: nat)
    requires c.Valid() && n > 2 * c.baseCase
    ensures c.LogBuckets(n) > 0
    ensures n <= c.SingleLevel() ==> Pow2(c.LogBuckets(n)) * c.baseCase <= n < Pow2(c.LogBuckets(n) + 1) * c.baseCase
    ensures c.SingleLevel() < n <= c.TwoLevel() ==>
      Pow2(2 * c.LogBuckets(n) - 1) * c.baseCase <= n < Pow2(2 * c.LogBuckets(n) + 1) * c.baseCase
    ensures c.SingleLevel() < n && n > c.TwoLevel() ==> c.LogBuckets(n) == c.logMax
  {
    BucketsFit(c, n);
    var m, k := n / c.baseCase, c.LogBuckets(n);
    if n <= c.SingleLevel() {
      PowerBracket(n, c.baseCase, k);
    } else if n <= c.TwoLevel() {
      Log2Less(m, 2 * k - 1);
      Log2Less(m, 2 * k + 1);
      QuotientCompare(n, c.baseCase, Pow2(2 * k - 1));
      QuotientCompare(n, c.baseCase, Pow2(2 * k + 1));
    }
  }

  lemma PowerBracket(n: nat, base: nat, k: nat)
    requires base > 0 && n >= base && k == Log2(n / base)
    ensures Pow2(k) * base <= n < Pow2(k + 1) * base
  {
    QuotientCompare(n, base, Pow2(k));
    QuotientCompare(n, base, Pow2(k + 1));
  }

  /** The oversampling step is the fifth of the logarithm, rounded down, but at least 1. */
  lemma StepIsFifth(c: Config, n: nat)
    requires n > 0
    ensures c.Step(n) == 1 || Pow2(5 * c.Step(n)) <= n
    ensures n < Pow2(5 * c.Step(n) + 5)
  {
    Log2Less(n, 5 * c.Step(n));
    Log2Less(n, 5 * c.Step(n) + 5);
  }

  /** The oversampling step is at most kBaseCaseSize * 2 ^ x if x levels are left. */
  lemma StepBound(c: Config, n: nat, x: nat)
    requires c.Valid() && n > 2 * c.baseCase && n / c.baseCase > 0 && Log2(n / c.baseCase) <= 2 * x + 8
    ensures c.Step(n) <= c.baseCase * Pow2(x)
  {
    var m, b := n / c.baseCase, c.baseCase;
    QuotientCompare(n, b, m + 1);
    Log2Product(b, m, n);
    Log2Below(b);
    SmallStep(b, x, Log2(n));
    Pow2Grows(x);
    MulMono(x + 1, Pow2(x), b);
    assert (x + 1) * b == b * (x + 1) && Pow2(x) * b == b * Pow2(x);
  }

  lemma SmallStep(b: nat, x: nat, l: nat)
    requires b >= 1 && l <= b + 2 * x + 8
    ensures Max(1, l / 5) <= b * (x + 1)
  {
    MulMono(1, b, x);
    assert b * (x + 1) == b * x + b;
  }

  lemma SampleProduct(c: Config, n: nat, m: nat)
    requires c.Valid() && n > 2 * c.baseCase && m == n / c.baseCase
    ensures c.Step(n) * Pow2(c.LogBuckets(n)) <= m * c.baseCase
  {
    LevelsLeft(c, n);
    var b, k, l := c.baseCase, c.LogBuckets(n), Log2(m);
    var x := l - k;
    StepBound(c, n, x);
    MulMono(c.Step(n), b * Pow2(x), Pow2(k));
    Pow2Add(x, k);
    MulMono(Pow2(l), m, b);
    Regroup(b, Pow2(x), Pow2(k));
  }

  lemma Regroup(a: nat, b: nat, c: nat)
    ensures (a * b) * c == (b * c) * a
  {
  }

  /** The sample is a proper part of the input. */
  lemma SampleFits(c: Config, n: nat)
    requires c.Valid() && n > 2 * c.baseCase
    ensures 1 <= c.NumSamples(n) < n
  {
    var m := n / c.baseCase;
    BucketsFit(c, n);
    SampleProduct(c, n, m);
    QuotientCompare(n, c.baseCase, m);
    Pow2Mono(1, c.LogBuckets(n));
    MulMono(1, c.Step(n), Pow2(c.LogBuckets(n)));
  }

  /** On levels that recurse, a single distinct splitter always switches equality buckets on. */
  lemma RecursiveLevel(c: Config, n: nat)
    requires c.Valid() && c.Shrinks() && n > 2 * c.baseCase && n > c.SingleLevel()
    ensures Pow2(c.LogBuckets(n)) - 2 >= c.threshold
  {
    TwoLevelPower(c);
    QuotientCompare(n, c.baseCase, Pow2(c.logMax));
    BucketsFit(c, n);
    Log2Less(n / c.baseCase, c.logMax);
    Pow2Mono((c.logMax + 1) / 2, c.LogBuckets(n));
  }

  /** The smallest input on a recursive level; both halves of the two-level rule are at their minimum. */
  lemma FirstRecursiveLevel(c: Config, n: nat)
    requires c.Valid() && n == c.SingleLevel() + 1
    ensures n > 2 * c.baseCase && c.LogBuckets(n) == (c.logMax + 1) / 2
  {
    var b, p, q := c.baseCase, Pow2(c.logMax), n / c.baseCase;
    TwoLevelPower(c);
    Pow2Mono(1, c.logMax);
    MulMono(2, p, b);
    Pow2Mono(c.logMax + 1, 2 * c.logMax);
    MulMono(2 * p, Pow2(2 * c.logMax), b);
    JustAbove(b, p, n);
    hide Config.SingleLevel, Config.TwoLevel;
    Log2Less(q, c.logMax);
    Log2Less(q, c.logMax + 1);
  }

  lemma JustAbove(b: nat, p: nat, n: nat)
    requires b >= 1 && p >= 2 && n == p * b + 1
    ensures p <= n / b < 2 * p && n <= (2 * p) * b
  {
    QuotientCompare(n, b, p);
    QuotientCompare(n, b, p + 2);
    MulMono(2, p, b);
    assert (p + 2) * b == p * b + 2 * b && (2 * p) * b == p * b + p * b;
    if p == 2 { QuotientCompare(n, b, 4); }
  }

  /** The configuration meets the bound exactly if all recursive levels have more candidates than the threshold. */
  lemma ShrinksExactly(c: Config)
    requires c.Valid()
    ensures c.Shrinks() <==>
      forall n: nat :: n > 2 * c.baseCase && n > c.SingleLevel() ==> Pow2(c.LogBuckets(n)) - 1 > c.threshold
  {
    if c.Shrinks() {
      forall n: nat | n > 2 * c.baseCase && n > c.SingleLevel() ensures Pow2(c.LogBuckets(n)) - 1 > c.threshold {
        RecursiveLevel(c, n);
      }
    } else {
      var n := c.SingleLevel() + 1;
      FirstRecursiveLevel(c, n);
      assert Pow2(c.LogBuckets(n)) - 1 <= c.threshold;
    }
  }

  /** There are never more than 2 ^ kLogBuckets buckets. */
  lemma LogBucketsBound(c: Config, n: nat)
    requires c.Valid() && n > 2 * c.baseCase
    ensures c.LogBuckets(n) <= c.logMax
  {
    BucketsFit(c, n);
    if n <= c.SingleLevel() {
      TwoLevelPower(c);
      SmallLog(n, c.baseCase, c.logMax);
    }
  }

  lemma SmallLog(n: nat, base: nat, k: nat)
    requires base > 0 && n / base > 0 && n <= Pow2(k) * base
    ensures Log2(n / base) <= k
  {
    var m := n / base;
    AtMost(n, base, Pow2(k));
    Log2Less(m, k + 1);
  }
}
