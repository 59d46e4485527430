/** webrtc_impl::RunningStatistics: Welford's update of mean and squared deviations, its
    reciprocal, and the merge of two statistics, over the real numbers and NaN. */
module RunningStatistics {
  import opened Multisets
  import opened Options

  // ---------------------------------------------------------------------------------------
  // The definitions the running values are compared with
  // ---------------------------------------------------------------------------------------

  function Sum(s: seq<real>): real {
    if s == [] then 0.0 else Sum(s[..|s| - 1]) + s[|s| - 1]
  }

  // The sum of squared deviations from m.
  function Deviations(s: seq<real>, m: real): real {
    if s == [] then 0.0
    else Deviations(s[..|s| - 1], m) + (s[|s| - 1] - m) * (s[|s| - 1] - m)
  }

  function Mean(s: seq<real>): real
    requires s != []
  {
    Sum(s) / |s| as real
  }

  function Squares(s: seq<real>): real {
    if s == [] then 0.0 else Squares(s[..|s| - 1]) + s[|s| - 1] * s[|s| - 1]
  }

  lemma AppendOne(s: seq<real>, x: real)
    ensures Sum(s + [x]) == Sum(s) + x
    ensures Squares(s + [x]) == Squares(s) + x * x
  {
    assert (s + [x])[..|s + [x]| - 1] == s;
  }

  lemma {:induction false} Concat(a: seq<real>, b: seq<real>)
    ensures Sum(a + b) == Sum(a) + Sum(b)
    ensures Squares(a + b) == Squares(a) + Squares(b)
  {
    if b == [] {
      assert a + b == a;
    } else {
      var init, x := b[..|b| - 1], b[|b| - 1];
      assert b == init + [x];
      assert a + b == (a + init) + [x];
      Concat(a, init);
      ConcatStep(a, init, x, x * x);
    }
  }

  lemma ConcatStep(a: seq<real>, init: seq<real>, x: real, square: real)
    requires square == x * x
    requires Sum(a + init) == Sum(a) + Sum(init) && Squares(a + init) == Squares(a) + Squares(init)
    ensures Sum((a + init) + [x]) == Sum(a) + Sum(init + [x])
    ensures Squares((a + init) + [x]) == Squares(a) + Squares(init + [x])
  {
    AppendOne(a + init, x);
    AppendOne(init, x);
  }

  lemma SquareOfDifference(x: real, m: real)
    ensures (x - m) * (x - m) == x * x - 2.0 * (m * x) + m * m
  {
  }

  lemma Distribute(c: real, a: real, b: real)
    ensures c * (a + b) == c * a + c * b
  {
  }

  lemma OneTimeMore(n: real, q: real)
    ensures (n + 1.0) * q == n * q + q
  {
  }

  // d is the sum of squared deviations from m, by the power sums of n samples.
  predicate Expands(d: real, total: real, squares: real, n: real, m: real) {
    d == squares - 2.0 * (m * total) + n * (m * m)
  }

  lemma ExpandOneMore(d: real, total: real, squares: real, n: real, x: real, m: real,
                      d1: real, total1: real, squares1: real, n1: real)
    requires Expands(d, total, squares, n, m)
    requires d1 == d + (x - m) * (x - m) && total1 == total + x && squares1 == squares + x * x && n1 == n + 1.0
    ensures Expands(d1, total1, squares1, n1, m)
  {
    SquareOfDifference(x, m);
    Distribute(m, total, x);
    OneTimeMore(n, m * m);
  }

  /** The sum of squared deviations in terms of the power sums. */
  lemma {:induction false} DeviationsExpand(s: seq<real>, m: real)
    ensures Expands(Deviations(s, m), Sum(s), Squares(s), |s| as real, m)
  {
    hide *;
    if s == [] {
      NothingExpands(m);
    } else {
      var rest := s[..|s| - 1];
      DeviationsExpand(rest, m);
      LastSquare(s);
      LastDeviation(s, m);
      LastSum(s);
      ExpandOneMore(Deviations(rest, m), Sum(rest), Squares(rest), |rest| as real, s[|s| - 1], m,
                    Deviations(s, m), Sum(s), Squares(s), |s| as real);
    }
  }

  lemma NothingExpands(m: real)
    ensures Expands(Deviations([], m), Sum([]), Squares([]), 0.0, m)
  {
    assert m * 0.0 == 0.0 && 0.0 * (m * m) == 0.0;
  }

  lemma LastSum(s: seq<real>)
    requires s != []
    ensures Sum(s) == Sum(s[..|s| - 1]) + s[|s| - 1] && |s| as real == |s[..|s| - 1]| as real + 1.0
  {
  }

  lemma LastSquare(s: seq<real>)
    requires s != []
    ensures Squares(s) == Squares(s[..|s| - 1]) + s[|s| - 1] * s[|s| - 1]
  {
  }

  lemma LastDeviation(s: seq<real>, m: real)
    requires s != []
    ensures Deviations(s, m) == Deviations(s[..|s| - 1], m) + (s[|s| - 1] - m) * (s[|s| - 1] - m)
  {
  }

  lemma Extract(s: seq<real>, j: nat)
    requires j < |s|
    ensures var rest := s[..j] + s[j + 1..];
            && Sum(s) == Sum(rest) + s[j]
            && Squares(s) == Squares(rest) + s[j] * s[j]
  {
    hide *;
    assert s == (s[..j] + [s[j]]) + s[j + 1..];
    MoveToEnd(s[..j], s[j], s[j + 1..]);
  }

  lemma MoveToEnd(a: seq<real>, x: real, b: seq<real>)
    ensures Sum((a + [x]) + b) == Sum(a + b) + x
    ensures Squares((a + [x]) + b) == Squares(a + b) + x * x
  {
    hide *;
    Concat(a + [x], b);
    Concat(a, b);
    AppendOne(a, x);
  }

  lemma ExtractMultiset(s: seq<real>, j: nat)
    requires j < |s|
    ensures multiset(s) == multiset(s[..j] + s[j + 1..]) + multiset{s[j]}
  {
    assert s == s[..j] + [s[j]] + s[j + 1..];
  }

  lemma {:induction false} SameRest(a: seq<real>, b: seq<real>) returns (j: nat)
    requires a != [] && multiset(a) == multiset(b)
    ensures j < |b| && b[j] == a[|a| - 1]
    ensures multiset(a[..|a| - 1]) == multiset(b[..j] + b[j + 1..])
  {
    var n := |a| - 1;
    assert a == a[..n] + [a[n]];
    assert a[n] in multiset(b);
    j :| 0 <= j < |b| && b[j] == a[n];
    ExtractMultiset(b, j);
    CancelOne(multiset(a[..n]), multiset(b[..j] + b[j + 1..]), a[n]);
  }

  lemma {:induction false} PowerSumsOfMultiset(a: seq<real>, b: seq<real>)
    requires multiset(a) == multiset(b)
    ensures |a| == |b| && Sum(a) == Sum(b) && Squares(a) == Squares(b)
  {
    if a == [] {
      assert |multiset(b)| == 0;
    } else {
      var j := SameRest(a, b);
      Extract(b, j);
      PowerSumsOfMultiset(a[..|a| - 1], b[..j] + b[j + 1..]);
    }
  }

  // ---------------------------------------------------------------------------------------
  // The algebra of the updates, for n samples with mean m, sum `total` and sum of squares
  // `squares`; about the mean the sum of squared deviations is squares - m * total
  // ---------------------------------------------------------------------------------------

  lemma Regroup(n: real, m: real, total: real)
    requires n * m == total
    ensures n * (m * m) == m * total
  {
    assert n * (m * m) == m * (n * m);
  }

  lemma QuotientTimes(a: real, b: real)
    requires b != 0.0
    ensures b * (a / b) == a
  {
  }

  lemma WelfordProduct(n: real, m: real, total: real, squares: real, x: real, k: real)
    requires n * m == total && (n + 1.0) * k == total + x
    ensures (squares + x * x) - k * (total + x) == (squares - m * total) + (x - m) * (x - k)
  {
    OneTimeMore(n, m);
    assert k * ((n + 1.0) * m) == m * ((n + 1.0) * k);
    assert k * (total + m) == m * (total + x);
    Distribute(k, total, m);
    Distribute(m, total, x);
    Distribute(k, total, x);
    assert (x - m) * (x - k) == x * x - k * x - m * x + k * m;
  }

  lemma AddAlgebra(n: real, m: real, total: real, squares: real, x: real, k: real)
    requires n >= 0.0 && n * m == total && k == m + (x - m) / (n + 1.0)
    ensures (n + 1.0) * k == total + x
    ensures (squares - m * total) + (x - m) * (x - k) == (squares + x * x) - k * (total + x)
  {
    Distribute(n + 1.0, m, (x - m) / (n + 1.0));
    QuotientTimes(x - m, n + 1.0);
    OneTimeMore(n, m);
    WelfordProduct(n, m, total, squares, x, k);
  }

  lemma RemoveAlgebra(n: real, m: real, total: real, squares: real, x: real, k: real)
    requires n > 0.0 && (n + 1.0) * m == total && k == m - (x - m) / n
    ensures n * k == total - x
    ensures (squares - m * total) - (x - m) * (x - k) == (squares - x * x) - k * (total - x)
  {
    Distribute(n, m, -((x - m) / n));
    QuotientTimes(x - m, n);
    assert n * -((x - m) / n) == -(n * ((x - m) / n));
    OneTimeMore(n, m);
    WelfordProduct(n, k, total - x, squares - x * x, x, m);
    assert (x - m) * (x - k) == (x - k) * (x - m);
  }

  lemma MergeDeltaAlgebra(n: real, m: real, total: real, k: real)
    requires n * m == total
    ensures n * (k * (k - 2.0 * m) + m * m) == n * (k * k) - 2.0 * (k * total) + m * total
  {
    Regroup(n, m, total);
    assert k * (k - 2.0 * m) == k * k - 2.0 * (k * m);
    Distribute(n, k * k - 2.0 * (k * m), m * m);
    Distribute(n, k * k, -2.0 * (k * m));
    assert n * (-2.0 * (k * m)) == -2.0 * (k * (n * m));
  }

  lemma MergedMeanAlgebra(n: real, m: real, total: real, p: real, q: real, other: real)
    requires n * m == total && p * q == other && n + p > 0.0
    ensures (n + p) * ((m * n + q * p) / (n + p)) == total + other
  {
    QuotientTimes(m * n + q * p, n + p);
  }

  lemma MergeAlgebra(n: real, m: real, total: real, p: real, q: real, other: real, k: real)
    requires n * m == total && p * q == other && (n + p) * k == total + other
    ensures (-(m * total) + n * (k * (k - 2.0 * m) + m * m)) + (-(q * other) + p * (k * (k - 2.0 * q) + q * q))
            == -(k * (total + other))
  {
    MergeDeltaAlgebra(n, m, total, k);
    MergeDeltaAlgebra(p, q, other, k);
    Regroup(n + p, k, total + other);
    assert (n + p) * (k * k) == n * (k * k) + p * (k * k);
    Distribute(k, total, other);
  }

  // ---------------------------------------------------------------------------------------
  // What the running values hold
  // ---------------------------------------------------------------------------------------

  // std::max and std::min, with None for the infinity of an empty statistics.
  function MaxOf(a: Option<real>, b: Option<real>): Option<real> {
    if a.None? then b else if b.None? then a else if a.value < b.value then b else a
  }

  function MinOf(a: Option<real>, b: Option<real>): Option<real> {
    if a.None? then b else if b.None? then a else if b.value < a.value then b else a
  }

  ghost predicate IsMax(seen: seq<real>, m: Option<real>) {
    (m.None? <==> seen == []) && (m.Some? ==> m.value in seen && forall x :: x in seen ==> x <= m.value)
  }

  ghost predicate IsMin(seen: seq<real>, m: Option<real>) {
    (m.None? <==> seen == []) && (m.Some? ==> m.value in seen && forall x :: x in seen ==> m.value <= x)
  }

  lemma ExtremesOfMore(seen: seq<real>, min: Option<real>, max: Option<real>,
                       more: seq<real>, min': Option<real>, max': Option<real>)
    requires IsMin(seen, min) && IsMax(seen, max) && IsMin(more, min') && IsMax(more, max')
    ensures IsMin(seen + more, MinOf(min, min')) && IsMax(seen + more, MaxOf(max, max'))
  {
  }

  // In terms of the power sums; DescribesMeans says what it amounts to.
  ghost predicate Describes(samples: seq<real>, size: int, mean: real, cumul: real) {
    size == |samples| && Fits(size as real, Sum(samples), Squares(samples), mean, cumul)
  }

  ghost predicate Fits(n: real, total: real, squares: real, mean: real, cumul: real) {
    n * mean == total && cumul == squares - mean * total
  }

  /** The running values describe the samples exactly when they are the mean and the sum of the
      squared deviations from it. */
  lemma DescribesMeans(s: seq<real>, size: int, mean: real, cumul: real)
    requires s != []
    ensures Describes(s, size, mean, cumul)
            <==> size == |s| && mean == Mean(s) && cumul == Deviations(s, Mean(s))
  {
    hide Sum, Squares, Deviations;
    var n, m := |s| as real, Mean(s);
    QuotientTimes(Sum(s), n);
    DeviationsExpand(s, m);
    Regroup(n, m, Sum(s));
    if size == |s| && n * mean == Sum(s) {
      SameQuotient(n, mean, m);
    }
  }

  lemma SameQuotient(n: real, a: real, b: real)
    requires n != 0.0 && n * a == n * b
    ensures a == b
  {
    assert a == n * a / n && b == n * b / n;
  }

  lemma AddedFits(n: real, total: real, squares: real, mean: real, cumul: real, x: real,
                  n1: real, total1: real, squares1: real, k: real, c: real)
    requires Fits(n, total, squares, mean, cumul) && n >= 0.0
    requires n1 == n + 1.0 && total1 == total + x && squares1 == squares + x * x
    requires k == mean + (x - mean) / n1 && c == cumul + (x - mean) * (x - k)
    ensures Fits(n1, total1, squares1, k, c)
  {
    AddAlgebra(n, mean, total, squares, x, k);
  }

  // k and c are what AddSample makes of the mean and the cumulant.
  lemma AddedDescribes(s: seq<real>, size: int, mean: real, cumul: real, x: real, k: real, c: real)
    requires Describes(s, size, mean, cumul)
    requires k == mean + (x - mean) / (size + 1) as real && c == cumul + (x - mean) * (x - k)
    ensures Describes(s + [x], size + 1, k, c)
  {
    hide Fits, Sum, Squares;
    AppendOne(s, x);
    AddedFits(size as real, Sum(s), Squares(s), mean, cumul, x,
              (size + 1) as real, Sum(s + [x]), Squares(s + [x]), k, c);
  }

  lemma RemovedSums(s: seq<real>, rest: seq<real>, x: real)
    requires multiset(s) == multiset(rest) + multiset{x}
    ensures |s| == |rest| + 1 && Sum(s) == Sum(rest) + x && Squares(s) == Squares(rest) + x * x
  {
    assert multiset(rest + [x]) == multiset(rest) + multiset{x};
    PowerSumsOfMultiset(s, rest + [x]);
    AppendOne(rest, x);
  }

  lemma RemovedFits(n: real, total: real, squares: real, x: real, k: real, c: real,
                    n1: real, total1: real, squares1: real, mean: real, cumul: real)
    requires Fits(n1, total1, squares1, mean, cumul) && n > 0.0
    requires n1 == n + 1.0 && total1 == total + x && squares1 == squares + x * x
    requires k == mean - (x - mean) / n && c == cumul - (x - mean) * (x - k)
    ensures Fits(n, total, squares, k, c)
  {
    RemoveAlgebra(n, mean, total1, squares1, x, k);
  }

  // k and c are what RemoveSample makes of the mean and the cumulant.
  lemma RemovedDescribes(s: seq<real>, size: int, mean: real, cumul: real, rest: seq<real>, x: real, k: real, c: real)
    requires Describes(s, size, mean, cumul) && rest != [] && size > 1
    requires multiset(s) == multiset(rest) + multiset{x}
    requires k == mean - (x - mean) / (size - 1) as real && c == cumul - (x - mean) * (x - k)
    ensures Describes(rest, size - 1, k, c)
  {
    hide Fits, Sum, Squares;
    RemovedSums(s, rest, x);
    RemovedFits((size - 1) as real, Sum(rest), Squares(rest), x, k, c,
                size as real, Sum(s), Squares(s), mean, cumul);
  }

  lemma SizeWithout(s: seq<real>, rest: seq<real>, x: real)
    requires multiset(s) == multiset(rest) + multiset{x}
    ensures |s| == |rest| + 1
  {
    assert |multiset(s)| == |multiset(rest)| + 1;
  }

  // The only sample is the mean, so that removing it divides zero by zero.
  lemma OnlySampleIsMean(s: seq<real>, size: int, mean: real, cumul: real, rest: seq<real>, x: real)
    requires Describes(s, size, mean, cumul) && multiset(s) == multiset(rest) + multiset{x}
    ensures size == |rest| + 1 && (rest == [] ==> x == mean)
  {
    RemovedSums(s, rest, x);
  }

  // The mean computed by MergeStatistics, and its correction of one cumulant.
  function MergedMean(sizeA: int, meanA: real, sizeB: int, meanB: real): real
    requires sizeA + sizeB != 0
  {
    (meanA * sizeA as real + meanB * sizeB as real) / (sizeA + sizeB) as real
  }

  function MergeDelta(size: int, mean: real, newMean: real): real {
    size as real * (newMean * (newMean - 2.0 * mean) + mean * mean)
  }

  lemma MergedFits(n: real, totalA: real, squaresA: real, meanA: real, cumulA: real,
                   p: real, totalB: real, squaresB: real, meanB: real, cumulB: real,
                   n1: real, total1: real, squares1: real, k: real, c: real)
    requires Fits(n, totalA, squaresA, meanA, cumulA) && Fits(p, totalB, squaresB, meanB, cumulB)
    requires n1 == n + p && n1 > 0.0 && total1 == totalA + totalB && squares1 == squaresA + squaresB
    requires k == (meanA * n + meanB * p) / n1
    requires c == cumulA + n * (k * (k - 2.0 * meanA) + meanA * meanA)
                  + cumulB + p * (k * (k - 2.0 * meanB) + meanB * meanB)
    ensures Fits(n1, total1, squares1, k, c)
  {
    MergedMeanAlgebra(n, meanA, totalA, p, meanB, totalB);
    MergeAlgebra(n, meanA, totalA, p, meanB, totalB, k);
  }

  // k and c are what MergeStatistics makes of the mean and the cumulant.
  lemma MergedDescribes(a: seq<real>, sizeA: int, meanA: real, cumulA: real,
                        b: seq<real>, sizeB: int, meanB: real, cumulB: real, k: real, c: real)
    requires Describes(a, sizeA, meanA, cumulA) && Describes(b, sizeB, meanB, cumulB) && sizeB > 0
    requires k == MergedMean(sizeA, meanA, sizeB, meanB)
    requires c == cumulA + MergeDelta(sizeA, meanA, k) + cumulB + MergeDelta(sizeB, meanB, k)
    ensures Describes(a + b, sizeA + sizeB, k, c)
  {
    hide Fits, Sum, Squares;
    Concat(a, b);
    MergedFits(sizeA as real, Sum(a), Squares(a), meanA, cumulA, sizeB as real, Sum(b), Squares(b), meanB, cumulB,
               (sizeA + sizeB) as real, Sum(a + b), Squares(a + b), k, c);
  }

  /** What the statistics hold is a function of the multiset of samples: any two histories that
      leave the same samples, in whatever order, leave the same mean and deviations. */
  lemma StateIsOfMultiset(a: seq<real>, sizeA: int, meanA: real, cumulA: real,
                          b: seq<real>, sizeB: int, meanB: real, cumulB: real)
    requires Describes(a, sizeA, meanA, cumulA) && Describes(b, sizeB, meanB, cumulB)
    requires multiset(a) == multiset(b) && a != []
    ensures sizeA == sizeB && meanA == meanB && cumulA == cumulB
  {
    PowerSumsOfMultiset(a, b);
    SameQuotient(sizeA as real, meanA, meanB);
  }

  // A double without rounding. No infinity arises: all that is ever divided by zero is zero.
  datatype Double = Number(value: real) | NaN {
    function Plus(b: Double): Double {
      if Number? && b.Number? then Number(value + b.value) else NaN
    }

    function Minus(b: Double): Double {
      if Number? && b.Number? then Number(value - b.value) else NaN
    }

    function Times(b: Double): Double {
      if Number? && b.Number? then Number(value * b.value) else NaN
    }

    function Over(n: int): Double
      requires Number? && n == 0 ==> value == 0.0
    {
      if Number? && n != 0 then Number(value / n as real) else NaN
    }
  }

  // How much a cumulant grows when its deviations are taken from newMean.
  function Delta(size: int, mean: Double, newMean: Double): Double {
    var inner := newMean.Minus(Number(2.0).Times(mean));
    Number(size as real).Times(newMean.Times(inner).Plus(mean.Times(mean)))
  }

  lemma DeltaIs(size: int, mean: Double, newMean: Double)
    ensures Delta(size, mean, newMean) ==
      if mean.Number? && newMean.Number? then Number(MergeDelta(size, mean.value, newMean.value)) else NaN
  {
    if mean.Number? && newMean.Number? {
      var m, k := mean.value, newMean.value;
      assert newMean.Minus(Number(2.0).Times(mean)) == Number(k - 2.0 * m);
      assert newMean.Times(Number(k - 2.0 * m)) == Number(k * (k - 2.0 * m));
      assert mean.Times(mean) == Number(m * m);
    }
  }

  // new_mean, from the sums of the two statistics.
  function NewMean(sizeA: int, meanA: Double, sizeB: int, meanB: Double): Double
    requires sizeA + sizeB != 0
  {
    meanA.Times(Number(sizeA as real)).Plus(meanB.Times(Number(sizeB as real))).Over(sizeA + sizeB)
  }

  lemma NewMeanIs(sizeA: int, meanA: Double, sizeB: int, meanB: Double)
    requires sizeA + sizeB != 0
    ensures NewMean(sizeA, meanA, sizeB, meanB) ==
      if meanA.Number? && meanB.Number? then Number(MergedMean(sizeA, meanA.value, sizeB, meanB.value)) else NaN
  {
  }

  class RunningStatistics {
    var size: int
    var min: Option<real>
    var max: Option<real>
    var mean: Double
    var cumul: Double
    ghost var samples: seq<real>  // the samples that participate
    ghost var seen: seq<real>     // all samples ever added or merged in
    ghost var emptied: bool       // whether the last sample was ever removed, here or in what was merged in

    /** Unless the last sample was ever removed, mean is the mean of the samples and cumul the sum
        of their squared deviations from it; otherwise both are NaN for good. min and max are over
        all samples ever seen. */
    ghost predicate Valid()
      reads this
    {
      && size == |samples|
      && (if emptied then mean.NaN? && cumul.NaN?
          else mean.Number? && cumul.Number? && Describes(samples, size, mean.value, cumul.value))
      && IsMin(seen, min) && IsMax(seen, max)
    }

    constructor ()
      ensures Valid() && samples == [] && seen == [] && !emptied
    {
      size, min, max, mean, cumul := 0, None, None, Number(0.0), Number(0.0);
      samples, seen, emptied := [], [], false;
    }

    method AddSample(sample: real)
      requires Valid()
      modifies this
      ensures Valid() && emptied == old(emptied)
      ensures samples == old(samples) + [sample] && seen == old(seen) + [sample]
    {
      hide IsMin, IsMax, MinOf, MaxOf, Describes;
      ExtremesOfMore(seen, min, max, [sample], Some(sample), Some(sample));
      max := MaxOf(max, Some(sample));
      min := MinOf(min, Some(sample));
      seen := seen + [sample];
      AddToMean(sample);
    }

    // The second half of AddSample: the update of the size, the mean and the cumulant.
    method AddToMean(sample: real)
      requires Valid()
      modifies `size, `mean, `cumul, `samples
      ensures Valid() && samples == old(samples) + [sample]
    {
      hide IsMin, IsMax, Describes;
      ghost var n, m, c := size, mean, cumul;
      size := size + 1;
      var delta := Number(sample).Minus(mean);
      mean := mean.Plus(delta.Over(size));
      var delta2 := Number(sample).Minus(mean);
      cumul := cumul.Plus(delta.Times(delta2));
      if !emptied {
        AddedDescribes(samples, n, m.value, c.value, sample, mean.value, cumul.value);
      }
      samples := samples + [sample];
    }

    /** Removes one occurrence of a sample that is present, whichever it is; `rest` lists the
        samples that stay. Without samples it does nothing. */
    method RemoveSample(sample: real, ghost rest: seq<real>)
      requires Valid()
      requires size != 0 ==> multiset(samples) == multiset(rest) + multiset{sample}
      modifies this
      ensures Valid() && emptied == (old(emptied) || old(size) == 1)
      ensures samples == if old(size) == 0 then old(samples) else rest
      ensures seen == old(seen)
    {
      hide IsMin, IsMax, Describes;
      if size == 0 {
        return;
      }
      SizeWithout(samples, rest, sample);
      ghost var n, m, c := size, mean, cumul;
      size := size - 1;
      var delta := Number(sample).Minus(mean);
      if !emptied {
        OnlySampleIsMean(samples, n, m.value, c.value, rest, sample);
      }
      mean := mean.Minus(delta.Over(size));
      var delta2 := Number(sample).Minus(mean);
      cumul := cumul.Minus(delta.Times(delta2));
      if !emptied && rest != [] {
        RemovedDescribes(samples, n, m.value, c.value, rest, sample, mean.value, cumul.value);
      }
      samples, emptied := rest, emptied || rest == [];
    }

    /** Merging is adding the samples of the other statistics, which may be this one. */
    method MergeStatistics(other: RunningStatistics)
      requires Valid() && other.Valid()
      modifies this
      ensures Valid()
      ensures samples == old(samples) + old(other.samples)
      ensures seen == if old(other.samples) == [] then old(seen) else old(seen) + old(other.seen)
      ensures emptied == (old(emptied) || (old(other.samples) != [] && old(other.emptied)))
    {
      hide IsMin, IsMax, Describes, MinOf, MaxOf, NewMean, Delta, MergeDelta, MergedMean;
      if other.size == 0 {
        return;
      }
      ExtremesOfMore(seen, min, max, other.seen, other.min, other.max);
      ghost var allSamples, allSeen := samples + other.samples, seen + other.seen;
      max := MaxOf(max, other.max);
      min := MinOf(min, other.min);
      var newSize := size + other.size;
      NewMeanIs(size, mean, other.size, other.mean);
      var newMean := NewMean(size, mean, other.size, other.mean);
      DeltaIs(size, mean, newMean);
      DeltaIs(other.size, other.mean, newMean);
      var newCumul := cumul.Plus(Delta(size, mean, newMean)).Plus(other.cumul)
                      .Plus(Delta(other.size, other.mean, newMean));
      if !emptied && !other.emptied {
        MergedDescribes(samples, size, mean.value, cumul.value,
                        other.samples, other.size, other.mean.value, other.cumul.value,
                        newMean.value, newCumul.value);
      }
      emptied := emptied || other.emptied;
      cumul := newCumul;
      mean := newMean;
      size := newSize;
      samples, seen := allSamples, allSeen;
    }

    /** The mean of the samples, unless the last sample was ever removed: then it is NaN for every
        sample that follows. */
    method GetMean() returns (r: Option<Double>)
      requires Valid()
      ensures r == if samples == [] then None else if emptied then Some(NaN) else Some(Number(Mean(samples)))
    {
      if samples != [] && !emptied {
        DescribesMeans(samples, size, mean.value, cumul.value);
      }
      r := if size == 0 then None else Some(mean);
    }

    method GetVariance() returns (r: Option<Double>)
      requires Valid()
      ensures r == if samples == [] then None else if emptied then Some(NaN)
                   else Some(Number(Deviations(samples, Mean(samples)) / |samples| as real))
    {
      if samples != [] && !emptied {
        DescribesMeans(samples, size, mean.value, cumul.value);
      }
      r := if size == 0 then None else Some(cumul.Over(size));
    }
  }

  /** Once emptied, the statistics are NaN for whatever is added. */
  method EmptiedStaysNaN(first: real, next: real) returns (mean: Option<Double>)
    ensures mean == Some(NaN)
  {
    var statistics := new RunningStatistics();
    statistics.AddSample(first);
    assert multiset([] + [first]) == multiset([]) + multiset{first};
    statistics.RemoveSample(first, []);
    statistics.AddSample(next);
    mean := statistics.GetMean();
  }
}
