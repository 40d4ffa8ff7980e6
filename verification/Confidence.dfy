/** netperf's running statistics and the loop that repeats a test until it is confident of the result. */
module Confidence {
  import opened Arithmetic

  // ----- textbook definitions -----

  function Sum(xs: seq<real>): real {
    if xs == [] then 0.0 else Sum(xs[..|xs| - 1]) + xs[|xs| - 1]
  }

  function SumOfSquares(xs: seq<real>): real {
    if xs == [] then 0.0 else SumOfSquares(xs[..|xs| - 1]) + xs[|xs| - 1] * xs[|xs| - 1]
  }

  function Mean(xs: seq<real>): real
    requires xs != []
  {
    Sum(xs) / |xs| as real
  }

  /** The sum of the squared distances from m. */
  function Deviations(xs: seq<real>, m: real): (r: real)
    ensures r >= 0.0
  {
    if xs == [] then 0.0 else Deviations(xs[..|xs| - 1], m) + Square(xs[|xs| - 1] - m)
  }

  function Square(x: real): (r: real)
    ensures r >= 0.0
  {
    x * x
  }

  function Variance(xs: seq<real>): real
    requires xs != []
  {
    Deviations(xs, Mean(xs)) / |xs| as real
  }

  function SampleVariance(xs: seq<real>): real
    requires |xs| >= 2
  {
    Deviations(xs, Mean(xs)) / (|xs| - 1) as real
  }

  /** The squared distances from m, added up from the power sums. */
  function Expanded(squares: real, sum: real, n: real, m: real): real {
    squares - 2.0 * m * sum + n * m * m
  }

  function ExpandedOf(xs: seq<real>, m: real): real {
    Expanded(SumOfSquares(xs), Sum(xs), |xs| as real, m)
  }

  lemma {:induction false} DeviationsExpanded(xs: seq<real>, m: real)
    ensures Deviations(xs, m) == ExpandedOf(xs, m)
  {
    if xs == [] {
    } else {
      DeviationsExpanded(xs[..|xs| - 1], m);
      ExpandedStep(xs, m);
    }
  }

  lemma ExpandedStep(xs: seq<real>, m: real)
    requires xs != []
    ensures ExpandedOf(xs[..|xs| - 1], m) + Square(xs[|xs| - 1] - m) == ExpandedOf(xs, m)
  {
    var front, x := xs[..|xs| - 1], xs[|xs| - 1];
    OneMore(SumOfSquares(front), Sum(front), |front| as real, SumOfSquares(xs), Sum(xs), |xs| as real, m, x);
  }

  lemma OneMore(squares: real, sum: real, n: real, squares': real, sum': real, n': real, m: real, x: real)
    requires squares' == squares + x * x && sum' == sum + x && n' == n + 1.0
    ensures Expanded(squares, sum, n, m) + Square(x - m) == Expanded(squares', sum', n', m)
  {
    assert (x - m) * (x - m) == x * x - 2.0 * m * x + m * m;
    assert 2.0 * m * (sum + x) == 2.0 * m * sum + 2.0 * m * x;
    assert (n + 1.0) * m * m == n * m * m + m * m;
  }

  /** The two ways to compute a variance agree, so the one-pass formula never goes below zero. */
  lemma OnePassVariance(xs: seq<real>)
    requires xs != []
    ensures OnePass(SumOfSquares(xs), |xs| as real, Mean(xs)) == Variance(xs) >= 0.0
  {
    OneFormula(xs, |xs| as real, Mean(xs));
    VarianceNotNegative(xs);
  }

  /** The mean of the squares less the square of the mean. */
  function OnePass(squares: real, n: real, mean: real): real
    requires n != 0.0
  {
    squares / n - mean * mean
  }

  lemma OneFormula(xs: seq<real>, n: real, m: real)
    requires n == |xs| as real > 0.0 && m == Sum(xs) / n
    ensures OnePass(SumOfSquares(xs), n, m) == Deviations(xs, m) / n
  {
    DeviationsExpanded(xs, m);
    Divided(SumOfSquares(xs), Sum(xs), n, m);
  }

  lemma VarianceNotNegative(xs: seq<real>)
    requires xs != []
    ensures Variance(xs) >= 0.0
  {
    QuotientNotNegative(Deviations(xs, Mean(xs)), |xs| as real);
  }

  lemma QuotientNotNegative(x: real, n: real)
    requires x >= 0.0 && n > 0.0
    ensures x / n >= 0.0
  {
  }

  lemma Divided(squares: real, sum: real, n: real, m: real)
    requires n > 0.0 && m == sum / n
    ensures Expanded(squares, sum, n, m) / n == squares / n - m * m
  {
    assert sum == n * m;
    assert squares - 2.0 * m * sum + n * m * m == squares - n * (m * m);
    assert (squares - n * (m * m)) / n == squares / n - m * m;
  }

  /** What is under calculate_confidence's root is the square of the standard error of the mean. */
  lemma StandardErrorSquared(xs: seq<real>)
    requires |xs| >= 2
    ensures Variance(xs) / (|xs| - 1) as real == SampleVariance(xs) / |xs| as real
  {
    TwoDivisions(Deviations(xs, Mean(xs)), |xs| as real, (|xs| - 1) as real);
  }

  lemma TwoDivisions(x: real, a: real, b: real)
    requires a > 0.0 && b > 0.0
    ensures x / a / b == x / b / a
  {
    assert x / a / b * a * b == x;
    assert x / b / a * b * a == x;
  }

  // ----- the running sums -----

  /** The four globals that netperf keeps for each quantity. */
  datatype Series = Series(sum: real, squareSum: real, mean: real, variance: real)

  function Added(s: Series, iterations: nat, x: real): Series
    requires iterations >= 1
  {
    var sum, squareSum := s.sum + x, s.squareSum + x * x;
    var mean := sum / iterations as real;
    Series(sum, squareSum, mean, OnePass(squareSum, iterations as real, mean))
  }

  ghost predicate Describes(s: Series, xs: seq<real>) {
    && s.sum == Sum(xs) && s.squareSum == SumOfSquares(xs)
    && (xs != [] ==> s.mean == Mean(xs) && s.variance == Variance(xs))
  }

  lemma AddedDescribes(s: Series, xs: seq<real>, x: real)
    requires Describes(s, xs)
    ensures Describes(Added(s, |xs| + 1, x), xs + [x])
  {
    assert (xs + [x])[..|xs|] == xs;
    OnePassVariance(xs + [x]);
  }

  // ----- the confidence interval -----

  const T95: seq<real> := [
    12.706, 4.303, 3.182, 2.776, 2.571, 2.447, 2.365, 2.306, 2.262, 2.228, 2.201, 2.179, 2.160, 2.145, 2.131, 2.120,
    2.110, 2.101, 2.093, 2.086, 2.080, 2.074, 2.069, 2.064, 2.060, 2.056, 2.052, 2.048, 2.045, 2.042]

  const T99: seq<real> := [
    63.657, 9.925, 5.841, 4.604, 4.032, 3.707, 3.499, 3.355, 3.250, 3.169, 3.106, 3.055, 3.012, 2.977, 2.947, 2.921,
    2.898, 2.878, 2.861, 2.845, 2.831, 2.819, 2.807, 2.797, 2.787, 2.779, 2.771, 2.763, 2.756, 2.750]

  /** The table lookup; the tables start at one degree of freedom. */
  function Confid(level: int, freedom: nat): (t: real)
    requires 1 <= freedom <= 30
    ensures t >= 0.0 && (level == 95 || level == 99 ==> t >= 2.0)
  {
    assert |T95| == 30 && |T99| == 30;
    if level == 95 then T95[freedom - 1] else if level == 99 then T99[freedom - 1] else 0.0
  }

  /** Both tables end near the quantiles of the normal distribution, and there is none for other levels. */
  lemma TableEnds(level: int)
    ensures Confid(95, 1) == 12.706 && Confid(95, 30) == 2.042
    ensures Confid(99, 1) == 63.657 && Confid(99, 30) == 2.750
    ensures level != 95 && level != 99 ==> Confid(level, 1) == 0.0
  {
  }

  /** `root` stands for sqrt, and `overZero` for what the machine makes of a division by zero. */
  datatype Plan = Plan(iterationMin: int, iterationMax: int, level: int, interval: real,
                       root: real -> real, overZero: real -> real)

  function Over(plan: Plan, x: real, y: real): real {
    if y == 0.0 then plan.overZero(x) else x / y
  }

  /** How far inside the requested interval a quantity is with t from the table; negative when it is not. */
  function Margin(plan: Plan, t: real, iterations: nat, mean: real, variance: real): real
    requires iterations >= 2
  {
    plan.interval - Over(plan, 2.0 * t * plan.root(variance / (iterations - 1) as real), mean)
  }

  ghost predicate IsSquareRoot(root: real -> real) {
    forall x: real :: x >= 0.0 ==> root(x) >= 0.0 && root(x) * root(x) == x
  }

  /** For positive results the margin is not negative exactly when t standard errors to either side of the mean, squared,
      are no more than the requested part of the mean, squared. */
  lemma MarginMeaning(plan: Plan, t: real, xs: seq<real>)
    requires |xs| >= 2 && t >= 0.0 && Mean(xs) > 0.0 && plan.interval >= 0.0 && IsSquareRoot(plan.root)
    ensures Margin(plan, t, |xs|, Mean(xs), Variance(xs)) >= 0.0
            <==> Square(2.0 * t) * (SampleVariance(xs) / |xs| as real) <= Square(plan.interval * Mean(xs))
  {
    OnePassVariance(xs);
    StandardErrorSquared(xs);
    MarginIs(plan, t, |xs|, Mean(xs), Variance(xs), SampleVariance(xs) / |xs| as real);
  }

  lemma MarginIs(plan: Plan, t: real, n: nat, mean: real, variance: real, e: real)
    requires n >= 2 && t >= 0.0 && mean > 0.0 && variance >= 0.0 && e == variance / (n - 1) as real
    requires plan.interval >= 0.0 && IsSquareRoot(plan.root)
    ensures Margin(plan, t, n, mean, variance) >= 0.0
            <==> Square(2.0 * t) * e <= Square(plan.interval * mean)
  {
    QuotientNotNegative(variance, (n - 1) as real);
    MarginSquared(plan.interval, 2.0 * t, e, plan.root(e), mean);
  }

  lemma MarginSquared(interval: real, t: real, e: real, r: real, mean: real)
    requires interval >= 0.0 && t >= 0.0 && r >= 0.0 && r * r == e && mean > 0.0
    ensures interval - t * r / mean >= 0.0 <==> Square(t) * e <= Square(interval * mean)
  {
    assert t * r >= 0.0 && interval * mean >= 0.0;
    AtMost(interval, t * r, mean);
    CompareSquares(t * r, interval * mean);
    SquareOfProduct(t, r, e);
  }

  lemma PositiveProduct(a: real, b: real)
    requires a > 0.0 && b > 0.0
    ensures a * b > 0.0
  {
  }

  lemma Scaled(a: real, b: real, c: real)
    requires c > 0.0
    ensures a <= b <==> a * c <= b * c
  {
    if a > b {
      PositiveProduct(a - b, c);
      assert (a - b) * c == a * c - b * c;
    } else if a < b {
      PositiveProduct(b - a, c);
      assert (b - a) * c == b * c - a * c;
    }
  }

  lemma AtMost(interval: real, x: real, mean: real)
    requires mean > 0.0
    ensures interval - x / mean >= 0.0 <==> x <= interval * mean
  {
    Scaled(x / mean, interval, mean);
    assert x / mean * mean == x;
  }

  lemma CompareSquares(a: real, b: real)
    requires a >= 0.0 && b >= 0.0
    ensures Square(a) <= Square(b) <==> a <= b
  {
    if a > b {
      LargerSquare(a, b);
    } else if a < b {
      LargerSquare(b, a);
    }
  }

  lemma LargerSquare(a: real, b: real)
    requires a > b >= 0.0
    ensures Square(a) > Square(b)
  {
    var u, v := a - b, a + b;
    PositiveProduct(u, v);
    SquaresApart(a, b, u, v);
  }

  lemma SquaresApart(a: real, b: real, u: real, v: real)
    requires u == a - b && v == a + b
    ensures Square(a) == Square(b) + u * v
  {
  }

  lemma SquareOfProduct(t: real, r: real, e: real)
    requires r * r == e
    ensures Square(t * r) == Square(t) * e
  {
    assert (t * r) * (t * r) == (t * t) * (r * r);
  }

  // ----- the loop -----

  /** What one run of the test measures, as far as the confidence depends on it. */
  datatype Sample = Sample(result: real, localCpu: real, remoteCpu: real)

  function Results(history: seq<Sample>): (r: seq<real>)
    ensures |r| == |history| && forall i :: 0 <= i < |r| ==> r[i] == history[i].result
  {
    seq(|history|, i requires 0 <= i < |history| => history[i].result)
  }

  function LocalCpus(history: seq<Sample>): (r: seq<real>)
    ensures |r| == |history| && forall i :: 0 <= i < |r| ==> r[i] == history[i].localCpu
  {
    seq(|history|, i requires 0 <= i < |history| => history[i].localCpu)
  }

  function RemoteCpus(history: seq<Sample>): (r: seq<real>)
    ensures |r| == |history| && forall i :: 0 <= i < |r| ==> r[i] == history[i].remoteCpu
  {
    seq(|history|, i requires 0 <= i < |history| => history[i].remoteCpu)
  }

  function MarginOf(plan: Plan, xs: seq<real>): real
    requires 2 <= |xs| <= 31
  {
    Margin(plan, Confid(plan.level, |xs| - 1), |xs|, Mean(xs), Variance(xs))
  }

  /** The least of the three margins; -10 while there is only one result. */
  function ConfidenceAfter(plan: Plan, history: seq<Sample>): real
    requires |history| <= 31
  {
    if |history| <= 1 then -10.0 else
      Min(Min(MarginOf(plan, Results(history)), MarginOf(plan, LocalCpus(history))),
          MarginOf(plan, RemoteCpus(history)))
  }

  /** From two runs on the confidence is the least of the margins of the three quantities: not more than any of them, and
      one of them. So it is not negative exactly when none of the three is. */
  lemma LeastOfThree(plan: Plan, history: seq<Sample>)
    requires 2 <= |history| <= 31
    ensures var confidence, t, n := ConfidenceAfter(plan, history), Confid(plan.level, |history| - 1), |history|;
            var xs, ys, zs := Results(history), LocalCpus(history), RemoteCpus(history);
            var x, y, z := Margin(plan, t, n, Mean(xs), Variance(xs)), Margin(plan, t, n, Mean(ys), Variance(ys)),
                           Margin(plan, t, n, Mean(zs), Variance(zs));
            && confidence <= x && confidence <= y && confidence <= z
            && (confidence == x || confidence == y || confidence == z)
            && (confidence >= 0.0 <==> x >= 0.0 && y >= 0.0 && z >= 0.0)
  {
  }

  /** The interval of t standard errors to either side fits the requested part of the mean; a negative mean, which stands
      for a quantity that is not measured, always does. */
  ghost predicate Fits(plan: Plan, t: real, xs: seq<real>)
    requires |xs| >= 2
  {
    || Mean(xs) < 0.0
    || Square(2.0 * t) * (SampleVariance(xs) / |xs| as real) <= Square(plan.interval * Mean(xs))
  }

  lemma MarginFits(plan: Plan, t: real, xs: seq<real>)
    requires |xs| >= 2 && t >= 0.0 && Mean(xs) != 0.0 && plan.interval >= 0.0 && IsSquareRoot(plan.root)
    ensures Margin(plan, t, |xs|, Mean(xs), Variance(xs)) >= 0.0 <==> Fits(plan, t, xs)
  {
    if Mean(xs) > 0.0 {
      MarginMeaning(plan, t, xs);
    } else {
      OnePassVariance(xs);
      QuotientNotNegative(Variance(xs), (|xs| - 1) as real);
      NegativeMean(plan.interval, 2.0 * t, plan.root(Variance(xs) / (|xs| - 1) as real), Mean(xs));
    }
  }

  lemma NegativeMean(interval: real, t: real, r: real, mean: real)
    requires interval >= 0.0 && t >= 0.0 && r >= 0.0 && mean < 0.0
    ensures interval - t * r / mean >= 0.0
  {
    assert t * r >= 0.0;
    QuotientNotNegative(t * r, -mean);
    assert t * r / mean == -(t * r / -mean);
  }

  /** netperf is confident exactly when the intervals of all three quantities fit. */
  lemma ConfidentExactly(plan: Plan, history: seq<Sample>)
    requires 2 <= |history| <= 31 && plan.interval >= 0.0 && IsSquareRoot(plan.root)
    requires Mean(Results(history)) != 0.0 && Mean(LocalCpus(history)) != 0.0 && Mean(RemoteCpus(history)) != 0.0
    ensures var t := Confid(plan.level, |history| - 1);
            ConfidenceAfter(plan, history) >= 0.0
            <==> Fits(plan, t, Results(history)) && Fits(plan, t, LocalCpus(history)) && Fits(plan, t, RemoteCpus(history))
  {
    LeastOfThree(plan, history);
    AllFit(plan, Confid(plan.level, |history| - 1), Results(history), LocalCpus(history), RemoteCpus(history));
  }

  lemma AllFit(plan: Plan, t: real, xs: seq<real>, ys: seq<real>, zs: seq<real>)
    requires |xs| == |ys| == |zs| >= 2 && t >= 0.0 && plan.interval >= 0.0 && IsSquareRoot(plan.root)
    requires Mean(xs) != 0.0 && Mean(ys) != 0.0 && Mean(zs) != 0.0
    ensures Margin(plan, t, |xs|, Mean(xs), Variance(xs)) >= 0.0 <==> Fits(plan, t, xs)
    ensures Margin(plan, t, |ys|, Mean(ys), Variance(ys)) >= 0.0 <==> Fits(plan, t, ys)
    ensures Margin(plan, t, |zs|, Mean(zs), Variance(zs)) >= 0.0 <==> Fits(plan, t, zs)
  {
    MarginFits(plan, t, xs);
    MarginFits(plan, t, ys);
    MarginFits(plan, t, zs);
  }

  /** The globals of netperf's statistics. */
  class Statistics {
    var result: Series
    var localCpu: Series
    var remoteCpu: Series
    var confidence: real

    ghost predicate Describe(history: seq<Sample>)
      reads this
    {
      && Describes(result, Results(history))
      && Describes(localCpu, LocalCpus(history))
      && Describes(remoteCpu, RemoteCpus(history))
    }

    method InitStat()
      modifies this
      ensures Describe([]) && confidence == -10.0
    {
      result := Series(0.0, 0.0, 0.0, 0.0);
      localCpu := Series(0.0, 0.0, 0.0, 0.0);
      remoteCpu := Series(0.0, 0.0, 0.0, 0.0);
      confidence := -10.0;
    }

    /** calculate_confidence: whatever the runs so far, the kept mean and variance are those of all of them, and the
        confidence is that of all of them. */
    method CalculateConfidence(plan: Plan, iterations: nat, sample: Sample, ghost history: seq<Sample>)
      requires Describe(history) && iterations == |history| + 1 <= 31
      requires confidence == ConfidenceAfter(plan, history)
      modifies this
      ensures Describe(history + [sample]) && confidence == ConfidenceAfter(plan, history + [sample])
    {
      ColumnsGrow(history, sample);
      AddedDescribes(result, Results(history), sample.result);
      AddedDescribes(localCpu, LocalCpus(history), sample.localCpu);
      AddedDescribes(remoteCpu, RemoteCpus(history), sample.remoteCpu);
      result := Added(result, iterations, sample.result);
      localCpu := Added(localCpu, iterations, sample.localCpu);
      remoteCpu := Added(remoteCpu, iterations, sample.remoteCpu);
      if iterations > 1 {
        var t := Confid(plan.level, iterations - 1);
        var resultConfid := Margin(plan, t, iterations, result.mean, result.variance);
        var localConfid := Margin(plan, t, iterations, localCpu.mean, localCpu.variance);
        var remoteConfid := Margin(plan, t, iterations, remoteCpu.mean, remoteCpu.variance);
        confidence := Min(Min(resultConfid, localConfid), remoteConfid);
      }
    }

    /** The sums, the confidence and the number of runs are those of the loop after these runs. */
    ghost predicate After(plan: Plan, history: seq<Sample>)
      reads this
    {
      |history| <= 30 && Describe(history) && confidence == ConfidenceAfter(plan, history) && ContinuedTo(plan, history)
    }

    /** One turn of the loop. */
    method OneTest(plan: Plan, sample: Sample, ghost history: seq<Sample>, iteration: nat)
      requires After(plan, history) && iteration == |history| + 1 <= 30 && Continues(plan, history)
      modifies this
      ensures After(plan, history + [sample])
    {
      CalculateConfidence(plan, iteration, sample, history);
      OneMoreRun(plan, history, sample);
    }

    /** The loop around every test. `outcomes` is what the runs would measure, however many there are. */
    method RunTests(plan: Plan, outcomes: nat -> Sample) returns (ghost history: seq<Sample>, runs: nat)
      requires plan.iterationMin <= 30 && plan.iterationMax <= 30
      modifies this
      ensures runs == |history| <= 30 && forall k :: 0 <= k < runs ==> history[k] == outcomes(k)
      ensures Describe(history) && confidence == ConfidenceAfter(plan, history)
      ensures ContinuedTo(plan, history) && !Continues(plan, history)
    {
      var iteration := 1;
      InitStat();
      history := [];
      while (confidence < 0.0 && iteration < plan.iterationMax) || iteration <= plan.iterationMin
        invariant After(plan, history) && iteration == |history| + 1 && history == First(outcomes, |history|)
        decreases 31 - iteration
      {
        var sample := outcomes(iteration - 1);
        OneTest(plan, sample, history, iteration);
        history := history + [sample];
        iteration := iteration + 1;
      }
      runs := iteration - 1;
    }
  }

  /** What the first n runs measure. */
  function First(outcomes: nat -> Sample, n: nat): (history: seq<Sample>)
    ensures |history| == n && forall k :: 0 <= k < n ==> history[k] == outcomes(k)
  {
    if n == 0 then [] else First(outcomes, n - 1) + [outcomes(n - 1)]
  }

  lemma ColumnsGrow(history: seq<Sample>, sample: Sample)
    ensures Results(history + [sample]) == Results(history) + [sample.result]
    ensures LocalCpus(history + [sample]) == LocalCpus(history) + [sample.localCpu]
    ensures RemoteCpus(history + [sample]) == RemoteCpus(history) + [sample.remoteCpu]
  {
  }

  /** The guard of the loop, after the runs in `history`. */
  predicate Continues(plan: Plan, history: seq<Sample>)
    requires |history| <= 30
  {
    || (ConfidenceAfter(plan, history) < 0.0 && |history| + 1 < plan.iterationMax)
    || |history| + 1 <= plan.iterationMin
  }

  /** The loop went on until it had all of these runs. */
  ghost predicate ContinuedTo(plan: Plan, history: seq<Sample>)
    requires |history| <= 30
  {
    forall k {:trigger history[..k]} :: 0 <= k < |history| ==> Continues(plan, history[..k])
  }

  lemma OneMoreRun(plan: Plan, history: seq<Sample>, sample: Sample)
    requires |history| < 30 && ContinuedTo(plan, history) && Continues(plan, history)
    ensures ContinuedTo(plan, history + [sample])
  {
    forall k | 0 <= k <= |history| ensures Continues(plan, (history + [sample])[..k]) {
      assert (history + [sample])[..k] == history[..k];
      assert history[..|history|] == history;
    }
  }

  /** How often a test is run: at least the minimum, at most the minimum or one less than the maximum, whichever is more,
      and short of that only with confidence. From the minimum on, the first confident run is the last one. Without
      confidence the promised maximum is made exactly when it is the minimum as well. */
  lemma RunCount(plan: Plan, history: seq<Sample>)
    requires |history| <= 30 && ContinuedTo(plan, history) && !Continues(plan, history)
    ensures plan.iterationMin <= |history| <= Bound(plan)
    ensures forall k {:trigger history[..k]} ::
              0 <= k < |history| && plan.iterationMin <= k ==> ConfidenceAfter(plan, history[..k]) < 0.0
    ensures ConfidenceAfter(plan, history) < 0.0 ==> |history| == Bound(plan)
    ensures ConfidenceAfter(plan, history) < 0.0 && plan.iterationMax >= 1
            ==> (|history| == plan.iterationMax <==> plan.iterationMin == plan.iterationMax)
  {
    if |history| > 0 {
      assert Continues(plan, history[..|history| - 1]);
    }
  }

  function Bound(plan: Plan): nat {
    var most := if plan.iterationMin >= plan.iterationMax then plan.iterationMin else plan.iterationMax - 1;
    if most >= 0 then most else 0
  }

  // ----- a test that is never confident -----

  /** The first run measures 1, all others 0; the processors' use is not measured. */
  function OneSpike(n: nat): (history: seq<Sample>)
    ensures |history| == n
  {
    if n == 0 then [] else OneSpike(n - 1) + [Sample(if n == 1 then 1.0 else 0.0, -1.0, -1.0)]
  }

  lemma {:induction false} SpikeSums(n: nat)
    requires n >= 1
    ensures Sum(Results(OneSpike(n))) == 1.0 && SumOfSquares(Results(OneSpike(n))) == 1.0
  {
    var front := OneSpike(n - 1);
    ColumnsGrow(front, OneSpike(n)[n - 1]);
    assert Results(OneSpike(n))[..n - 1] == Results(front);
    if n > 1 {
      SpikeSums(n - 1);
    } else {
      assert Results(front) == [];
    }
  }

  lemma SpikeMoments(n: nat)
    requires n >= 2
    ensures var xs, k := Results(OneSpike(n)), n as real;
            Mean(xs) == 1.0 / k && SampleVariance(xs) / k == Square(1.0 / k)
  {
    var xs := Results(OneSpike(n));
    SpikeSums(n);
    DeviationsExpanded(xs, Mean(xs));
    SpikeArithmetic(n as real, 1.0 / n as real);
  }

  lemma SpikeArithmetic(k: real, m: real)
    requires k >= 2.0 && m == 1.0 / k
    ensures Expanded(1.0, 1.0, k, m) / (k - 1.0) / k == Square(m)
  {
    assert k * m == 1.0;
    assert Expanded(1.0, 1.0, k, m) == 1.0 - m;
    assert 1.0 - m == (k - 1.0) * m;
    assert (k - 1.0) * m / (k - 1.0) == m;
    assert m / k == m * m;
  }

  lemma NeverInside(t: real, m: real)
    requires t >= 2.0 && m > 0.0
    ensures Square(2.0 * t) * Square(m) > Square(0.05 * m)
  {
    LargerSquare(2.0 * t, 0.05);
    LargerSquare(m, 0.0);
    SquareOfProduct(0.05, m, Square(m));
    Scaled(Square(2.0 * t), Square(0.05), Square(m));
  }

  lemma SpikeUnconfident(plan: Plan, n: nat)
    requires 2 <= n <= 31 && plan.interval == 0.05 && plan.level == 95 && IsSquareRoot(plan.root)
    ensures ConfidenceAfter(plan, OneSpike(n)) < 0.0
  {
    SpikeMargin(plan, Confid(95, n - 1), n);
  }

  lemma SpikeMargin(plan: Plan, t: real, n: nat)
    requires n >= 2 && t >= 2.0 && plan.interval == 0.05 && IsSquareRoot(plan.root)
    ensures var xs := Results(OneSpike(n)); Margin(plan, t, n, Mean(xs), Variance(xs)) < 0.0
  {
    var xs, k := Results(OneSpike(n)), n as real;
    SpikeMoments(n);
    Reciprocal(k);
    MarginMeaning(plan, t, xs);
    NeverInside(t, 1.0 / k);
  }

  lemma Reciprocal(k: real)
    requires k > 0.0
    ensures 1.0 / k > 0.0
  {
  }

  lemma {:induction false} SpikePrefix(n: nat, k: nat)
    requires k <= n
    ensures OneSpike(n)[..k] == OneSpike(k)
  {
    if k < n {
      SpikePrefix(n - 1, k);
    }
  }

  /** With a minimum of 3 and a maximum of 10, and an interval of 5% at the level of 95%, the test stops unconfident after
      9 runs. */
  lemma StopsAtNine(root: real -> real, overZero: real -> real)
    requires IsSquareRoot(root)
    ensures var plan := Plan(3, 10, 95, 0.05, root, overZero);
            && ContinuedTo(plan, OneSpike(9)) && !Continues(plan, OneSpike(9))
            && ConfidenceAfter(plan, OneSpike(9)) < 0.0
  {
    var plan := Plan(3, 10, 95, 0.05, root, overZero);
    forall k | 0 <= k < 9 ensures Continues(plan, OneSpike(9)[..k]) {
      SpikePrefix(9, k);
      if k >= 2 {
        SpikeUnconfident(plan, k);
      }
    }
    SpikeUnconfident(plan, 9);
  }
}
