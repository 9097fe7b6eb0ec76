/**
 The statistics of a benchmark: Welford's one-pass mean and second moment of six measured fields,
 over the real numbers.
 */
module Welford {

  datatype Phase = Phase(time: real, rate: real, period: real)

  datatype Result = Result(init: Phase, run: Phase)

  datatype Field = InitTime | InitRate | InitPeriod | RunTime | RunRate | RunPeriod

  function Get(r: Result, f: Field): real {
    match f
    case InitTime => r.init.time
    case InitRate => r.init.rate
    case InitPeriod => r.init.period
    case RunTime => r.run.time
    case RunRate => r.run.rate
    case RunPeriod => r.run.period
  }

  datatype Statistics = NoStatistics | Statistics(average: Result, moment2: Result)

  /******* What the statistics are to be *******/

  function Sum(rs: seq<Result>, f: Field): real {
    if rs == [] then 0.0 else Sum(rs[..|rs| - 1], f) + Get(rs[|rs| - 1], f)
  }

  // Products are written as functions, which keeps them out of the way of proofs that do not multiply.

  function Square(x: real): real {
    x * x
  }

  function Times(x: real, y: real): real {
    x * y
  }

  /** The squared distances of a field from `m`, added up. */
  function SquaredDeviations(rs: seq<Result>, f: Field, m: real): real {
    if rs == [] then 0.0 else SquaredDeviations(rs[..|rs| - 1], f, m) + Square(Get(rs[|rs| - 1], f) - m)
  }

  /** `m` is the mean of a field and `v` the sum of squared deviations from it. */
  ghost predicate Describes(rs: seq<Result>, f: Field, m: real, v: real) {
    Times(m, |rs| as real) == Sum(rs, f) && v == SquaredDeviations(rs, f, m)
  }

  lemma {:induction false} DeviationsNonNegative(rs: seq<Result>, f: Field, m: real)
    ensures SquaredDeviations(rs, f, m) >= 0.0
  {
    if rs != [] {
      DeviationsNonNegative(rs[..|rs| - 1], f, m);
      SquareNonNegative(Get(rs[|rs| - 1], f) - m);
    }
  }

  lemma SquareNonNegative(x: real)
    ensures Square(x) >= 0.0
  {
  }

  function SumOfSquares(rs: seq<Result>, f: Field): real {
    if rs == [] then 0.0 else SumOfSquares(rs[..|rs| - 1], f) + Square(Get(rs[|rs| - 1], f))
  }

  /** What the deviations of `n` samples from `m` come to, by their sum `s` and the sum `q` of their squares. */
  function BySums(q: real, s: real, n: real, m: real): real {
    q - 2.0 * (m * s) + n * (m * m)
  }

  lemma BySumsOfNothing(m: real)
    ensures BySums(0.0, 0.0, 0.0, m) == 0.0
  {
  }

  lemma BySumsStep(q: real, s: real, n: real, m: real, x: real)
    ensures BySums(q + Square(x), s + x, n + 1.0, m) == BySums(q, s, n, m) + Square(x - m)
  {
  }

  /** Moving the centre away from the mean by `d` adds `n * d * d`. */
  lemma BySumsShift(q: real, s: real, n: real, m: real, c: real)
    requires Times(m, n) == s && n >= 0.0
    ensures BySums(q, s, n, c) == BySums(q, s, n, m) + Times(n, Square(c - m))
    ensures BySums(q, s, n, c) >= BySums(q, s, n, m)
  {
    var mm, mc, cc := m * m, m * c, c * c;
    assert (c - m) * (c - m) == cc - 2.0 * mc + mm;
    Spread(n, cc, mc, mm);
    Swap(m, n, m);
    Swap(m, n, c);
    SquareNonNegative(c - m);
    ProductNonNegative(n, Square(c - m));
  }

  lemma Spread(n: real, x: real, y: real, z: real)
    ensures n * (x - 2.0 * y + z) == n * x - 2.0 * (n * y) + n * z
  {
  }

  lemma Swap(m: real, n: real, c: real)
    ensures c * (m * n) == n * (m * c)
  {
  }

  lemma ProductNonNegative(n: real, y: real)
    requires n >= 0.0 && y >= 0.0
    ensures Times(n, y) >= 0.0
  {
  }

  /** The deviations from any `m`, by the plain sums. */
  lemma {:induction false} DeviationsBySums(rs: seq<Result>, f: Field, m: real)
    ensures SquaredDeviations(rs, f, m) == BySums(SumOfSquares(rs, f), Sum(rs, f), |rs| as real, m)
  {
    if rs == [] {
      BySumsOfNothing(m);
    } else {
      var init, x := rs[..|rs| - 1], Get(rs[|rs| - 1], f);
      DeviationsBySums(init, f, m);
      BySumsStep(SumOfSquares(init, f), Sum(init, f), |init| as real, m, x);
      assert |rs| as real == |init| as real + 1.0;
    }
  }

  /** No other centre has smaller squared deviations than the mean. */
  lemma MeanMinimizesDeviations(rs: seq<Result>, f: Field, m: real, v: real, c: real)
    requires Describes(rs, f, m, v)
    ensures SquaredDeviations(rs, f, c) == v + Times(|rs| as real, Square(c - m))
    ensures SquaredDeviations(rs, f, c) >= v
  {
    DeviationsBySums(rs, f, m);
    DeviationsBySums(rs, f, c);
    BySumsShift(SumOfSquares(rs, f), Sum(rs, f), |rs| as real, m, c);
  }

  lemma BySumsAtMean(q: real, s: real, n: real, m: real)
    requires Times(m, n) == s
    ensures BySums(q, s, n, m) == q - Times(n, Square(m))
  {
  }

  /** The formula Welford's method avoids: the sum of the squares less `n` times the square of the mean. */
  lemma {:induction false} MomentBySquares(rs: seq<Result>, f: Field, m: real, v: real)
    requires Describes(rs, f, m, v)
    ensures v == SumOfSquares(rs, f) - Times(|rs| as real, Square(m))
  {
    DeviationsBySums(rs, f, m);
    BySumsAtMean(SumOfSquares(rs, f), Sum(rs, f), |rs| as real, m);
  }

  /******* One step *******/

  /** The new mean, and the new second moment once the new mean `a` is known. */
  function NextMean(average: real, x: real, count: real): real
    requires count > 0.0
  {
    average + (x - average) / count
  }

  function NextMoment(moment2: real, average: real, x: real, a: real): real {
    moment2 + (x - average) * (x - a)
  }

  /** With `e` the change of the mean, the sample lies `n * e` beyond the new mean. */
  lemma StepAlgebra(n: real, average: real, x: real, a: real, v: real)
    requires n >= 0.0 && a == NextMean(average, x, n + 1.0)
    ensures Times(a, n + 1.0) == Times(average, n) + x
    ensures v + Times(n, Square(a - average)) + Square(x - a) == NextMoment(v, average, x, a)
  {
  }

  lemma NoSamples(average: real, d: real)
    ensures Times(average, 0.0) == 0.0 && Times(0.0, Square(d)) == 0.0
  {
  }

  /** The statistics describe the samples so far; before the first one only the second moment has to be right. */
  ghost predicate SoFar(rs: seq<Result>, f: Field, average: real, moment2: real) {
    if rs == [] then moment2 == 0.0 else Describes(rs, f, average, moment2)
  }

  /** From the first sample on the statistics describe the samples so far, whatever the mean starts from. */
  lemma StepDescribes(rs: seq<Result>, r: Result, f: Field, average: real, moment2: real, a: real, m: real)
    requires SoFar(rs, f, average, moment2)
    requires a == NextMean(average, Get(r, f), |rs| as real + 1.0)
    requires m == NextMoment(moment2, average, Get(r, f), a)
    ensures Describes(rs + [r], f, a, m)
  {
    assert (rs + [r])[..|rs|] == rs;
    assert |rs + [r]| as real == |rs| as real + 1.0;
    StepAlgebra(|rs| as real, average, Get(r, f), a, moment2);
    if rs == [] {
      NoSamples(average, a - average);
    } else {
      MeanMinimizesDeviations(rs, f, average, moment2, a);
    }
  }

  /** The update of one field of the running statistics, which describe the samples `rs` so far. */
  method Accumulate(ghost rs: seq<Result>, run: Result, f: Field, average: real, moment2: real, count: nat)
      returns (a: real, m: real)
    requires count == |rs| + 1 && SoFar(rs, f, average, moment2)
    ensures Describes(rs + [run], f, a, m)
  {
    var deltaPre := Get(run, f) - average;
    a := average + deltaPre / count as real;
    var deltaPost := Get(run, f) - a;
    m := moment2 + deltaPre * deltaPost;
    StepDescribes(rs, run, f, average, moment2, a, m);
  }

  /** The update of all six fields. */
  method AccumulateAll(ghost rs: seq<Result>, run: Result, average: Result, moment2: Result, count: nat)
      returns (a: Result, m: Result)
    requires count == |rs| + 1 && forall f :: SoFar(rs, f, Get(average, f), Get(moment2, f))
    ensures forall f :: Describes(rs + [run], f, Get(a, f), Get(m, f))
  {
    var a1, m1 := Accumulate(rs, run, InitTime, Get(average, InitTime), Get(moment2, InitTime), count);
    var a2, m2 := Accumulate(rs, run, InitRate, Get(average, InitRate), Get(moment2, InitRate), count);
    var a3, m3 := Accumulate(rs, run, InitPeriod, Get(average, InitPeriod), Get(moment2, InitPeriod), count);
    var a4, m4 := Accumulate(rs, run, RunTime, Get(average, RunTime), Get(moment2, RunTime), count);
    var a5, m5 := Accumulate(rs, run, RunRate, Get(average, RunRate), Get(moment2, RunRate), count);
    var a6, m6 := Accumulate(rs, run, RunPeriod, Get(average, RunPeriod), Get(moment2, RunPeriod), count);
    a := Result(Phase(a1, a2, a3), Phase(a4, a5, a6));
    m := Result(Phase(m1, m2, m3), Phase(m4, m5, m6));
    forall f ensures Describes(rs + [run], f, Get(a, f), Get(m, f)) {
      match f
      case InitTime => assert Get(a, f) == a1 && Get(m, f) == m1;
      case InitRate => assert Get(a, f) == a2 && Get(m, f) == m2;
      case InitPeriod => assert Get(a, f) == a3 && Get(m, f) == m3;
      case RunTime => assert Get(a, f) == a4 && Get(m, f) == m4;
      case RunRate => assert Get(a, f) == a5 && Get(m, f) == m5;
      case RunPeriod => assert Get(a, f) == a6 && Get(m, f) == m6;
    }
  }

  /******* The whole log *******/

  /**
   With fewer than two results nothing is logged.  Otherwise each field of the average is the mean of
   the results, and each field of the second moment the sum of squared deviations from it.
   */
  method Log(results: seq<Result>) returns (s: Statistics)
    ensures s.NoStatistics? <==> |results| < 2
    ensures s.Statistics? ==> forall f :: Describes(results, f, Get(s.average, f), Get(s.moment2, f))
    ensures s.Statistics? ==> forall f :: Get(s.moment2, f) / |results| as real >= 0.0
  {
    if |results| < 2 {
      return NoStatistics;
    }
    var average, moment2 := results[0], Result(Phase(0.0, 0.0, 0.0), Phase(0.0, 0.0, 0.0));
    var n := 0;
    while n < |results|
      invariant n <= |results|
      invariant forall f :: SoFar(results[..n], f, Get(average, f), Get(moment2, f))
    {
      var run, count := results[n], n + 1;
      average, moment2 := AccumulateAll(results[..n], run, average, moment2, count);
      assert results[..n + 1] == results[..n] + [run];
      n := n + 1;
    }
    assert results[..n] == results;
    forall f ensures Get(moment2, f) / |results| as real >= 0.0 {
      DeviationsNonNegative(results, f, Get(average, f));
    }
    s := Statistics(average, moment2);
  }
}
