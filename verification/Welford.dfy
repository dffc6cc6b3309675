/** The statistics of bench-scheduler.cc over the reals: Welford's one-pass loop computes the mean
    and the population variance that two passes would. */
module Welford {

  datatype Phase = Phase(time: real, rate: real, period: real)
  datatype Result = Result(init: Phase, run: Phase)

  /** The six columns the loop accumulates. */
  datatype Field = InitTime | InitRate | InitPeriod | RunTime | RunRate | RunPeriod

  function Get(r: Result, f: Field): real {
    match f
    case InitTime => r.init.time
    case InitRate => r.init.rate
    case InitPeriod => r.init.period
    case RunTime => r.run.time
    case RunRate => r.run.rate
    case RunPeriod => r.run.period
  }

  // ---------- The two-pass definitions ----------

  function Sum(rs: seq<Result>, f: Field): real {
    if rs == [] then 0.0 else Sum(rs[..|rs| - 1], f) + Get(rs[|rs| - 1], f)
  }

  function Square(x: real): (s: real)
    ensures s >= 0.0
  {
    x * x
  }

  function SquaredDeviations(rs: seq<Result>, f: Field, mean: real): (s: real)
    ensures s >= 0.0
  {
    if rs == [] then 0.0 else SquaredDeviations(rs[..|rs| - 1], f, mean) + Square(Get(rs[|rs| - 1], f) - mean)
  }

  /** The columns are all there is to a result, in this order. */
  lemma ColumnsAreAll(r: Result)
    ensures r == Result(Phase(Get(r, InitTime), Get(r, InitRate), Get(r, InitPeriod)),
                        Phase(Get(r, RunTime), Get(r, RunRate), Get(r, RunPeriod)))
  {
  }

  /** Sums and squared deviations are those of single results, added up however a list is cut. */
  lemma {:induction false} SumsAddUp(a: seq<Result>, b: seq<Result>, f: Field, mean: real)
    ensures Sum(a + b, f) == Sum(a, f) + Sum(b, f)
    ensures SquaredDeviations(a + b, f, mean) == SquaredDeviations(a, f, mean) + SquaredDeviations(b, f, mean)
  {
    hide Square;
    if b == [] {
      assert a + b == a;
    } else {
      SumsAddUp(a, b[..|b| - 1], f, mean);
      assert (a + b)[..|a + b| - 1] == a + b[..|b| - 1];
    }
  }

  lemma SumOfOne(r: Result, f: Field, mean: real)
    ensures Sum([r], f) == Get(r, f)
    ensures SquaredDeviations([r], f, mean) == (Get(r, f) - mean) * (Get(r, f) - mean)
  {
    assert [r][..0] == [];
  }

  ghost predicate IsMean(rs: seq<Result>, f: Field, mean: real) {
    mean * |rs| as real == Sum(rs, f)
  }

  // ---------- One step of the loop ----------

  /** ACCUMULATE for one column: the new average and second moment. */
  function Accumulate(x: real, average: real, moment2: real, count: nat): (real, real)
    requires count > 0
  {
    var deltaPre := x - average;
    var average' := average + deltaPre / count as real;
    var deltaPost := x - average';
    (average', moment2 + deltaPre * deltaPost)
  }

  // Products are kept behind these names, so that the proofs below are linear in them.

  function Times(a: real, b: real): real {
    a * b
  }

  lemma TimesAdd(a: real, b: real, c: real)
    ensures Times(a + b, c) == Times(a, c) + Times(b, c) && Times(a, b) == Times(b, a)
    ensures Times(1.0, a) == a && Times(0.0, a) == 0.0 && Times(-a, b) == -Times(a, b)
  {
  }

  lemma TimesAssociates(a: real, b: real, c: real)
    ensures Times(Times(a, b), c) == Times(a, Times(b, c))
  {
    assert (a * b) * c == a * (b * c);
  }

  /** The plain deviations from m, which add up to zero when m is the mean. */
  function Deviations(rs: seq<Result>, f: Field, m: real): real {
    if rs == [] then 0.0 else Deviations(rs[..|rs| - 1], f, m) + (Get(rs[|rs| - 1], f) - m)
  }

  lemma {:induction false} DeviationsAre(rs: seq<Result>, f: Field, m: real)
    ensures Deviations(rs, f, m) == Sum(rs, f) - Times(|rs| as real, m)
  {
    if rs != [] {
      DeviationsAre(rs[..|rs| - 1], f, m);
      TimesAdd(|rs| as real - 1.0, 1.0, m);
      TimesAdd(m, 0.0, 0.0);
      hide Times;
    } else {
      TimesAdd(m, 0.0, 0.0);
    }
  }

  lemma SquareMove(x: real, m: real, d: real)
    ensures Square(x - (m + d)) == Square(x - m) - 2.0 * Times(x - m, d) + Square(d)
  {
    var u := x - m;
    assert (u - d) * (u - d) == u * u - 2.0 * (u * d) + d * d;
  }

  /** Moving the centre by d. */
  lemma {:induction false} CentreMoves(rs: seq<Result>, f: Field, m: real, d: real)
    ensures SquaredDeviations(rs, f, m + d)
         == SquaredDeviations(rs, f, m) - 2.0 * Times(Deviations(rs, f, m), d) + Times(|rs| as real, Square(d))
  {
    TimesAdd(0.0, 0.0, d);
    TimesAdd(Square(d), 0.0, 0.0);
    if rs != [] {
      var init, x := rs[..|rs| - 1], Get(rs[|rs| - 1], f);
      CentreMoves(init, f, m, d);
      SquareMove(x, m, d);
      TimesAdd(Deviations(init, f, m), x - m, d);
      TimesAdd(|init| as real, 1.0, Square(d));
      hide Times, Square;
    }
  }

  /** What the new second moment has to be, with e the move of the average and n the old count. */
  lemma StepAlgebra(n: real, e: real, delta: real)
    requires delta == Times(n + 1.0, e)
    ensures Times(n, Square(e)) + Square(delta - e) == Times(delta, delta - e)
  {
    var p := Times(n, e);
    TimesAdd(n, 1.0, e);
    assert delta == p + e;
    TimesAdd(p, e, p);
    TimesAssociates(n, e, e);
    TimesAdd(e, p, 0.0);
    assert Square(e) == Times(e, e) && Square(p) == Times(p, p);
    TimesAdd(p, e, 0.0);
    hide Times, Square;
  }

  /** One step keeps average and second moment right; for the first one it does not matter what
      the average started from. */
  lemma AccumulateIsRight(rs: seq<Result>, r: Result, f: Field, average: real, moment2: real)
    requires IsMean(rs, f, average) && moment2 == SquaredDeviations(rs, f, average)
    ensures IsMean(rs + [r], f, Accumulate(Get(r, f), average, moment2, |rs| + 1).0)
    ensures Accumulate(Get(r, f), average, moment2, |rs| + 1).1
         == SquaredDeviations(rs + [r], f, Accumulate(Get(r, f), average, moment2, |rs| + 1).0)
  {
    var x, n := Get(r, f), |rs| as real;
    var delta := x - average;
    assert (|rs| + 1) as real == n + 1.0;
    var e := AccumulateIs(x, average, moment2, |rs| + 1);
    hide Accumulate, Times, Square;
    assert (rs + [r])[..|rs|] == rs;
    MeanMoves(rs, f, average, e, delta);
    CentreMoves(rs, f, average, e);
    DeviationsAre(rs, f, average);
    TimesAdd(0.0, 0.0, e);
    StepAlgebra(n, e, delta);
    MeanIs(rs + [r], f, average + e);
  }

  lemma MeanIs(rs: seq<Result>, f: Field, mean: real)
    ensures IsMean(rs, f, mean) <==> Times(|rs| as real, mean) == Sum(rs, f)
  {
    TimesAdd(mean, |rs| as real, 0.0);
  }

  lemma AccumulateIs(x: real, average: real, moment2: real, count: nat) returns (e: real)
    requires count > 0
    ensures x - average == Times(count as real, e)
    ensures Accumulate(x, average, moment2, count) == (average + e, moment2 + Times(x - average, x - average - e))
  {
    e := (x - average) / count as real;
    var d := x - average - e;
    var step := Accumulate(x, average, moment2, count);
    assert step.0 == average + e && x - step.0 == d;
    assert step.1 == moment2 + (x - average) * (x - step.0);
    assert (x - average) * (x - step.0) == Times(x - average, d);
  }

  /** Adding delta / (n + 1) to the mean of n values makes it the mean of these and one more. */
  lemma MeanMoves(rs: seq<Result>, f: Field, average: real, e: real, delta: real)
    requires IsMean(rs, f, average)
    requires delta == Times(|rs| as real + 1.0, e)
    ensures Times(|rs| as real, average) == Sum(rs, f)
    ensures Times(|rs| as real + 1.0, average + e) == Sum(rs, f) + average + delta
  {
    var n := |rs| as real;
    TimesAdd(n, 1.0, average);
    TimesAdd(average, e, n + 1.0);
    TimesAdd(n + 1.0, average, 0.0);
    TimesAdd(n + 1.0, average + e, 0.0);
    TimesAdd(n + 1.0, e, 0.0);
    TimesAdd(n, average, 0.0);
    assert IsMean(rs, f, average) <==> Times(average, n) == Sum(rs, f);
    TimesAdd(average, n, 0.0);
    hide Times;
  }

  // ---------- The loop ----------

  ghost predicate Right(rs: seq<Result>, average: Result, moment2: Result) {
    forall f: Field :: IsMean(rs, f, Get(average, f)) &&
      Get(moment2, f) == SquaredDeviations(rs, f, Get(average, f))
  }

  /** All six columns take the step, one after the other. */
  method AccumulateAll(ghost rs: seq<Result>, run: Result, average: Result, moment2: Result, count: nat)
    returns (average': Result, moment2': Result)
    requires count == |rs| + 1 && Right(rs, average, moment2)
    ensures Right(rs + [run], average', moment2')
  {
    var (a1, m1) := Accumulate(run.init.time, average.init.time, moment2.init.time, count);
    var (a2, m2) := Accumulate(run.init.rate, average.init.rate, moment2.init.rate, count);
    var (a3, m3) := Accumulate(run.init.period, average.init.period, moment2.init.period, count);
    var (a4, m4) := Accumulate(run.run.time, average.run.time, moment2.run.time, count);
    var (a5, m5) := Accumulate(run.run.rate, average.run.rate, moment2.run.rate, count);
    var (a6, m6) := Accumulate(run.run.period, average.run.period, moment2.run.period, count);
    average' := Result(Phase(a1, a2, a3), Phase(a4, a5, a6));
    moment2' := Result(Phase(m1, m2, m3), Phase(m4, m5, m6));
    forall f: Field
      ensures IsMean(rs + [run], f, Get(average', f))
      ensures Get(moment2', f) == SquaredDeviations(rs + [run], f, Get(average', f))
    {
      hide Accumulate, IsMean, SquaredDeviations;
      AccumulateIsRight(rs, run, f, Get(average, f), Get(moment2, f));
    }
  }

  /** The population variance about a mean. */
  function Variance(rs: seq<Result>, f: Field, mean: real): (v: real)
    requires rs != []
    ensures v >= 0.0 && v * |rs| as real == SquaredDeviations(rs, f, mean)
  {
    Quotient(SquaredDeviations(rs, f, mean), |rs| as real);
    SquaredDeviations(rs, f, mean) / |rs| as real
  }

  datatype Summary = TooFew | Summary(average: Result, deviation: Result)

  /** The same function applied to all six columns divided by n. */
  function Rooted(r: Result, n: real, sqrt: real -> real): Result
    requires n != 0.0
  {
    Result(Phase(sqrt(r.init.time / n), sqrt(r.init.rate / n), sqrt(r.init.period / n)),
           Phase(sqrt(r.run.time / n), sqrt(r.run.rate / n), sqrt(r.run.period / n)))
  }

  /** The averages and standard deviations of at least two results; the root is a parameter, and is
      only taken of population variances, which are not negative. */
  method Log(results: seq<Result>, sqrt: real -> real) returns (s: Summary)
    ensures |results| < 2 <==> s.TooFew?
    ensures s.Summary? ==> forall f: Field ::
              && IsMean(results, f, Get(s.average, f))
              && Get(s.deviation, f) == sqrt(Variance(results, f, Get(s.average, f)))
  {
    hide Rooted;
    if |results| < 2 {
      return TooFew;
    }
    var average := results[0];
    var zero := Phase(0.0, 0.0, 0.0);
    var moment2 := Result(zero, zero);
    var n := 0;
    EmptyIsRight(average, moment2);
    assert results[..0] == [];
    hide Right;
    while n < |results|
      invariant n <= |results| && Right(results[..n], average, moment2)
    {
      average, moment2 := AccumulateAll(results[..n], results[n], average, moment2, n + 1);
      assert results[..n + 1] == results[..n] + [results[n]];
      n := n + 1;
    }
    assert results[..n] == results;
    s := Summary(average, Rooted(moment2, n as real, sqrt));
    RootedVariance(results, average, moment2, sqrt);
  }

  lemma EmptyIsRight(average: Result, moment2: Result)
    requires forall f: Field :: Get(moment2, f) == 0.0
    ensures Right([], average, moment2)
  {
  }

  lemma RootedVariance(rs: seq<Result>, average: Result, moment2: Result, sqrt: real -> real)
    requires Right(rs, average, moment2) && rs != []
    ensures forall f: Field ::
              && IsMean(rs, f, Get(average, f))
              && Get(Rooted(moment2, |rs| as real, sqrt), f) == sqrt(Variance(rs, f, Get(average, f)))
  {
    hide IsMean, SquaredDeviations, Get, Rooted;
    forall f: Field
      ensures IsMean(rs, f, Get(average, f))
      ensures Get(Rooted(moment2, |rs| as real, sqrt), f) == sqrt(Variance(rs, f, Get(average, f)))
    {
      GetRooted(moment2, |rs| as real, sqrt, f);
    }
  }

  lemma GetRooted(r: Result, n: real, sqrt: real -> real, f: Field)
    requires n != 0.0
    ensures Get(Rooted(r, n, sqrt), f) == sqrt(Get(r, f) / n)
  {
  }

  lemma Quotient(x: real, n: real)
    requires x >= 0.0 && n > 0.0
    ensures (x / n) * n == x && x / n >= 0.0
  {
  }
}
