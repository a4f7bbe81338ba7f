/** Statistics of a numeric array (util/math/math.go), over float64 idealised to the reals
    with NaN and infinities. */
module Statistics {
  import opened Series

  /** The comparison `<` of float64: never true when an operand is NaN. */
  predicate Less(a: Float, b: Float) {
    match (a, b)
    case (Finite(x), Finite(y)) => x < y
    case (NegInf, Finite(_)) => true
    case (NegInf, PosInf) => true
    case (Finite(_), PosInf) => true
    case _ => false
  }

  function Plus(a: Float, b: Float): Float {
    match (a, b)
    case (NaN, _) => NaN
    case (_, NaN) => NaN
    case (Finite(x), Finite(y)) => Finite(x + y)
    case (Finite(_), _) => b
    case (_, Finite(_)) => a
    case (_, _) => if a == b then a else NaN
  }

  function Negate(a: Float): Float {
    match a
    case Finite(x) => Finite(-x)
    case NaN => NaN
    case PosInf => NegInf
    case NegInf => PosInf
  }

  function Square(a: Float): Float {
    match a
    case Finite(x) => Finite(x * x)
    case NaN => NaN
    case _ => PosInf
  }

  function DividedBy(a: Float, n: nat): Float
    requires n > 0
  {
    if a.Finite? then Finite(a.r / n as real) else a
  }

  /** `math.Sqrt`, given the square root of the non-negative reals. */
  function Root(sqrt: real -> real, a: Float): Float {
    match a
    case Finite(x) => if x < 0.0 then NaN else Finite(sqrt(x))
    case PosInf => PosInf
    case _ => NaN
  }

  /* Specifications: left folds. */

  function MinFold(ns: seq<Float>): Float {
    if ns == [] then NaN
    else
      var m, n := MinFold(ns[..|ns| - 1]), ns[|ns| - 1];
      if m.NaN? || Less(n, m) then n else m
  }

  function MaxFold(ns: seq<Float>): Float {
    if ns == [] then NaN
    else
      var m, n := MaxFold(ns[..|ns| - 1]), ns[|ns| - 1];
      if m.NaN? || Less(m, n) then n else m
  }

  function SumFold(ns: seq<Float>): Float {
    if ns == [] then Finite(0.0) else Plus(SumFold(ns[..|ns| - 1]), ns[|ns| - 1])
  }

  function DeviationFold(ns: seq<Float>, mean: Float): Float {
    if ns == [] then Finite(0.0)
    else Plus(DeviationFold(ns[..|ns| - 1], mean), Square(Plus(ns[|ns| - 1], Negate(mean))))
  }

  function MinOf(ns: seq<Float>): Float { if ns == [] then Finite(0.0) else MinFold(ns) }

  function MaxOf(ns: seq<Float>): Float { if ns == [] then Finite(0.0) else MaxFold(ns) }

  function AvgOf(ns: seq<Float>): Float { if ns == [] then Finite(0.0) else DividedBy(SumFold(ns), |ns|) }

  function StddevOf(sqrt: real -> real, ns: seq<Float>, mean: Float): Float {
    if ns == [] then Finite(0.0) else Root(sqrt, DividedBy(DeviationFold(ns, mean), |ns|))
  }

  /* The loops. */

  method Min(numbers: seq<Float>) returns (m: Float)
    ensures m == MinOf(numbers)
  {
    if |numbers| == 0 { return Finite(0.0); }
    m := NaN;
    for i := 0 to |numbers|
      invariant m == MinFold(numbers[..i])
    {
      assert numbers[..i + 1][..i] == numbers[..i];
      if m.NaN? || Less(numbers[i], m) { m := numbers[i]; }
    }
    assert numbers[..|numbers|] == numbers;
  }

  method Max(numbers: seq<Float>) returns (m: Float)
    ensures m == MaxOf(numbers)
  {
    if |numbers| == 0 { return Finite(0.0); }
    m := NaN;
    for i := 0 to |numbers|
      invariant m == MaxFold(numbers[..i])
    {
      assert numbers[..i + 1][..i] == numbers[..i];
      if m.NaN? || Less(m, numbers[i]) { m := numbers[i]; }
    }
    assert numbers[..|numbers|] == numbers;
  }

  method Sum(numbers: seq<Float>) returns (total: Float)
    ensures total == SumFold(numbers)
  {
    total := Finite(0.0);
    for i := 0 to |numbers|
      invariant total == SumFold(numbers[..i])
    {
      assert numbers[..i + 1][..i] == numbers[..i];
      total := Plus(total, numbers[i]);
    }
    assert numbers[..|numbers|] == numbers;
  }

  method Avg(numbers: seq<Float>) returns (a: Float)
    ensures a == AvgOf(numbers)
  {
    if |numbers| == 0 { return Finite(0.0); }
    var total := Sum(numbers);
    a := DividedBy(total, |numbers|);
  }

  method Stddev(sqrt: real -> real, numbers: seq<Float>, mean: Float) returns (s: Float)
    ensures s == StddevOf(sqrt, numbers, mean)
  {
    if |numbers| == 0 { return Finite(0.0); }
    var total := Finite(0.0);
    for i := 0 to |numbers|
      invariant total == DeviationFold(numbers[..i], mean)
    {
      assert numbers[..i + 1][..i] == numbers[..i];
      total := Plus(total, Square(Plus(numbers[i], Negate(mean))));
    }
    assert numbers[..|numbers|] == numbers;
    s := Root(sqrt, DividedBy(total, |numbers|));
  }

  /* Laws with NaN and infinities. */

  lemma LessTransitive(a: Float, b: Float, c: Float)
    requires Less(a, b) && Less(b, c)
    ensures Less(a, c)
  {}

  lemma LessAsymmetric(a: Float, b: Float)
    requires Less(a, b)
    ensures !Less(b, a) && !a.NaN? && !b.NaN?
  {}

  /** What is not below `m`, and not NaN, is not below what is below `m`. */
  lemma NotBelow(m: Float, x: Float, n: Float)
    requires Less(x, m) && !n.NaN? && !Less(n, m)
    ensures !Less(n, x)
  {
    if Less(n, x) { LessTransitive(n, x, m); }
  }

  lemma NotAbove(m: Float, x: Float, n: Float)
    requires Less(m, x) && !n.NaN? && !Less(m, n)
    ensures !Less(x, n)
  {
    if Less(x, n) { LessTransitive(m, x, n); }
  }

  ghost predicate Least(m: Float, ns: seq<Float>) {
    m in ns && forall n :: n in ns && !n.NaN? ==> !m.NaN? && !Less(n, m)
  }

  ghost predicate Greatest(m: Float, ns: seq<Float>) {
    m in ns && forall n :: n in ns && !n.NaN? ==> !m.NaN? && !Less(m, n)
  }

  lemma InExtended<T>(init: seq<T>, last: T)
    ensures forall x :: x in init + [last] <==> x in init || x == last
  {}

  lemma LeastOfOne(n: Float)
    ensures Least(n, [n]) && Greatest(n, [n])
  {}

  lemma LeastStep(m: Float, init: seq<Float>, last: Float)
    requires Least(m, init)
    ensures Least(if m.NaN? || Less(last, m) then last else m, init + [last])
  {
    InExtended(init, last);
    LeastOfOne(last);
    if Less(last, m) {
      LessAsymmetric(last, m);
      forall n | n in init && !n.NaN? ensures !Less(n, last) { NotBelow(m, last, n); }
    }
  }

  lemma GreatestStep(m: Float, init: seq<Float>, last: Float)
    requires Greatest(m, init)
    ensures Greatest(if m.NaN? || Less(m, last) then last else m, init + [last])
  {
    InExtended(init, last);
    LeastOfOne(last);
    if Less(m, last) {
      LessAsymmetric(m, last);
      forall n | n in init && !n.NaN? ensures !Less(last, n) { NotAbove(m, last, n); }
    }
  }

  lemma {:induction false} MinFoldIsLeast(ns: seq<Float>)
    requires ns != []
    ensures Least(MinFold(ns), ns)
  {
    hide Less, Least;
    var init, last := ns[..|ns| - 1], ns[|ns| - 1];
    assert ns == init + [last];
    if init == [] {
      assert ns == [last] && MinFold(init) == NaN;
      LeastOfOne(last);
    } else {
      MinFoldIsLeast(init);
      LeastStep(MinFold(init), init, last);
    }
  }

  lemma {:induction false} MaxFoldIsGreatest(ns: seq<Float>)
    requires ns != []
    ensures Greatest(MaxFold(ns), ns)
  {
    hide Less, Greatest;
    var init, last := ns[..|ns| - 1], ns[|ns| - 1];
    assert ns == init + [last];
    if init == [] {
      assert ns == [last] && MaxFold(init) == NaN;
      LeastOfOne(last);
    } else {
      MaxFoldIsGreatest(init);
      GreatestStep(MaxFold(init), init, last);
    }
  }

  /** The minimum is the least of the numbers that are not NaN, and NaN only if all are. */
  lemma MinIsLeast(ns: seq<Float>)
    requires ns != []
    ensures MinOf(ns) in ns
    ensures forall n :: n in ns && !n.NaN? ==> !MinOf(ns).NaN? && !Less(n, MinOf(ns))
  {
    hide MinFold;
    MinFoldIsLeast(ns);
  }

  /** The maximum is the greatest of the numbers that are not NaN, and NaN only if all are. */
  lemma MaxIsGreatest(ns: seq<Float>)
    requires ns != []
    ensures MaxOf(ns) in ns
    ensures forall n :: n in ns && !n.NaN? ==> !MaxOf(ns).NaN? && !Less(MaxOf(ns), n)
  {
    hide MaxFold;
    MaxFoldIsGreatest(ns);
  }

  /* Special values. */

  /** Of no numbers, every statistic is zero. */
  lemma NoNumbers(sqrt: real -> real, mean: Float)
    ensures MinOf([]) == MaxOf([]) == AvgOf([]) == StddevOf(sqrt, [], mean) == Finite(0.0)
  {}

  /** A sum with special values, as IEEE 754 has it: NaN makes it NaN, and so do infinities of both signs;
      otherwise an infinity stays, and finite numbers give a finite sum. */
  lemma {:induction false} SumSpecial(ns: seq<Float>)
    ensures SumFold(ns).NaN? <==> NaN in ns || (PosInf in ns && NegInf in ns)
    ensures SumFold(ns).PosInf? <==> PosInf in ns && NegInf !in ns && NaN !in ns
    ensures SumFold(ns).NegInf? <==> NegInf in ns && PosInf !in ns && NaN !in ns
  {
    if ns != [] {
      var init, last := ns[..|ns| - 1], ns[|ns| - 1];
      SumSpecial(init);
      assert ns == init + [last];
      InExtended(init, last);
    }
  }

  /** The average likewise. */
  lemma AvgSpecial(ns: seq<Float>)
    requires ns != []
    ensures AvgOf(ns).NaN? <==> NaN in ns || (PosInf in ns && NegInf in ns)
    ensures AvgOf(ns).PosInf? <==> PosInf in ns && NegInf !in ns && NaN !in ns
    ensures AvgOf(ns).NegInf? <==> NegInf in ns && PosInf !in ns && NaN !in ns
  {
    hide SumFold;
    SumSpecial(ns);
  }

  lemma {:induction false} DeviationNaN(ns: seq<Float>, mean: Float, n: Float)
    requires n in ns && Plus(n, Negate(mean)).NaN?
    ensures DeviationFold(ns, mean).NaN?
  {
    if n in ns[..|ns| - 1] { DeviationNaN(ns[..|ns| - 1], mean, n); }
  }

  /** There is a standard deviation if and only if all numbers are finite. */
  lemma StddevSpecial(sqrt: real -> real, ns: seq<Float>)
    requires ns != []
    ensures StddevOf(sqrt, ns, AvgOf(ns)).NaN? <==> exists n :: n in ns && !n.Finite?
    ensures StddevOf(sqrt, ns, AvgOf(ns)).NaN? || StddevOf(sqrt, ns, AvgOf(ns)).Finite?
  {
    hide AvgOf, DeviationFold;
    AvgSpecial(ns);
    if n :| n in ns && !n.Finite? {
      DeviationNaN(ns, AvgOf(ns), n);
    } else {
      FiniteDeviation(ns, AvgOf(ns));
      Quotient(DeviationFold(ns, AvgOf(ns)).r, |ns|);
    }
  }

  lemma Quotient(d: real, n: nat)
    requires d >= 0.0 && n > 0
    ensures d / n as real >= 0.0
  {}

  lemma {:induction false} FiniteDeviation(ns: seq<Float>, mean: Float)
    requires mean.Finite? && forall n :: n in ns ==> n.Finite?
    ensures DeviationFold(ns, mean).Finite? && DeviationFold(ns, mean).r >= 0.0
  {
    if ns != [] {
      FiniteDeviation(ns[..|ns| - 1], mean);
      var d := ns[|ns| - 1].r - mean.r;
      SquareNonNegative(d);
    }
  }

  lemma SquareNonNegative(d: real)
    ensures d * d >= 0.0
  {}

  /* Laws over the reals. */

  function Floats(xs: seq<real>): (r: seq<Float>)
    ensures |r| == |xs| && forall i :: 0 <= i < |xs| ==> r[i] == Finite(xs[i])
  {
    seq(|xs|, i requires 0 <= i < |xs| => Finite(xs[i]))
  }

  function Total(xs: seq<real>): real {
    if xs == [] then 0.0 else Total(xs[..|xs| - 1]) + xs[|xs| - 1]
  }

  function Times(a: real, b: real): real {
    a * b
  }

  function Sq(d: real): real {
    Times(d, d)
  }

  /** The sum of the squared deviations from `a`. */
  function Deviation(xs: seq<real>, a: real): real {
    if xs == [] then 0.0 else Deviation(xs[..|xs| - 1], a) + Sq(xs[|xs| - 1] - a)
  }

  function Mean(xs: seq<real>): real
    requires xs != []
  {
    Total(xs) / |xs| as real
  }

  lemma {:induction false} FoldsOfReals(xs: seq<real>, a: real)
    ensures SumFold(Floats(xs)) == Finite(Total(xs))
    ensures DeviationFold(Floats(xs), Finite(a)) == Finite(Deviation(xs, a))
  {
    if xs != [] {
      FoldsOfReals(xs[..|xs| - 1], a);
      assert Floats(xs)[..|xs| - 1] == Floats(xs[..|xs| - 1]);
    }
  }

  lemma {:induction false} TotalBetween(xs: seq<real>, lo: real, hi: real)
    requires forall i :: 0 <= i < |xs| ==> lo <= xs[i] <= hi
    ensures lo * |xs| as real <= Total(xs) <= hi * |xs| as real
  {
    if xs != [] {
      TotalBetween(xs[..|xs| - 1], lo, hi);
      var n := (|xs| - 1) as real;
      assert |xs| as real == n + 1.0;
      assert lo * (n + 1.0) == lo * n + lo && hi * (n + 1.0) == hi * n + hi;
    }
  }

  function Gap(x: real, lo: real, hi: real): real {
    (hi - x) * (x - lo)
  }

  function Spread(xs: seq<real>, lo: real, hi: real): real {
    if xs == [] then 0.0 else Spread(xs[..|xs| - 1], lo, hi) + Gap(xs[|xs| - 1], lo, hi)
  }

  lemma GapNonNegative(x: real, lo: real, hi: real)
    requires lo <= x <= hi
    ensures Gap(x, lo, hi) >= 0.0
  {}

  lemma {:induction false} SpreadNonNegative(xs: seq<real>, lo: real, hi: real)
    requires forall i :: 0 <= i < |xs| ==> lo <= xs[i] <= hi
    ensures Spread(xs, lo, hi) >= 0.0
  {
    hide Gap;
    if xs != [] {
      SpreadNonNegative(xs[..|xs| - 1], lo, hi);
      GapNonNegative(xs[|xs| - 1], lo, hi);
    }
  }

  lemma OneTerm(x: real, a: real, lo: real, hi: real)
    ensures Sq(x - a) + Gap(x, lo, hi) == (hi + lo - 2.0 * a) * x + (a * a - hi * lo)
  {}

  lemma {:induction false} DeviationPlusSpread(xs: seq<real>, a: real, lo: real, hi: real)
    ensures Deviation(xs, a) + Spread(xs, lo, hi)
         == (hi + lo - 2.0 * a) * Total(xs) + (a * a - hi * lo) * |xs| as real
  {
    hide Gap, Sq;
    var k, c := hi + lo - 2.0 * a, a * a - hi * lo;
    if xs != [] {
      var init, x := xs[..|xs| - 1], xs[|xs| - 1];
      DeviationPlusSpread(init, a, lo, hi);
      OneTerm(x, a, lo, hi);
      assert |xs| as real == |init| as real + 1.0;
      assert k * (Total(init) + x) == k * Total(init) + k * x;
      assert c * (|init| as real + 1.0) == c * |init| as real + c;
    }
  }

  lemma VarianceAlgebra(d: real, s: real, t: real, n: real, a: real, lo: real, hi: real)
    requires t == n * a && s >= 0.0
    requires d + s == (hi + lo - 2.0 * a) * t + (a * a - hi * lo) * n
    ensures d <= n * Gap(a, lo, hi)
  {
    assert (hi + lo - 2.0 * a) * (n * a) + (a * a - hi * lo) * n == n * ((hi - a) * (a - lo));
  }

  lemma TimesPositive(a: real, b: real)
    requires (a > 0.0 && b > 0.0) || (a < 0.0 && b < 0.0)
    ensures Times(a, b) > 0.0
  {}

  lemma SqPositive(d: real)
    ensures d == 0.0 ==> Sq(d) == 0.0
    ensures d != 0.0 ==> Sq(d) > 0.0
  {
    if d != 0.0 {
      hide Times;
      TimesPositive(d, d);
    }
  }

  lemma {:induction false} DeviationNonNegative(xs: seq<real>, a: real)
    ensures Deviation(xs, a) >= 0.0
    ensures Deviation(xs, a) == 0.0 <==> forall i :: 0 <= i < |xs| ==> xs[i] == a
  {
    hide Sq;
    if xs != [] {
      DeviationNonNegative(xs[..|xs| - 1], a);
      SqPositive(xs[|xs| - 1] - a);
    }
  }

  lemma QuotientBelow(t: real, n: real, h: real)
    requires n > 0.0 && t <= n * h
    ensures t / n <= h
  {}

  lemma QuotientAbove(t: real, n: real, l: real)
    requires n > 0.0 && n * l <= t
    ensures l <= t / n
  {}

  lemma MeanTimesCount(xs: seq<real>)
    requires xs != []
    ensures Total(xs) == |xs| as real * Mean(xs)
  {}

  lemma MeanBetween(xs: seq<real>, lo: real, hi: real)
    requires xs != [] && forall k :: 0 <= k < |xs| ==> lo <= xs[k] <= hi
    ensures lo <= Mean(xs) <= hi
  {
    TotalBetween(xs, lo, hi);
    QuotientBelow(Total(xs), |xs| as real, hi);
    QuotientAbove(Total(xs), |xs| as real, lo);
  }

  function Variance(xs: seq<real>): real
    requires xs != []
  {
    Deviation(xs, Mean(xs)) / |xs| as real
  }

  lemma VarianceBound(xs: seq<real>, lo: real, hi: real)
    requires xs != [] && forall k :: 0 <= k < |xs| ==> lo <= xs[k] <= hi
    ensures 0.0 <= Variance(xs) <= Gap(Mean(xs), lo, hi)
  {
    hide Gap, Mean, Total, Deviation, Spread;
    var a, n := Mean(xs), |xs| as real;
    SpreadNonNegative(xs, lo, hi);
    DeviationPlusSpread(xs, a, lo, hi);
    DeviationNonNegative(xs, a);
    MeanTimesCount(xs);
    VarianceAlgebra(Deviation(xs, a), Spread(xs, lo, hi), Total(xs), n, a, lo, hi);
    QuotientBelow(Deviation(xs, a), n, Gap(a, lo, hi));
    QuotientAbove(Deviation(xs, a), n, 0.0);
  }

  lemma QuotientZero(t: real, n: real)
    requires n > 0.0
    ensures t / n == 0.0 <==> t == 0.0
  {}

  lemma MeanOfEqual(xs: seq<real>)
    requires xs != [] && forall i :: 0 <= i < |xs| ==> xs[i] == xs[0]
    ensures Mean(xs) == xs[0]
  {
    MeanBetween(xs, xs[0], xs[0]);
  }

  lemma VarianceZero(xs: seq<real>)
    requires xs != []
    ensures Variance(xs) == 0.0 <==> forall i :: 0 <= i < |xs| ==> xs[i] == xs[0]
  {
    hide Mean, Deviation;
    DeviationNonNegative(xs, Mean(xs));
    QuotientZero(Deviation(xs, Mean(xs)), |xs| as real);
    if forall i :: 0 <= i < |xs| ==> xs[i] == xs[0] {
      MeanOfEqual(xs);
    }
  }

  lemma StatisticsOfReals(sqrt: real -> real, xs: seq<real>)
    requires xs != [] && Variance(xs) >= 0.0
    ensures AvgOf(Floats(xs)) == Finite(Mean(xs))
    ensures StddevOf(sqrt, Floats(xs), Finite(Mean(xs))) == Finite(sqrt(Variance(xs)))
  {
    hide Total, Deviation;
    FoldsOfReals(xs, Mean(xs));
  }

  lemma ExtremesOfReals(xs: seq<real>) returns (lo: real, hi: real)
    requires xs != []
    ensures MinOf(Floats(xs)) == Finite(lo) && MaxOf(Floats(xs)) == Finite(hi)
    ensures forall k :: 0 <= k < |xs| ==> lo <= xs[k] <= hi
  {
    hide MinOf, MaxOf;
    var ns := Floats(xs);
    MinIsLeast(ns);
    MaxIsGreatest(ns);
    var i :| 0 <= i < |ns| && ns[i] == MinOf(ns);
    var j :| 0 <= j < |ns| && ns[j] == MaxOf(ns);
    lo, hi := xs[i], xs[j];
    forall k | 0 <= k < |xs| ensures lo <= xs[k] <= hi {
      assert ns[k] in ns;
    }
  }

  /** The four statistics of a numeric array: min <= avg <= max; the squared standard deviation
      is the mean squared deviation, at most (max - avg) * (avg - min), and zero exactly when
      all elements are equal. */
  lemma ArrayStatistics(sqrt: real -> real, xs: seq<real>)
    requires xs != []
    requires forall v :: v >= 0.0 ==> sqrt(v) >= 0.0 && sqrt(v) * sqrt(v) == v
    ensures var ns := Floats(xs);
      && MinOf(ns).Finite? && MaxOf(ns).Finite? && AvgOf(ns) == Finite(Mean(xs))
      && MinOf(ns).r <= Mean(xs) <= MaxOf(ns).r
      && var s := StddevOf(sqrt, ns, AvgOf(ns));
      && s.Finite? && s.r >= 0.0
      && s.r * s.r == Variance(xs)
      && s.r * s.r <= (MaxOf(ns).r - Mean(xs)) * (Mean(xs) - MinOf(ns).r)
      && (s.r == 0.0 <==> forall i :: 0 <= i < |xs| ==> xs[i] == xs[0])
  {
    hide MinOf, MaxOf, AvgOf, StddevOf, Mean, Variance;
    var lo, hi := ExtremesOfReals(xs);
    MeanBetween(xs, lo, hi);
    VarianceBound(xs, lo, hi);
    VarianceZero(xs);
    StatisticsOfReals(sqrt, xs);
    var v := Variance(xs);
    assert sqrt(v) == 0.0 ==> v == 0.0;
    SqPositive(sqrt(v));
  }
}
