/** The numeric column operations the two handlers use, over exact reals:
    pandas' `cumsum`, `rolling(w).mean()`, `rolling(w).std()`,
    `ewm(span, adjust=False).mean()`, `max` and `min`. */
module Rolling {
  import opened Series

  /** The total of a column, accumulated from the front. */
  function Sum(xs: seq<real>): real {
    if |xs| == 0 then 0.0 else Sum(xs[..|xs| - 1]) + xs[|xs| - 1]
  }

  /** The `w` values ending at position `i`. */
  function Window(xs: seq<real>, i: int, w: nat): seq<real>
    requires w <= i + 1 <= |xs|
  {
    xs[i + 1 - w..i + 1]
  }

  /** Element-wise product of two aligned columns (turnover = price x volume). */
  function Products(ps: seq<real>, vs: seq<real>): (r: seq<real>)
    requires |ps| == |vs|
    ensures |r| == |ps|
    ensures forall i :: 0 <= i < |r| ==> r[i] == ps[i] * vs[i]
  {
    seq(|ps|, i requires 0 <= i < |ps| => ps[i] * vs[i])
  }

  /** `cumsum()`: entry `i` is the total of the first `i + 1` values. */
  function CumSum(xs: seq<real>): (r: seq<real>)
    ensures |r| == |xs|
    ensures forall i :: 0 <= i < |xs| ==> r[i] == Sum(xs[..i + 1])
  {
    seq(|xs|, i requires 0 <= i < |xs| => Sum(xs[..i + 1]))
  }

  /** `rolling(window=w).mean()` with pandas' default `min_periods = w`: the
      mean of the last `w` values, undefined until `w` values have been seen. */
  function RollingMean(xs: seq<real>, w: nat): (r: seq<Option<real>>)
    requires w > 0
    ensures |r| == |xs|
    ensures forall i :: 0 <= i < |xs| ==> (r[i].Some? <==> i >= w - 1)
    ensures forall i :: w - 1 <= i < |xs| ==> r[i] == Some(Sum(Window(xs, i, w)) / w as real)
  {
    seq(|xs|, i requires 0 <= i < |xs| =>
      if i + 1 < w then None else Some(Sum(Window(xs, i, w)) / w as real))
  }

  /** The sum of squared deviations of `ws` from `m`. */
  function SquaredDeviations(ws: seq<real>, m: real): real {
    if |ws| == 0 then 0.0
    else SquaredDeviations(ws[..|ws| - 1], m) + (ws[|ws| - 1] - m) * (ws[|ws| - 1] - m)
  }

  /** The sample variance (`ddof=1`) of at least two values. */
  function SampleVariance(ws: seq<real>): real
    requires |ws| >= 2
  {
    SquaredDeviations(ws, Sum(ws) / |ws| as real) / (|ws| - 1) as real
  }

  /** `rolling(window=w).std()`: the square root of the sample variance of the
      last `w` values. The square root is numpy's and is passed in. */
  function RollingStd(xs: seq<real>, w: nat, sqrt: real -> real): (r: seq<Option<real>>)
    requires w >= 2
    ensures |r| == |xs|
    ensures forall i :: 0 <= i < |xs| ==> (r[i].Some? <==> i >= w - 1)
    ensures forall i :: w - 1 <= i < |xs| ==> r[i] == Some(sqrt(SampleVariance(Window(xs, i, w))))
  {
    seq(|xs|, i requires 0 <= i < |xs| =>
      if i + 1 < w then None else Some(sqrt(SampleVariance(Window(xs, i, w)))))
  }

  /** What the model needs of the square root: it is never negative, and the
      root of 0 is 0. */
  ghost predicate RootLike(sqrt: real -> real) {
    && (forall v :: 0.0 <= v ==> 0.0 <= sqrt(v))
    && sqrt(0.0) == 0.0
  }

  /** The smoothing factor of `ewm(span=...)`. */
  function Alpha(span: nat): (a: real)
    requires span >= 1
    ensures 0.0 < a <= 1.0
  {
    2.0 / (span as real + 1.0)
  }

  /** `ewm(alpha, adjust=False).mean()`: seeded with the first value, then each
      entry moves the previous one a fraction `alpha` towards the new value. */
  function Ema(xs: seq<real>, alpha: real): (r: seq<real>)
    ensures |r| == |xs|
    ensures |xs| > 0 ==> r[0] == xs[0]
    ensures forall t {:trigger xs[t]} :: 0 < t < |xs| ==> r[t] == alpha * xs[t] + (1.0 - alpha) * r[t - 1]
  {
    if |xs| <= 1 then xs
    else
      var prev := Ema(xs[..|xs| - 1], alpha);
      prev + [alpha * xs[|xs| - 1] + (1.0 - alpha) * prev[|prev| - 1]]
  }

  /** One float division `w / s` as pandas sees it: a zero divisor over the
      zero numerator that accompanies it gives NaN. The quotient is stated by
      what defines it: times the divisor it gives back the dividend. */
  function Ratio(w: real, s: real): (q: Option<real>)
    ensures q.Some? <==> s != 0.0
    ensures q.Some? ==> q.value * s == w
  {
    if s == 0.0 then None else Some(w / s)
  }

  /** `max()` of a non-empty column. */
  function MaxOf(xs: seq<real>): (m: real)
    requires |xs| > 0
    ensures m in xs
    ensures forall i :: 0 <= i < |xs| ==> xs[i] <= m
  {
    if |xs| == 1 then xs[0]
    else
      var m := MaxOf(xs[..|xs| - 1]);
      assert forall i :: 0 <= i < |xs| - 1 ==> xs[i] == xs[..|xs| - 1][i];
      if xs[|xs| - 1] > m then xs[|xs| - 1] else m
  }

  /** `min()` of a non-empty column. */
  function MinOf(xs: seq<real>): (m: real)
    requires |xs| > 0
    ensures m in xs
    ensures forall i :: 0 <= i < |xs| ==> m <= xs[i]
  {
    if |xs| == 1 then xs[0]
    else
      var m := MinOf(xs[..|xs| - 1]);
      assert forall i :: 0 <= i < |xs| - 1 ==> xs[i] == xs[..|xs| - 1][i];
      if xs[|xs| - 1] < m then xs[|xs| - 1] else m
  }

  // ---------------------------------------------------------------------
  // Properties of sums

  lemma {:induction false} SumConstant(xs: seq<real>, c: real)
    requires forall i :: 0 <= i < |xs| ==> xs[i] == c
    ensures Sum(xs) == |xs| as real * c
  {
    if |xs| > 0 {
      SumConstant(xs[..|xs| - 1], c);
    }
  }

  lemma {:induction false} SumBounds(xs: seq<real>, lo: real, hi: real)
    requires forall i :: 0 <= i < |xs| ==> lo <= xs[i] <= hi
    ensures |xs| as real * lo <= Sum(xs) <= |xs| as real * hi
  {
    if |xs| > 0 {
      SumBounds(xs[..|xs| - 1], lo, hi);
    }
  }

  /** Multiplying every value by `k` multiplies the total by `k`. */
  lemma {:induction false} SumScaled(xs: seq<real>, ys: seq<real>, k: real)
    requires |ys| == |xs|
    requires forall i :: 0 <= i < |xs| ==> ys[i] == k * xs[i]
    ensures Sum(ys) == k * Sum(xs)
  {
    if |xs| > 0 {
      SumScaled(xs[..|xs| - 1], ys[..|ys| - 1], k);
    }
  }

  /** A mean weighted by non-negative weights of non-zero total lies between
      the smallest and the largest value. */
  lemma WeightedMeanBounds(ps: seq<real>, vs: seq<real>, lo: real, hi: real, s: real, w: real)
    requires |ps| == |vs|
    requires forall i :: 0 <= i < |ps| ==> lo <= ps[i] <= hi && 0.0 <= vs[i]
    requires s == Sum(vs) && w == Sum(Products(ps, vs)) && s != 0.0
    ensures lo <= Ratio(w, s).value <= hi
  {
    var m := Ratio(w, s).value;
    SumNonnegative(vs);
    WeightedMeanAtLeast(ps, vs, lo, m, s, w);
    WeightedMeanAtMost(ps, vs, hi, m, s, w);
  }

  lemma WeightedMeanAtLeast(ps: seq<real>, vs: seq<real>, lo: real, m: real, s: real, w: real)
    requires |ps| == |vs|
    requires forall i :: 0 <= i < |ps| ==> lo <= ps[i] && 0.0 <= vs[i]
    requires s == Sum(vs) && w == Sum(Products(ps, vs))
    requires 0.0 < s && m * s == w
    ensures lo <= m
  {
    var los := seq(|ps|, i => lo);
    WeightedSumMonotone(los, ps, vs);
    WeightedSumConstant(los, vs, lo);
    FactorAtMost(lo, m, s, Sum(Products(los, vs)), w);
  }

  lemma WeightedMeanAtMost(ps: seq<real>, vs: seq<real>, hi: real, m: real, s: real, w: real)
    requires |ps| == |vs|
    requires forall i :: 0 <= i < |ps| ==> ps[i] <= hi && 0.0 <= vs[i]
    requires s == Sum(vs) && w == Sum(Products(ps, vs))
    requires 0.0 < s && m * s == w
    ensures m <= hi
  {
    var his := seq(|ps|, i => hi);
    WeightedSumMonotone(ps, his, vs);
    WeightedSumConstant(his, vs, hi);
    FactorAtMost(m, hi, s, w, Sum(Products(his, vs)));
  }

  /** Dividing `a * s <= b * s` by a positive `s`. */
  lemma FactorAtMost(a: real, b: real, s: real, x: real, y: real)
    requires 0.0 < s && x == a * s && y == b * s && x <= y
    ensures a <= b
  {
  }

  /** With positive weights, values at most `hi` and one of them below it
      give a weighted total below `hi` times the total weight. */
  lemma WeightedSumBelow(ps: seq<real>, vs: seq<real>, hi: real, j: nat)
    requires |ps| == |vs| && j < |ps|
    requires forall k :: 0 <= k < |ps| ==> ps[k] <= hi
    requires forall k :: 0 <= k < |vs| ==> 0.0 < vs[k]
    requires ps[j] < hi
    ensures Sum(Products(ps, vs)) < hi * Sum(vs)
  {
    var top := seq(|ps|, k => hi);
    WeightedSumStrictlyMonotone(ps, top, vs, j);
    WeightedSumConstant(top, vs, hi);
  }

  /** The strict form of `WeightedSumMonotone`, for positive weights. */
  lemma WeightedSumStrictlyMonotone(ps: seq<real>, qs: seq<real>, vs: seq<real>, j: nat)
    requires |ps| == |qs| == |vs| && j < |ps|
    requires forall k :: 0 <= k < |ps| ==> ps[k] <= qs[k]
    requires forall k :: 0 <= k < |vs| ==> 0.0 < vs[k]
    requires ps[j] < qs[j]
    ensures Sum(Products(ps, vs)) < Sum(Products(qs, vs))
  {
    var low, high := Products(ps, vs), Products(qs, vs);
    forall k | 0 <= k < |ps| ensures low[k] <= high[k] {
      ScaledAtMost(ps[k], qs[k], vs[k], low[k], high[k]);
    }
    ScaledBelow(ps[j], qs[j], vs[j], low[j], high[j]);
    SumStrictlyBelow(low, high, j);
  }

  lemma ScaledAtMost(a: real, b: real, v: real, x: real, y: real)
    requires a <= b && 0.0 <= v && x == a * v && y == b * v
    ensures x <= y
  {
  }

  lemma ScaledBelow(a: real, b: real, v: real, x: real, y: real)
    requires a < b && 0.0 < v && x == a * v && y == b * v
    ensures x < y
  {
  }

  /** Dividing `a * s < b * s` by a positive `s`. */
  lemma FactorBelow(a: real, b: real, s: real, x: real, y: real)
    requires 0.0 < s && x == a * s && y == b * s && x < y
    ensures a < b
  {
  }

  lemma WeightedSumMonotone(ps: seq<real>, qs: seq<real>, vs: seq<real>)
    requires |ps| == |qs| == |vs|
    requires forall i :: 0 <= i < |ps| ==> ps[i] <= qs[i] && 0.0 <= vs[i]
    ensures Sum(Products(ps, vs)) <= Sum(Products(qs, vs))
  {
    WeightedPrefixMonotone(ps, qs, vs, |ps|);
    assert ps[..|ps|] == ps && qs[..|qs|] == qs && vs[..|vs|] == vs;
  }

  /** Induction on the prefix length, so that the hypothesis on whole sequences is never re-instantiated on slices. */
  lemma {:induction false} WeightedPrefixMonotone(ps: seq<real>, qs: seq<real>, vs: seq<real>, n: nat)
    requires |ps| == |qs| == |vs| && n <= |ps|
    requires forall i :: 0 <= i < |ps| ==> ps[i] <= qs[i] && 0.0 <= vs[i]
    ensures Sum(Products(ps[..n], vs[..n])) <= Sum(Products(qs[..n], vs[..n]))
  {
    if n > 0 {
      WeightedPrefixMonotone(ps, qs, vs, n - 1);
      PrefixStepLe(ps, qs, vs, n);
    }
  }

  lemma PrefixStepLe(ps: seq<real>, qs: seq<real>, vs: seq<real>, n: nat)
    requires |ps| == |qs| == |vs| && 0 < n <= |ps|
    requires Sum(Products(ps[..n - 1], vs[..n - 1])) <= Sum(Products(qs[..n - 1], vs[..n - 1]))
    requires ps[n - 1] <= qs[n - 1] && 0.0 <= vs[n - 1]
    ensures Sum(Products(ps[..n], vs[..n])) <= Sum(Products(qs[..n], vs[..n]))
  {
    SumProductsPrefixStep(ps, vs, n);
    SumProductsPrefixStep(qs, vs, n);
    var a, b := Sum(Products(ps[..n - 1], vs[..n - 1])), Sum(Products(qs[..n - 1], vs[..n - 1]));
    var s, t := Sum(Products(ps[..n], vs[..n])), Sum(Products(qs[..n], vs[..n]));
    StepLe(a, b, ps[n - 1], qs[n - 1], vs[n - 1], s, t);
  }

  lemma SumProductsPrefixStep(ps: seq<real>, vs: seq<real>, n: nat)
    requires |ps| == |vs| && 0 < n <= |ps|
    ensures Sum(Products(ps[..n], vs[..n])) == Sum(Products(ps[..n - 1], vs[..n - 1])) + ps[n - 1] * vs[n - 1]
  {
    SumProductsSnoc(ps[..n], vs[..n]);
    assert ps[..n][..n - 1] == ps[..n - 1] && vs[..n][..n - 1] == vs[..n - 1];
  }

  lemma SumProductsSnoc(ps: seq<real>, vs: seq<real>)
    requires |ps| == |vs| > 0
    ensures Sum(Products(ps, vs)) ==
      Sum(Products(ps[..|ps| - 1], vs[..|vs| - 1])) + ps[|ps| - 1] * vs[|vs| - 1]
  {
    ProductsPrefix(ps, vs, |ps| - 1);
  }

  lemma StepLe(a: real, b: real, p: real, q: real, v: real, s: real, t: real)
    requires a <= b && p <= q && 0.0 <= v && s == a + p * v && t == b + q * v
    ensures s <= t
  {
    MulMonotone(p, p, q, v);
  }

  lemma Sandwich(lo: real, hi: real, alpha: real, beta: real, x: real, e: real)
    requires 0.0 <= alpha && 0.0 <= beta && lo <= x <= hi && lo <= e <= hi
    ensures lo * alpha + lo * beta <= alpha * x + beta * e <= hi * alpha + hi * beta
  {
    MulMonotone(lo, x, hi, alpha);
    MulMonotone(lo, e, hi, beta);
  }

  lemma Distributes(c: real, alpha: real, beta: real)
    ensures c * alpha + c * beta == c * (alpha + beta)
  {
  }

  lemma Convex(lo: real, hi: real, alpha: real, x: real, e: real, r: real)
    requires 0.0 <= alpha <= 1.0
    requires lo <= x <= hi && lo <= e <= hi
    requires r == alpha * x + (1.0 - alpha) * e
    ensures lo <= r <= hi
  {
    Sandwich(lo, hi, alpha, 1.0 - alpha, x, e);
    Distributes(lo, alpha, 1.0 - alpha);
    Distributes(hi, alpha, 1.0 - alpha);
  }

  lemma ProductsPrefix(ps: seq<real>, vs: seq<real>, n: nat)
    requires |ps| == |vs| && n <= |ps|
    ensures Products(ps, vs)[..n] == Products(ps[..n], vs[..n])
  {
    var a, b := Products(ps, vs)[..n], Products(ps[..n], vs[..n]);
    assert |a| == |b|;
    forall i | 0 <= i < n ensures a[i] == b[i] {
      assert a[i] == ps[i] * vs[i];
    }
  }

  lemma MulNonnegative(a: real, b: real)
    requires 0.0 <= a && 0.0 <= b
    ensures 0.0 <= a * b
  {
  }

  lemma SquareNonnegative(d: real)
    ensures 0.0 <= d * d
  {
    if d < 0.0 {
      MulNonnegative(-d, -d);
      assert d * d == (-d) * (-d);
    } else {
      MulNonnegative(d, d);
    }
  }

  /** Dividing a scaled total by `n` scales the mean. */
  lemma ScaledMean(k: real, s: real, t: real, n: real)
    requires n != 0.0 && t == k * s
    ensures t / n == k * (s / n)
  {
  }

  lemma MulMonotone(lo: real, p: real, hi: real, v: real)
    requires lo <= p <= hi && 0.0 <= v
    ensures lo * v <= p * v <= hi * v
  {
  }

  /** With a constant price the weighted total is that price times the total weight. */
  lemma {:induction false} WeightedSumConstant(ps: seq<real>, vs: seq<real>, c: real)
    requires |ps| == |vs|
    requires forall i :: 0 <= i < |ps| ==> ps[i] == c
    ensures Sum(Products(ps, vs)) == c * Sum(vs)
  {
    if |ps| > 0 {
      var n := |ps| - 1;
      WeightedSumConstant(ps[..n], vs[..n], c);
      SumProductsSnoc(ps, vs);
      assert Sum(vs) == Sum(vs[..n]) + vs[n];
      Distributes(c, Sum(vs[..n]), vs[n]);
    }
  }

  /** `WeightedSumConstant` with the two totals named. */
  lemma WeightedTotalConstant(ps: seq<real>, vs: seq<real>, c: real, s: real, w: real)
    requires |ps| == |vs|
    requires forall i :: 0 <= i < |ps| ==> ps[i] == c
    requires s == Sum(vs) && w == Sum(Products(ps, vs))
    ensures w == c * s
  {
    WeightedSumConstant(ps, vs, c);
  }

  /** `cumsum()` is a running total: it starts at the first value and each
      entry is the previous entry plus the current value. */
  lemma CumSumRecurrence(xs: seq<real>)
    ensures |xs| > 0 ==> CumSum(xs)[0] == xs[0]
    ensures forall i :: 0 < i < |xs| ==> CumSum(xs)[i] == CumSum(xs)[i - 1] + xs[i]
  {
    if |xs| > 0 {
      PrefixSumStep(xs, 1);
      assert xs[..0] == [];
    }
    forall i | 0 < i < |xs| ensures CumSum(xs)[i] == CumSum(xs)[i - 1] + xs[i] {
      PrefixSumStep(xs, i + 1);
    }
  }

  /** Scaling every value scales every running total. */
  lemma CumSumScaled(xs: seq<real>, ys: seq<real>, k: real)
    requires |ys| == |xs|
    requires forall i :: 0 <= i < |xs| ==> ys[i] == k * xs[i]
    ensures forall i :: 0 <= i < |xs| ==> CumSum(ys)[i] == k * CumSum(xs)[i]
  {
    forall i | 0 <= i < |xs| ensures CumSum(ys)[i] == k * CumSum(xs)[i] {
      PrefixSumScaled(xs, ys, k, i + 1);
      ScaledAlias(k, Sum(xs[..i + 1]), Sum(ys[..i + 1]), CumSum(xs)[i], CumSum(ys)[i]);
    }
  }

  lemma ScaledAlias(k: real, a: real, b: real, c: real, d: real)
    requires b == k * a && c == a && d == b
    ensures d == k * c
  {
  }

  lemma {:induction false} PrefixSumScaled(xs: seq<real>, ys: seq<real>, k: real, n: nat)
    requires |ys| == |xs| && n <= |xs|
    requires forall i :: 0 <= i < |xs| ==> ys[i] == k * xs[i]
    ensures Sum(ys[..n]) == k * Sum(xs[..n])
  {
    if n > 0 {
      PrefixSumScaled(xs, ys, k, n - 1);
      PrefixSumStep(xs, n);
      PrefixSumStep(ys, n);
      ScaledStep(k, Sum(xs[..n - 1]), Sum(ys[..n - 1]), xs[n - 1], ys[n - 1], Sum(xs[..n]), Sum(ys[..n]));
    }
  }

  lemma PrefixSumStep(xs: seq<real>, n: nat)
    requires 0 < n <= |xs|
    ensures Sum(xs[..n]) == Sum(xs[..n - 1]) + xs[n - 1]
  {
    assert xs[..n][..n - 1] == xs[..n - 1];
  }

  lemma ScaledStep(k: real, a: real, b: real, x: real, y: real, s: real, t: real)
    requires b == k * a && y == k * x && s == a + x && t == b + y
    ensures t == k * s
  {
  }

  /** A quotient whose dividend is `t` times its divisor is `t`. */
  lemma RatioOfMultiple(t: real, s: real, w: real)
    requires w == t * s
    ensures Ratio(w, s).Some? ==> Ratio(w, s).value == t
  {
  }

  /** Scaling the dividend by `k` scales the quotient by `k`. */
  lemma RatioScaled(k: real, w: real, s: real, x: real)
    requires x == k * w
    ensures Ratio(x, s).Some? == Ratio(w, s).Some?
    ensures Ratio(w, s).Some? ==> Ratio(x, s).value == k * Ratio(w, s).value
  {
  }

  lemma {:induction false} SumNonnegative(xs: seq<real>)
    requires forall i :: 0 <= i < |xs| ==> 0.0 <= xs[i]
    ensures 0.0 <= Sum(xs)
  {
    if |xs| > 0 {
      SumNonnegative(xs[..|xs| - 1]);
    }
  }

  lemma {:induction false} SumPositive(xs: seq<real>)
    requires |xs| > 0
    requires forall i :: 0 <= i < |xs| ==> 0.0 < xs[i]
    ensures 0.0 < Sum(xs)
  {
    if |xs| > 1 {
      SumPositive(xs[..|xs| - 1]);
    }
  }

  /** Totals respect an element-wise order. */
  lemma {:induction false} SumMonotone(xs: seq<real>, ys: seq<real>)
    requires |xs| == |ys|
    requires forall i :: 0 <= i < |xs| ==> xs[i] <= ys[i]
    ensures Sum(xs) <= Sum(ys)
  {
    if |xs| > 0 {
      SumMonotone(xs[..|xs| - 1], ys[..|ys| - 1]);
    }
  }

  /** An element-wise order that is strict somewhere gives a strict order of
      the totals. */
  lemma {:induction false} SumStrictlyBelow(xs: seq<real>, ys: seq<real>, j: nat)
    requires |xs| == |ys| && j < |xs|
    requires forall i :: 0 <= i < |xs| ==> xs[i] <= ys[i]
    requires xs[j] < ys[j]
    ensures Sum(xs) < Sum(ys)
  {
    var n := |xs| - 1;
    if j == n {
      SumMonotone(xs[..n], ys[..n]);
    } else {
      assert xs[..n][j] == xs[j] && ys[..n][j] == ys[j];
      SumStrictlyBelow(xs[..n], ys[..n], j);
    }
  }

  /** The total of a concatenation is the sum of the totals. */
  lemma {:induction false} SumConcat(xs: seq<real>, ys: seq<real>)
    ensures Sum(xs + ys) == Sum(xs) + Sum(ys)
  {
    if |ys| > 0 {
      var n := |ys| - 1;
      SumConcat(xs, ys[..n]);
      assert (xs + ys)[..|xs + ys| - 1] == xs + ys[..n];
    } else {
      assert xs + ys == xs;
    }
  }

  /** On a strictly rising column every earlier value is below every later one. */
  lemma {:induction false} RisingBelow(xs: seq<real>, j: nat, i: nat)
    requires forall k :: 0 < k < |xs| ==> xs[k - 1] < xs[k]
    requires j < i < |xs|
    ensures xs[j] < xs[i]
  {
    if j < i - 1 {
      RisingBelow(xs, j, i - 1);
    }
  }

  /** On a strictly rising column the values before position `b` total less
      than as many copies of the value at `b`. */
  lemma RisingSumBelow(xs: seq<real>, a: nat, b: nat)
    requires forall k :: 0 < k < |xs| ==> xs[k - 1] < xs[k]
    requires a < b < |xs|
    ensures Sum(xs[a..b]) < (b - a) as real * xs[b]
  {
    var ws, top := xs[a..b], seq(b - a, k => xs[b]);
    forall k | 0 <= k < b - a ensures ws[k] < top[k] {
      RisingBelow(xs, a + k, b);
    }
    SumStrictlyBelow(ws, top, 0);
    SumConstant(top, xs[b]);
  }

  /** On a strictly rising column the values from position `a` on total at
      least as many copies of the value at `a`. */
  lemma RisingSumAtLeast(xs: seq<real>, a: nat, b: nat)
    requires forall k :: 0 < k < |xs| ==> xs[k - 1] < xs[k]
    requires a < b <= |xs|
    ensures (b - a) as real * xs[a] <= Sum(xs[a..b])
  {
    var ws, bottom := xs[a..b], seq(b - a, k => xs[a]);
    forall k | 0 <= k < b - a ensures bottom[k] <= ws[k] {
      if k > 0 {
        RisingBelow(xs, a, a + k);
      }
    }
    SumMonotone(bottom, ws);
    SumConstant(bottom, xs[a]);
  }

  /** Non-negative values with one positive among them have a positive total. */
  lemma {:induction false} SumWithPositiveTerm(xs: seq<real>, j: nat)
    requires j < |xs|
    requires forall i :: 0 <= i < |xs| ==> 0.0 <= xs[i]
    requires 0.0 < xs[j]
    ensures 0.0 < Sum(xs)
  {
    var init := xs[..|xs| - 1];
    if j == |xs| - 1 {
      SumNonnegative(init);
    } else {
      assert init[j] == xs[j];
      SumWithPositiveTerm(init, j);
    }
  }

  // ---------------------------------------------------------------------
  // Properties of the rolling mean

  /** On a constant column every defined rolling mean is that constant. */
  lemma RollingMeanConstant(xs: seq<real>, w: nat, c: real)
    requires w > 0
    requires forall i :: 0 <= i < |xs| ==> xs[i] == c
    ensures forall i :: w - 1 <= i < |xs| ==> RollingMean(xs, w)[i] == Some(c)
  {
    forall i | w - 1 <= i < |xs| ensures RollingMean(xs, w)[i] == Some(c) {
      var ws := Window(xs, i, w);
      SumConstant(ws, c);
      DivBounds(Sum(ws), w as real, c, c);
    }
  }

  /** Each defined rolling mean lies between the bounds of the values. */
  lemma RollingMeanBounds(xs: seq<real>, w: nat, lo: real, hi: real)
    requires w > 0
    requires forall i :: 0 <= i < |xs| ==> lo <= xs[i] <= hi
    ensures forall i :: w - 1 <= i < |xs| ==>
      lo <= RollingMean(xs, w)[i].value <= hi
  {
    forall i | w - 1 <= i < |xs| ensures lo <= RollingMean(xs, w)[i].value <= hi {
      var ws := Window(xs, i, w);
      SumBounds(ws, lo, hi);
      DivBounds(Sum(ws), w as real, lo, hi);
    }
  }

  lemma DivNonnegative(s: real, n: real)
    requires 0.0 <= s && 0.0 < n
    ensures 0.0 <= s / n
  {
  }

  lemma DivPositive(s: real, n: real)
    requires 0.0 < s && 0.0 < n
    ensures 0.0 < s / n
  {
  }

  lemma DivBelow(s: real, n: real, h: real)
    requires 0.0 < n && s < n * h
    ensures s / n < h
  {
  }

  lemma DivBounds(s: real, n: real, lo: real, hi: real)
    requires 0.0 < n && n * lo <= s <= n * hi
    ensures lo <= s / n <= hi
  {
  }

  /** Scaling a column by `k` scales every defined rolling mean by `k`. */
  lemma RollingMeanScaled(xs: seq<real>, ys: seq<real>, w: nat, k: real)
    requires w > 0 && |ys| == |xs|
    requires forall i :: 0 <= i < |xs| ==> ys[i] == k * xs[i]
    ensures forall i :: w - 1 <= i < |xs| ==>
      RollingMean(ys, w)[i].value == k * RollingMean(xs, w)[i].value
  {
    forall i | w - 1 <= i < |xs|
      ensures RollingMean(ys, w)[i].value == k * RollingMean(xs, w)[i].value
    {
      WindowMeanScaled(xs, ys, i, w, k);
    }
  }

  lemma WindowMeanScaled(xs: seq<real>, ys: seq<real>, i: int, w: nat, k: real)
    requires 0 < w <= i + 1 <= |xs| == |ys|
    requires forall j :: 0 <= j < |xs| ==> ys[j] == k * xs[j]
    ensures Sum(Window(ys, i, w)) / w as real == k * (Sum(Window(xs, i, w)) / w as real)
  {
    var xw, yw := Window(xs, i, w), Window(ys, i, w);
    forall j | 0 <= j < w ensures yw[j] == k * xw[j] {
      assert yw[j] == ys[i + 1 - w + j] && xw[j] == xs[i + 1 - w + j];
    }
    SumScaled(xw, yw, k);
    ScaledMean(k, Sum(xw), Sum(yw), w as real);
  }

  // ---------------------------------------------------------------------
  // Properties of the sample variance and standard deviation

  lemma {:induction false} SquaredDeviationsNonnegative(ws: seq<real>, m: real)
    ensures 0.0 <= SquaredDeviations(ws, m)
  {
    if |ws| > 0 {
      SquaredDeviationsNonnegative(ws[..|ws| - 1], m);
      SquareNonnegative(ws[|ws| - 1] - m);
    }
  }

  lemma {:induction false} SquaredDeviationsAtConstant(ws: seq<real>, c: real)
    requires forall i :: 0 <= i < |ws| ==> ws[i] == c
    ensures SquaredDeviations(ws, c) == 0.0
  {
    if |ws| > 0 {
      SquaredDeviationsAtConstant(ws[..|ws| - 1], c);
    }
  }

  /** The sample variance is never negative. */
  lemma SampleVarianceNonnegative(ws: seq<real>)
    requires |ws| >= 2
    ensures 0.0 <= SampleVariance(ws)
  {
    SquaredDeviationsNonnegative(ws, Sum(ws) / |ws| as real);
  }

  /** A constant window has variance 0. */
  lemma SampleVarianceConstant(ws: seq<real>, c: real)
    requires |ws| >= 2
    requires forall i :: 0 <= i < |ws| ==> ws[i] == c
    ensures SampleVariance(ws) == 0.0
  {
    SumConstant(ws, c);
    assert Sum(ws) / |ws| as real == c;
    SquaredDeviationsAtConstant(ws, c);
  }

  /** Every defined rolling standard deviation is non-negative. */
  lemma RollingStdNonnegative(xs: seq<real>, w: nat, sqrt: real -> real)
    requires w >= 2 && RootLike(sqrt)
    ensures forall i :: w - 1 <= i < |xs| ==> 0.0 <= RollingStd(xs, w, sqrt)[i].value
  {
    forall i | w - 1 <= i < |xs| ensures 0.0 <= RollingStd(xs, w, sqrt)[i].value {
      SampleVarianceNonnegative(Window(xs, i, w));
    }
  }

  /** On a constant column every defined rolling standard deviation is 0. */
  lemma RollingStdConstant(xs: seq<real>, w: nat, sqrt: real -> real, c: real)
    requires w >= 2 && RootLike(sqrt)
    requires forall i :: 0 <= i < |xs| ==> xs[i] == c
    ensures forall i :: w - 1 <= i < |xs| ==> RollingStd(xs, w, sqrt)[i] == Some(0.0)
  {
    forall i | w - 1 <= i < |xs| ensures RollingStd(xs, w, sqrt)[i] == Some(0.0) {
      SampleVarianceConstant(Window(xs, i, w), c);
    }
  }

  // ---------------------------------------------------------------------
  // Properties of the exponential moving average

  /** The EMA of a constant column is that constant everywhere. */
  lemma EmaConstant(xs: seq<real>, alpha: real, c: real)
    requires forall i :: 0 <= i < |xs| ==> xs[i] == c
    ensures forall t :: 0 <= t < |xs| ==> Ema(xs, alpha)[t] == c
  {
    var r := Ema(xs, alpha);
    forall t | 0 <= t < |xs| ensures r[t] == c {
      EmaConstantAt(xs, alpha, c, t);
    }
  }

  lemma {:induction false} EmaConstantAt(xs: seq<real>, alpha: real, c: real, t: nat)
    requires forall i :: 0 <= i < |xs| ==> xs[i] == c
    requires t < |xs|
    ensures Ema(xs, alpha)[t] == c
  {
    if t > 0 {
      EmaConstantAt(xs, alpha, c, t - 1);
      var r := Ema(xs, alpha);
      BlendOfEqual(alpha, xs[t], r[t - 1], c, r[t]);
    }
  }

  lemma BlendOfEqual(alpha: real, x: real, e: real, c: real, r: real)
    requires x == c && e == c && r == alpha * x + (1.0 - alpha) * e
    ensures r == c
  {
  }

  /** With a smoothing factor in [0, 1] every EMA value is a convex combination
      of the values seen so far, so it stays within their bounds. */
  lemma {:induction false} EmaWithinBounds(xs: seq<real>, alpha: real, lo: real, hi: real, t: nat)
    requires 0.0 <= alpha <= 1.0
    requires t < |xs|
    requires forall i :: 0 <= i <= t ==> lo <= xs[i] <= hi
    ensures lo <= Ema(xs, alpha)[t] <= hi
  {
    if t > 0 {
      EmaWithinBounds(xs, alpha, lo, hi, t - 1);
      var r := Ema(xs, alpha);
      Convex(lo, hi, alpha, xs[t], r[t - 1], r[t]);
    }
  }

  /** `r` moves `e` a fraction `alpha` towards `x`: one step of the EMA. */
  predicate IsBlend(r: real, alpha: real, x: real, e: real) {
    r == alpha * x + (1.0 - alpha) * e
  }

  lemma EmaStep(xs: seq<real>, alpha: real, t: nat)
    requires 0 < t < |xs|
    ensures IsBlend(Ema(xs, alpha)[t], alpha, xs[t], Ema(xs, alpha)[t - 1])
  {
  }
}
