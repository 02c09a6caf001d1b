/** The per-bar columns both handlers read and the running VWAP they both
    derive: `Typical_Price`, `Cumulative_TPV`, `Cumulative_Volume`, `VWAP`. */
module Columns {
  import opened Series
  import opened Rolling

  /** The windows of the `30d_MA` and `90d_MA` columns, in bars. */
  const ShortWindow: nat := 30
  const LongWindow: nat := 90

  function Closes(bs: seq<Bar>): (r: seq<real>)
    ensures |r| == |bs|
    ensures forall i :: 0 <= i < |bs| ==> r[i] == bs[i].close
  {
    seq(|bs|, i requires 0 <= i < |bs| => bs[i].close)
  }

  function Volumes(bs: seq<Bar>): (r: seq<real>)
    ensures |r| == |bs|
    ensures forall i :: 0 <= i < |bs| ==> r[i] == bs[i].volume
  {
    seq(|bs|, i requires 0 <= i < |bs| => bs[i].volume)
  }

  /** `(High + Low + Close) / 3`. */
  function TypicalPrice(b: Bar): real {
    (b.high + b.low + b.close) / 3.0
  }

  function TypicalPrices(bs: seq<Bar>): (r: seq<real>)
    ensures |r| == |bs|
    ensures forall i :: 0 <= i < |bs| ==> r[i] == TypicalPrice(bs[i])
  {
    seq(|bs|, i requires 0 <= i < |bs| => TypicalPrice(bs[i]))
  }

  /** Turnover per bar: typical price times volume. */
  function Turnover(bs: seq<Bar>): (r: seq<real>)
    ensures |r| == |bs|
    ensures forall i :: 0 <= i < |bs| ==> r[i] == TypicalPrice(bs[i]) * bs[i].volume
  {
    Products(TypicalPrices(bs), Volumes(bs))
  }

  /** The volume-weighted average price since the first bar of the series:
      cumulative turnover over cumulative volume. Where the cumulative volume
      is 0 (no volume traded yet) the quotient is 0/0, pandas' NaN. The
      contract states the quotient by what defines it: the VWAP times the
      cumulative volume is the cumulative turnover. */
  function Vwap(bs: seq<Bar>): (r: seq<Option<real>>)
    ensures |r| == |bs|
    ensures forall i :: 0 <= i < |bs| ==> r[i] == Ratio(CumSum(Turnover(bs))[i], CumSum(Volumes(bs))[i])
  {
    Quotients(CumSum(Turnover(bs)), CumSum(Volumes(bs)))
  }

  /** Element-wise division of two aligned columns. */
  function Quotients(ws: seq<real>, ss: seq<real>): (r: seq<Option<real>>)
    requires |ws| == |ss|
    ensures |r| == |ws|
    ensures forall i :: 0 <= i < |ws| ==> r[i] == Ratio(ws[i], ss[i])
  {
    seq(|ws|, i requires 0 <= i < |ws| => Ratio(ws[i], ss[i]))
  }

  /** The cumulative columns at bar `i` are the totals over the first `i + 1` bars. */
  lemma CumulativeColumns(bs: seq<Bar>, i: nat)
    requires i < |bs|
    ensures CumSum(Volumes(bs))[i] == Sum(Volumes(bs)[..i + 1])
    ensures CumSum(Turnover(bs))[i] == Sum(Products(TypicalPrices(bs)[..i + 1], Volumes(bs)[..i + 1]))
  {
    ProductsPrefix(TypicalPrices(bs), Volumes(bs), i + 1);
  }

  // ---------------------------------------------------------------------
  // Properties of the VWAP

  /** With positive volumes the VWAP is defined on every bar. */
  lemma VwapDefined(bs: seq<Bar>)
    requires forall i :: 0 <= i < |bs| ==> 0.0 < bs[i].volume
    ensures forall i :: 0 <= i < |bs| ==> Vwap(bs)[i].Some?
  {
    var vs := Volumes(bs);
    forall i | 0 <= i < |bs| ensures Vwap(bs)[i].Some? {
      SumPositive(vs[..i + 1]);
    }
  }

  /** With a constant typical price `t` every defined VWAP is `t`. */
  lemma VwapConstant(bs: seq<Bar>, t: real)
    requires forall i :: 0 <= i < |bs| ==> TypicalPrice(bs[i]) == t
    ensures forall i :: 0 <= i < |bs| && Vwap(bs)[i].Some? ==> Vwap(bs)[i].value == t
  {
    forall i | 0 <= i < |bs| && Vwap(bs)[i].Some? ensures Vwap(bs)[i].value == t {
      VwapConstantAt(bs, t, i);
    }
  }

  lemma VwapConstantAt(bs: seq<Bar>, t: real, i: nat)
    requires forall i :: 0 <= i < |bs| ==> TypicalPrice(bs[i]) == t
    requires i < |bs|
    ensures Vwap(bs)[i].Some? ==> Vwap(bs)[i].value == t
  {
    var s, w := CumSum(Volumes(bs))[i], CumSum(Turnover(bs))[i];
    CumulativeColumns(bs, i);
    WeightedTotalConstant(TypicalPrices(bs)[..i + 1], Volumes(bs)[..i + 1], t, s, w);
    RatioOfMultiple(t, s, w);
  }

  /** With non-negative volumes every defined VWAP lies between the smallest and
      the largest typical price seen so far. */
  lemma VwapBetweenExtremes(bs: seq<Bar>, i: nat)
    requires forall j :: 0 <= j < |bs| ==> 0.0 <= bs[j].volume
    requires i < |bs| && Vwap(bs)[i].Some?
    ensures MinOf(TypicalPrices(bs)[..i + 1]) <= Vwap(bs)[i].value <= MaxOf(TypicalPrices(bs)[..i + 1])
  {
    var tp, vs := TypicalPrices(bs)[..i + 1], Volumes(bs)[..i + 1];
    CumulativeColumns(bs, i);
    WeightedMeanBounds(tp, vs, MinOf(tp), MaxOf(tp), CumSum(Volumes(bs))[i], CumSum(Turnover(bs))[i]);
  }

  /** With positive volumes and a strictly rising typical price the VWAP
      trails the typical price from the second bar on: it averages the
      current price with lower earlier ones. */
  lemma RisingVwapBelowTypical(bs: seq<Bar>, i: nat)
    requires 0 < i < |bs|
    requires forall j :: 0 < j < |bs| ==> TypicalPrice(bs[j - 1]) < TypicalPrice(bs[j])
    requires forall j :: 0 <= j < |bs| ==> 0.0 < bs[j].volume
    ensures Vwap(bs)[i].Some? && Vwap(bs)[i].value < TypicalPrice(bs[i])
  {
    var tps := TypicalPrices(bs);
    var tp, vs := tps[..i + 1], Volumes(bs)[..i + 1];
    CumulativeColumns(bs, i);
    SumPositive(vs);
    forall k | 0 <= k < i ensures tp[k] < tps[i] {
      RisingBelow(tps, k, i);
    }
    WeightedSumBelow(tp, vs, tps[i], 0);
    var s, w := CumSum(Volumes(bs))[i], CumSum(Turnover(bs))[i];
    FactorBelow(Ratio(w, s).value, tps[i], s, w, tps[i] * s);
  }

  /** Multiplying every price by `k` multiplies every defined VWAP by `k` and
      leaves the undefined ones undefined. */
  lemma VwapScaled(bs: seq<Bar>, k: real)
    ensures |Vwap(ScaleAll(bs, k))| == |Vwap(bs)|
    ensures forall i :: 0 <= i < |bs| ==> Vwap(ScaleAll(bs, k))[i].Some? == Vwap(bs)[i].Some?
    ensures forall i :: 0 <= i < |bs| && Vwap(bs)[i].Some? ==>
      Vwap(ScaleAll(bs, k))[i].value == k * Vwap(bs)[i].value
  {
    var cs := ScaleAll(bs, k);
    TurnoverScaled(bs, k);
    CumSumScaled(Turnover(bs), Turnover(cs), k);
    forall i | 0 <= i < |bs|
      ensures Vwap(cs)[i].Some? == Vwap(bs)[i].Some?
      ensures Vwap(bs)[i].Some? ==> Vwap(cs)[i].value == k * Vwap(bs)[i].value
    {
      VwapScaledAt(bs, k, i);
    }
  }

  lemma VwapScaledAt(bs: seq<Bar>, k: real, i: nat)
    requires i < |bs|
    requires forall j :: 0 <= j < |bs| ==> CumSum(Turnover(ScaleAll(bs, k)))[j] == k * CumSum(Turnover(bs))[j]
    ensures Vwap(ScaleAll(bs, k))[i].Some? == Vwap(bs)[i].Some?
    ensures Vwap(bs)[i].Some? ==> Vwap(ScaleAll(bs, k))[i].value == k * Vwap(bs)[i].value
  {
    var cs := ScaleAll(bs, k);
    assert Volumes(cs) == Volumes(bs);
    RatioScaled(k, CumSum(Turnover(bs))[i], CumSum(Volumes(bs))[i], CumSum(Turnover(cs))[i]);
  }

  lemma TurnoverScaled(bs: seq<Bar>, k: real)
    ensures forall j :: 0 <= j < |bs| ==> Turnover(ScaleAll(bs, k))[j] == k * Turnover(bs)[j]
  {
    forall j | 0 <= j < |bs| ensures Turnover(ScaleAll(bs, k))[j] == k * Turnover(bs)[j] {
      TypicalPriceScaled(bs[j], k);
      ScaledProduct(k, TypicalPrice(bs[j]), bs[j].volume, TypicalPrice(bs[j].Scaled(k)));
    }
  }

  lemma TypicalPriceScaled(b: Bar, k: real)
    ensures TypicalPrice(b.Scaled(k)) == k * TypicalPrice(b)
  {
  }

  lemma ScaledProduct(k: real, p: real, v: real, q: real)
    requires q == k * p
    ensures q * v == k * (p * v)
  {
  }

}
