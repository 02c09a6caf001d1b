/** The shared data model of the dashboard's indicator pipeline: the optional
    value used for "not defined" (pandas' NaN), the daily bar, the provider's
    answer for one symbol, the date sort both handlers apply, and the two
    different ways the handlers cut a series down to one year. */
module Series {

  /** `None` stands for a cell pandas would hold as NaN. */
  datatype Option<+T> = None | Some(value: T)

  /** One trading day. `day` is a day number (the calendar date counted in
      days), so "365 days earlier" is plain subtraction. */
  datatype Bar = Bar(day: int, open: real, high: real, low: real, close: real, volume: real)
  {
    /** The same day with every price multiplied by `k`; volume unchanged. */
    function Scaled(k: real): Bar {
      Bar(day, k * open, k * high, k * low, k * close, volume)
    }
  }

  /** What the provider returns for one symbol: either no "Time Series (Daily)"
      key at all, or the bars of that dictionary, in whatever order its keys come. */
  datatype Payload = Missing | TimeSeries(bars: seq<Bar>)

  /** The calendar-day window of the single-symbol handler, `df.last("365D")`. */
  const YearDays: int := 365
  /** The bar-count window of the comparison handler, `df.tail(365)`. */
  const YearBars: nat := 365

  predicate Sorted(s: seq<Bar>) {
    forall i, j :: 0 <= i < j < |s| ==> s[i].day <= s[j].day
  }

  predicate StrictlyIncreasing(s: seq<Bar>) {
    forall i, j :: 0 <= i < j < |s| ==> s[i].day < s[j].day
  }

  /** The keys of a dictionary are distinct, and so are the dates parsed from them. */
  predicate DistinctDays(s: seq<Bar>) {
    forall i, j :: 0 <= i < |s| && 0 <= j < |s| && i != j ==> s[i].day != s[j].day
  }

  /** No bar of `s` is dated `d`. */
  predicate DayAbsent(d: int, s: seq<Bar>) {
    forall i :: 0 <= i < |s| ==> s[i].day != d
  }

  /** Every bar of `s` is dated on or after `d`. */
  predicate DatedFrom(d: int, s: seq<Bar>) {
    forall i :: 0 <= i < |s| ==> d <= s[i].day
  }

  /** Every bar of `s` is dated strictly after `d`. */
  predicate DatedAfter(d: int, s: seq<Bar>) {
    forall i :: 0 <= i < |s| ==> d < s[i].day
  }

  function ScaleAll(s: seq<Bar>, k: real): (r: seq<Bar>)
    ensures |r| == |s|
    ensures forall i :: 0 <= i < |s| ==> r[i] == s[i].Scaled(k)
  {
    seq(|s|, i requires 0 <= i < |s| => s[i].Scaled(k))
  }

  /** Inserts `b` after every bar of `s` dated on or before it. */
  function Insert(b: Bar, s: seq<Bar>): (r: seq<Bar>)
    ensures |r| == |s| + 1
  {
    if |s| == 0 || b.day < s[0].day then [b] + s else [s[0]] + Insert(b, s[1..])
  }

  /** pandas' `sort_index()` on the date index, as an insertion sort. The
      provider's dates are dictionary keys and so distinct, where every sort
      gives the same order; this one also keeps equal dates in input order,
      which pandas' default sort does not promise. */
  function SortByDate(bs: seq<Bar>): (r: seq<Bar>)
    ensures |r| == |bs|
  {
    if |bs| == 0 then [] else Insert(bs[|bs| - 1], SortByDate(bs[..|bs| - 1]))
  }

  lemma {:induction false} InsertSorted(b: Bar, s: seq<Bar>)
    requires Sorted(s)
    ensures Sorted(Insert(b, s))
    ensures forall d :: DatedFrom(d, s) && d <= b.day ==> DatedFrom(d, Insert(b, s))
  {
    var r := Insert(b, s);
    if |s| == 0 || b.day < s[0].day {
      assert r[0] == b;
      assert forall i :: 0 < i < |r| ==> r[i] == s[i - 1];
    } else {
      var rest := Insert(b, s[1..]);
      InsertSorted(b, s[1..]);
      assert DatedFrom(s[0].day, s[1..]);
      assert r[0] == s[0];
      assert forall i :: 0 < i < |r| ==> r[i] == rest[i - 1];
      assert forall d :: DatedFrom(d, s) ==> DatedFrom(d, s[1..]) && d <= s[0].day;
    }
  }

  lemma {:induction false} InsertStrictlyIncreasing(b: Bar, s: seq<Bar>)
    requires StrictlyIncreasing(s) && DayAbsent(b.day, s)
    ensures StrictlyIncreasing(Insert(b, s))
    ensures forall d :: DatedAfter(d, s) && d < b.day ==> DatedAfter(d, Insert(b, s))
  {
    var r := Insert(b, s);
    if |s| == 0 || b.day < s[0].day {
      assert r[0] == b;
      assert forall i :: 0 < i < |r| ==> r[i] == s[i - 1];
    } else {
      var rest := Insert(b, s[1..]);
      InsertStrictlyIncreasing(b, s[1..]);
      assert DatedAfter(s[0].day, s[1..]);
      assert s[0].day < b.day;
      assert r[0] == s[0];
      assert forall i :: 0 < i < |r| ==> r[i] == rest[i - 1];
      assert forall d :: DatedAfter(d, s) ==> DatedAfter(d, s[1..]) && d < s[0].day;
    }
  }

  lemma {:induction false} InsertDayAbsent(b: Bar, s: seq<Bar>, d: int)
    requires DayAbsent(d, s) && d != b.day
    ensures DayAbsent(d, Insert(b, s))
  {
    var r := Insert(b, s);
    if |s| == 0 || b.day < s[0].day {
      assert forall i :: 0 < i < |r| ==> r[i] == s[i - 1];
    } else {
      var rest := Insert(b, s[1..]);
      InsertDayAbsent(b, s[1..], d);
      assert forall i :: 0 < i < |r| ==> r[i] == rest[i - 1];
    }
  }

  /** The sort puts the bars in date order; when the dates are distinct, as the
      keys of the provider's dictionary are, in strictly increasing order. */
  lemma {:induction false} SortByDateSorted(bs: seq<Bar>)
    ensures Sorted(SortByDate(bs))
    ensures forall d :: DayAbsent(d, bs) ==> DayAbsent(d, SortByDate(bs))
    ensures DistinctDays(bs) ==> StrictlyIncreasing(SortByDate(bs))
  {
    if |bs| > 0 {
      var prefix := bs[..|bs| - 1];
      var last := bs[|bs| - 1];
      SortByDateSorted(prefix);
      var sorted := SortByDate(prefix);
      InsertSorted(last, sorted);
      forall d | DayAbsent(d, bs) ensures DayAbsent(d, SortByDate(bs)) {
        assert DayAbsent(d, prefix) && d != last.day;
        InsertDayAbsent(last, sorted, d);
      }
      if DistinctDays(bs) {
        assert DistinctDays(prefix) && DayAbsent(last.day, prefix);
        InsertStrictlyIncreasing(last, sorted);
      }
    }
  }

  lemma {:induction false} InsertPermutes(b: Bar, s: seq<Bar>)
    ensures multiset(Insert(b, s)) == multiset(s) + multiset{b}
  {
    if |s| > 0 && s[0].day <= b.day {
      InsertPermutes(b, s[1..]);
      assert s == [s[0]] + s[1..];
    }
  }

  /** Sorting neither loses nor invents a bar. */
  lemma {:induction false} SortByDatePermutes(bs: seq<Bar>)
    ensures multiset(SortByDate(bs)) == multiset(bs)
  {
    if |bs| > 0 {
      var prefix := bs[..|bs| - 1];
      assert bs == prefix + [bs[|bs| - 1]];
      SortByDatePermutes(prefix);
      InsertPermutes(bs[|bs| - 1], SortByDate(prefix));
    }
  }

  lemma {:induction false} InsertScaled(b: Bar, s: seq<Bar>, k: real)
    ensures Insert(b.Scaled(k), ScaleAll(s, k)) == ScaleAll(Insert(b, s), k)
  {
    var t := ScaleAll(s, k);
    if |s| == 0 || b.day < s[0].day {
      assert [b.Scaled(k)] + t == ScaleAll([b] + s, k);
    } else {
      assert t[1..] == ScaleAll(s[1..], k);
      InsertScaled(b, s[1..], k);
      var rest := Insert(b, s[1..]);
      assert [s[0].Scaled(k)] + ScaleAll(rest, k) == ScaleAll([s[0]] + rest, k);
    }
  }

  /** Sorting looks only at dates, so it commutes with rescaling the prices. */
  lemma {:induction false} SortByDateScaled(bs: seq<Bar>, k: real)
    ensures SortByDate(ScaleAll(bs, k)) == ScaleAll(SortByDate(bs), k)
  {
    if |bs| > 0 {
      var prefix := bs[..|bs| - 1];
      assert ScaleAll(bs, k)[..|bs| - 1] == ScaleAll(prefix, k);
      SortByDateScaled(prefix, k);
      InsertScaled(bs[|bs| - 1], SortByDate(prefix), k);
    }
  }

  /** The position of the first bar dated after `cutoff`, scanning from the
      front: on a date-sorted series this is pandas'
      `searchsorted(cutoff, side="right")`. */
  function FirstAfter(s: seq<Bar>, cutoff: int): (k: nat)
    ensures k <= |s|
    ensures forall i :: 0 <= i < k ==> s[i].day <= cutoff
    ensures k < |s| ==> s[k].day > cutoff
  {
    if |s| == 0 || s[0].day > cutoff then 0
    else
      var k := 1 + FirstAfter(s[1..], cutoff);
      assert forall i :: 0 < i < k ==> s[i] == s[1..][i - 1];
      k
  }

  /** `df.last("365D")`: the bars from the first one dated after (last date - `days`). */
  function LastCalendarDays(s: seq<Bar>, days: int): (r: seq<Bar>)
    ensures |r| <= |s|
  {
    if |s| == 0 then [] else s[FirstAfter(s, s[|s| - 1].day - days)..]
  }

  /** `df.tail(n)`: at most the `n` most recent bars. */
  function LastBars(s: seq<Bar>, n: nat): (r: seq<Bar>)
    ensures |r| == if |s| <= n then |s| else n
    ensures r == s[|s| - |r|..]
  {
    if |s| <= n then s else s[|s| - n..]
  }

  /** On a date-sorted series the calendar window keeps the last bar, keeps
      exactly the bars dated after the cutoff, and drops exactly those on or
      before it. */
  lemma LastCalendarDaysKeeps(s: seq<Bar>, days: nat)
    requires Sorted(s) && |s| > 0 && days > 0
    ensures var r := LastCalendarDays(s, days);
      && |r| > 0 && r == s[|s| - |r|..]
      && (forall i :: 0 <= i < |r| ==> r[i].day > s[|s| - 1].day - days)
      && (forall i :: 0 <= i < |s| - |r| ==> s[i].day <= s[|s| - 1].day - days)
  {
    var cutoff := s[|s| - 1].day - days;
    var k := FirstAfter(s, cutoff);
    var r := LastCalendarDays(s, days);
    assert r == s[k..];
    forall i | 0 <= i < |r| ensures r[i].day > cutoff {
      assert r[i] == s[k + i];
      assert s[k].day <= s[k + i].day;
    }
  }

  lemma {:induction false} IncreasingSpread(s: seq<Bar>, i: nat, j: nat)
    requires StrictlyIncreasing(s) && i <= j < |s|
    ensures s[j].day - s[i].day >= j - i
  {
    if i < j {
      IncreasingSpread(s, i, j - 1);
    }
  }

  /** With distinct dates the calendar window can never hold more than 365 bars. */
  lemma YearWindowAtMostYearBars(s: seq<Bar>)
    requires StrictlyIncreasing(s)
    ensures |LastCalendarDays(s, YearDays)| <= YearBars
  {
    var r := LastCalendarDays(s, YearDays);
    if |r| > 0 {
      LastCalendarDaysKeeps(s, YearDays);
      var off := |s| - |r|;
      IncreasingSpread(s, off, |s| - 1);
      assert r[0] == s[off];
    }
  }

  /** The two windowing rules are different: two bars 400 days apart keep one
      bar under the calendar rule and both under the bar-count rule. */
  lemma WindowRulesDiffer(a: Bar, b: Bar)
    requires b.day == a.day + 400
    ensures |LastCalendarDays([a, b], YearDays)| == 1
    ensures |LastBars([a, b], YearBars)| == 2
  {
    assert FirstAfter([a, b], b.day - YearDays) == 1;
  }

  /** A suffix of a strictly increasing series is strictly increasing. */
  lemma SuffixIncreasing(s: seq<Bar>, k: nat)
    requires StrictlyIncreasing(s) && k <= |s|
    ensures StrictlyIncreasing(s[k..])
  {
    forall i, j | 0 <= i < j < |s| - k ensures s[k..][i].day < s[k..][j].day {
      assert s[k..][i] == s[k + i] && s[k..][j] == s[k + j];
    }
  }
}
