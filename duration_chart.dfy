/** The visit-duration chart of the dashboard: the description of the active
    filter, kept in a page-wide variable, and the histogram of whole-minute
    durations in 5-minute bins. */
module DurationChart {
  import opened Text

  /** `binSize`. The arithmetic below writes the bin size as the literal 5, which keeps
      it linear for the solver. */
  const BinSize: nat := 5

  /** The number of bins the loop creates for the largest duration `maxDuration`. */
  function NumBins(maxDuration: int): nat
  {
    if maxDuration < 0 then 0 else maxDuration / 5 + 1
  }

  /** The bin starts 0, 5, 10, ... of the first `n` bins. */
  function Starts(n: nat): (starts: seq<nat>)
    ensures |starts| == n
  {
    seq(n, k => 5 * k)
  }

  /** The `for (let i = 0; i <= maxDuration; i += binSize) bins.push(i)` loop: the starts
      0, 5, 10, ... up to and including the largest one not above `maxDuration`. */
  method BinStarts(maxDuration: int) returns (bins: seq<nat>)
    ensures forall k :: 0 <= k < |bins| ==> bins[k] == 5 * k && bins[k] <= maxDuration
    ensures 5 * |bins| > maxDuration
    ensures bins == Starts(NumBins(maxDuration))
  {
    bins := [];
    var i: nat := 0;
    while i <= maxDuration
      invariant i == 5 * |bins|
      invariant forall k :: 0 <= k < |bins| ==> bins[k] == 5 * k && bins[k] <= maxDuration
      decreases maxDuration - i
    {
      bins := bins + [i];
      i := i + BinSize;
    }
    if |bins| > 0 {
      assert bins[|bins| - 1] == 5 * (|bins| - 1);
    }
    if maxDuration >= 0 {
      BinCount(|bins|, maxDuration);
    }
    assert forall k :: 0 <= k < |bins| ==> bins[k] == Starts(|bins|)[k];
  }

  /** The loop stops after the bin holding `maxDuration`. */
  lemma BinCount(n: nat, maxDuration: int)
    requires 0 <= maxDuration < 5 * n
    requires n > 0 ==> 5 * (n - 1) <= maxDuration
    ensures n == NumBins(maxDuration)
  {
    var q := maxDuration / 5;
    assert maxDuration == 5 * q + maxDuration % 5;
  }

  /** `Math.max(...durations)`. */
  function MaxOf(durations: seq<int>): (m: int)
    requires |durations| > 0
    ensures m in durations
    ensures forall i :: 0 <= i < |durations| ==> durations[i] <= m
  {
    if |durations| == 1 then durations[0]
    else
      var rest := MaxOf(durations[..|durations| - 1]);
      if durations[|durations| - 1] > rest then durations[|durations| - 1] else rest
  }

  /** `durations.filter(d => d >= lo && d < hi).length`. */
  function CountIn(durations: seq<int>, lo: int, hi: int): (n: nat)
    ensures n <= |durations|
  {
    if |durations| == 0 then 0
    else
      CountIn(durations[..|durations| - 1], lo, hi) +
      (if lo <= durations[|durations| - 1] < hi then 1 else 0)
  }

  /** Counting over [lo, mid) and [mid, hi) counts over [lo, hi): every duration lies in
      at most one of two adjacent bins. */
  lemma {:induction false} CountInSplit(durations: seq<int>, lo: int, mid: int, hi: int)
    requires lo <= mid <= hi
    ensures CountIn(durations, lo, mid) + CountIn(durations, mid, hi) == CountIn(durations, lo, hi)
  {
    if |durations| > 0 {
      CountInSplit(durations[..|durations| - 1], lo, mid, hi);
    }
  }

  /** When every duration lies in [lo, hi), all are counted. */
  lemma {:induction false} CountInAll(durations: seq<int>, lo: int, hi: int)
    requires forall i :: 0 <= i < |durations| ==> lo <= durations[i] < hi
    ensures CountIn(durations, lo, hi) == |durations|
  {
    if |durations| > 0 {
      CountInAll(durations[..|durations| - 1], lo, hi);
    }
  }

  /** One non-empty histogram bin: its start and how many durations fall in it. */
  datatype Bin = Bin(start: nat, count: nat)

  /** One bar of `histogramData`: `{ x: label, y: count }`. */
  datatype Bar = Bar(x: string, y: nat)

  /** The bins of `histogramData` before labelling: each start with its count, bins with a
      count of zero dropped (the `.map(...).filter(d => d.y > 0)`). */
  function Bins(durations: seq<int>, starts: seq<nat>): (bins: seq<Bin>)
    ensures |bins| <= |starts|
  {
    if |starts| == 0 then []
    else
      var s := starts[|starts| - 1];
      var c := CountIn(durations, s, s + BinSize);
      Bins(durations, starts[..|starts| - 1]) + (if c > 0 then [Bin(s, c)] else [])
  }

  /** Every bin is non-empty, starts at one of the given starts and counts the durations
      in [start, start+5). */
  lemma {:induction false} BinsSound(durations: seq<int>, starts: seq<nat>)
    ensures forall k :: 0 <= k < |Bins(durations, starts)| ==>
      var b := Bins(durations, starts)[k];
      b.count > 0 && b.start in starts && b.count == CountIn(durations, b.start, b.start + BinSize)
  {
    if |starts| > 0 {
      var init := starts[..|starts| - 1];
      BinsSound(durations, init);
      var prev := Bins(durations, init);
      var last := starts[|starts| - 1];
      var c := CountIn(durations, last, last + BinSize);
      assert Bins(durations, starts) == prev + (if c > 0 then [Bin(last, c)] else []);
      forall k | 0 <= k < |prev| ensures prev[k].start in starts {
        var m :| 0 <= m < |init| && init[m] == prev[k].start;
        assert starts[m] == init[m];
      }
    }
  }

  /** Only empty bins are dropped: every start whose bin counts something has a bin. */
  lemma {:induction false} BinsComplete(durations: seq<int>, starts: seq<nat>, j: nat)
    requires j < |starts| && CountIn(durations, starts[j], starts[j] + BinSize) > 0
    ensures exists k :: 0 <= k < |Bins(durations, starts)| && Bins(durations, starts)[k].start == starts[j]
  {
    var init := starts[..|starts| - 1];
    var prev := Bins(durations, init);
    var bins := Bins(durations, starts);
    if j < |init| {
      BinsComplete(durations, init, j);
      var k :| 0 <= k < |prev| && prev[k].start == init[j];
      assert bins[k] == prev[k];
    } else {
      assert bins[|prev|].start == starts[j];
    }
  }

  /** The bins come in strictly increasing start order. */
  predicate Increasing(bins: seq<Bin>)
  {
    forall i, j :: 0 <= i < j < |bins| ==> bins[i].start < bins[j].start
  }

  /** Bins keep the order of the starts: increasing starts give increasing bins. */
  lemma {:induction false} BinsOrdered(durations: seq<int>, starts: seq<nat>)
    requires forall i, j :: 0 <= i < j < |starts| ==> starts[i] < starts[j]
    ensures Increasing(Bins(durations, starts))
  {
    if |starts| > 0 {
      var init := starts[..|starts| - 1];
      BinsOrdered(durations, init);
      BinsSound(durations, init);
      var prev := Bins(durations, init);
      var bins := Bins(durations, starts);
      var last := starts[|starts| - 1];
      var c := CountIn(durations, last, last + BinSize);
      assert bins == prev + (if c > 0 then [Bin(last, c)] else []);
      forall i, j | 0 <= i < j < |bins| ensures bins[i].start < bins[j].start {
        assert bins[i] == prev[i];
        if j == |prev| {
          var m :| 0 <= m < |init| && init[m] == prev[i].start;
          assert starts[m] == init[m];
          assert bins[j].start == last;
        } else {
          assert bins[j] == prev[j];
        }
      }
    }
  }

  /** The sum of the bin counts. */
  function SumCounts(bins: seq<Bin>): nat
  {
    if |bins| == 0 then 0 else SumCounts(bins[..|bins| - 1]) + bins[|bins| - 1].count
  }

  /** One more start adds its count to the total. */
  lemma BinsStepTotal(durations: seq<int>, n: nat)
    ensures SumCounts(Bins(durations, Starts(n + 1))) ==
            SumCounts(Bins(durations, Starts(n))) + CountIn(durations, 5 * n, 5 * n + 5)
  {
    var prev := Bins(durations, Starts(n));
    var c := CountIn(durations, 5 * n, 5 * n + 5);
    assert Starts(n + 1)[..n] == Starts(n);
    if c > 0 {
      assert Bins(durations, Starts(n + 1)) == prev + [Bin(5 * n, c)];
      assert (prev + [Bin(5 * n, c)])[..|prev|] == prev;
    } else {
      assert Bins(durations, Starts(n + 1)) == prev + [];
      assert prev + [] == prev;
    }
  }

  /** Over the first `n` bins the counts add up to the durations in [0, 5n). */
  lemma {:induction false} BinsTotal(durations: seq<int>, n: nat)
    ensures SumCounts(Bins(durations, Starts(n))) == CountIn(durations, 0, 5 * n)
  {
    if n > 0 {
      var m := n - 1;
      BinsTotal(durations, m);
      BinsStepTotal(durations, m);
      CountInSplit(durations, 0, 5 * m, 5 * m + 5);
      var lo := CountIn(durations, 0, 5 * m);
      var bin := CountIn(durations, 5 * m, 5 * m + 5);
      assert SumCounts(Bins(durations, Starts(m + 1))) == lo + bin;
      assert 5 * m + 5 == 5 * n;
    } else {
      assert Starts(0) == [];
      CountInSplit(durations, 0, 0, 0);
    }
  }

  /** `` `${start}-${end} min` ``. */
  function Label(start: nat): string
  {
    NatToString(start) + "-" + NatToString(start + BinSize) + " min"
  }

  /** Labels the bins as chart bars. */
  function Render(bins: seq<Bin>): (bars: seq<Bar>)
    ensures |bars| == |bins|
    ensures forall k :: 0 <= k < |bins| ==> bars[k] == Bar(Label(bins[k].start), bins[k].count)
  {
    if |bins| == 0 then [] else Render(bins[..|bins| - 1]) + [Bar(Label(bins[|bins| - 1].start), bins[|bins| - 1].count)]
  }

  function SumY(bars: seq<Bar>): nat
  {
    if |bars| == 0 then 0 else SumY(bars[..|bars| - 1]) + bars[|bars| - 1].y
  }

  lemma {:induction false} RenderTotal(bins: seq<Bin>)
    ensures SumY(Render(bins)) == SumCounts(bins)
  {
    if |bins| > 0 {
      RenderTotal(bins[..|bins| - 1]);
      assert Render(bins)[..|bins| - 1] == Render(bins[..|bins| - 1]);
    }
  }

  /** What the chart area shows: the "No data for selected range." message or the bars. */
  datatype Chart = NoData | Histogram(bars: seq<Bar>)

  /** The bins of a non-empty list of durations. */
  function HistogramBins(durations: seq<int>): seq<Bin>
    requires |durations| > 0
  {
    Bins(durations, Starts(NumBins(MaxOf(durations))))
  }

  /** The chart `fetchDurationChartData` draws for the fetched (rounded) durations. */
  function DurationChartSpec(durations: seq<int>): (c: Chart)
    ensures c.NoData? <==> |durations| == 0
    ensures c.Histogram? ==> forall k :: 0 <= k < |c.bars| ==> c.bars[k].y > 0
  {
    if |durations| == 0 then NoData
    else
      BinsSound(durations, Starts(NumBins(MaxOf(durations))));
      Histogram(Render(HistogramBins(durations)))
  }

  /** The bars come in strictly increasing start order. */
  lemma HistogramOrdered(durations: seq<int>)
    requires |durations| > 0
    ensures Increasing(HistogramBins(durations))
  {
    var starts := Starts(NumBins(MaxOf(durations)));
    assert forall i, j :: 0 <= i < j < |starts| ==> starts[i] < starts[j];
    BinsOrdered(durations, starts);
  }

  /** Every bar starts at a multiple of 5 no greater than the largest duration, and every
      such start that counts a duration has its bar. */
  lemma HistogramStarts(durations: seq<int>)
    requires |durations| > 0
    ensures var bins := HistogramBins(durations);
      forall k :: 0 <= k < |bins| ==> bins[k].start % 5 == 0 && bins[k].start <= MaxOf(durations)
    ensures var bins := HistogramBins(durations);
      forall s: nat :: s % 5 == 0 && s <= MaxOf(durations) && CountIn(durations, s, s + BinSize) > 0 ==>
        exists k :: 0 <= k < |bins| && bins[k].start == s
  {
    var m := MaxOf(durations);
    var starts := Starts(NumBins(m));
    var bins := HistogramBins(durations);
    BinsSound(durations, starts);
    forall k | 0 <= k < |bins| ensures bins[k].start % 5 == 0 && bins[k].start <= m {
      var j :| 0 <= j < |starts| && starts[j] == bins[k].start;
      assert bins[k].start == 5 * j;
      assert 5 * j <= 5 * (m / 5);
    }
    forall s: nat | s % 5 == 0 && s <= m && CountIn(durations, s, s + BinSize) > 0
      ensures exists k :: 0 <= k < |bins| && bins[k].start == s
    {
      var j := s / 5;
      assert s == 5 * j;
      assert j < NumBins(m);
      assert starts[j] == s;
      BinsComplete(durations, starts, j);
    }
  }

  /** Every non-negative duration lands in exactly one bar, so the bar heights add up to
      the number of visits. */
  lemma HistogramTotal(durations: seq<int>)
    requires |durations| > 0
    requires forall i :: 0 <= i < |durations| ==> durations[i] >= 0
    ensures SumY(DurationChartSpec(durations).bars) == |durations|
  {
    var m := MaxOf(durations);
    var n := NumBins(m);
    BinsTotal(durations, n);
    RenderTotal(HistogramBins(durations));
    CountInAll(durations, 0, 5 * n);
  }

  /** `fetchDurationChartData` once the durations have arrived. */
  method DrawDurationChart(durations: seq<int>) returns (chart: Chart)
    ensures chart == DurationChartSpec(durations)
  {
    if |durations| == 0 {
      return NoData;
    }
    var maxDuration := MaxOf(durations);
    var bins := BinStarts(maxDuration);
    chart := Histogram(Render(Bins(durations, bins)));
  }

  /** The filter description: `days` ("" when absent) wins over a date range, which needs
      both ends; `formatDate` stands for `formatDateStr`. */
  function FilterDescription(days: string, startDate: string, endDate: string, formatDate: string -> string): (desc: string)
    ensures days != "" ==> desc == "Last " + days + " Days"
    ensures days == "" && startDate != "" && endDate != "" ==> desc == formatDate(startDate) + " - " + formatDate(endDate)
    ensures days == "" && (startDate == "" || endDate == "") ==> desc == "All Time"
  {
    if days != "" then (if days == "7" then "Last 7 Days" else "Last " + days + " Days")
    else if startDate != "" && endDate != "" then formatDate(startDate) + " - " + formatDate(endDate)
    else "All Time"
  }

  /** The page-wide `currentDurationFilter` and the text of `#duration-filter-desc`. */
  class DurationFilter {
    var current: string

    constructor ()
      ensures current == "Last 7 Days"
    {
      current := "Last 7 Days";
    }

    /** `setDurationFilterDesc`. */
    method SetDescription(desc: string)
      modifies this
      ensures current == desc
    {
      current := desc;
    }

    /** The description step of `fetchDurationChartData`. */
    method ApplyFilter(days: string, startDate: string, endDate: string, formatDate: string -> string)
      modifies this
      ensures current == FilterDescription(days, startDate, endDate, formatDate)
    {
      var desc := "All Time";
      if days != "" {
        desc := if days == "7" then "Last 7 Days" else "Last " + days + " Days";
      } else if startDate != "" && endDate != "" {
        desc := formatDate(startDate) + " - " + formatDate(endDate);
      }
      SetDescription(desc);
    }
  }
}
