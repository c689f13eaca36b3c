/** Post-processing of the per-mass time tables (snowglobes/snow_tools.py):
    integrating the first n time bins of every table into one total count
    and one mean energy per channel, repeating that for every window size
    up to a maximum, the mean fraction of all events each channel
    contributes, and the `<y_var>_<channel>` column names all of them use.
    Loading the tables from disk is not modelled: a table is a map from
    column name to its values, in row order. */
module SnowTools {
  import opened Numeric
  import opened Text

  /** The channel that every table carries next to the listed ones. */
  const TotalChannel: string := "Total"

  // ---------------------------------------------------------------------
  // Column names
  // ---------------------------------------------------------------------

  /** y_column: the quantity name, an underscore and the channel. */
  function YColumn(yVar: string, channel: string): (r: string)
    ensures |r| == |yVar| + 1 + |channel|
  {
    yVar + "_" + channel
  }

  /** Reads a column name back: the text before the first underscore and
      the text after it, or nothing when there is no underscore. */
  function SplitColumn(name: string): (r: Option<(string, string)>)
    ensures r.Some? <==> '_' in name
    ensures r.Some? ==> '_' !in r.value.0
  {
    var i := IndexOf(name, '_');
    if i == |name| then None else Some((name[..i], name[i + 1..]))
  }

  /** A quantity name without an underscore (`Tot`, `Avg`) is recovered
      together with the channel, whatever the channel contains. */
  lemma {:induction false} YColumnSplit(yVar: string, channel: string)
    requires '_' !in yVar
    ensures SplitColumn(YColumn(yVar, channel)) == Some((yVar, channel))
  {
    var name := YColumn(yVar, channel);
    assert forall k :: 0 <= k < |yVar| ==> name[k] == yVar[k];
    FirstIndex(name, '_', |yVar|);
    assert name[..|yVar|] == yVar;
    assert name[|yVar| + 1..] == channel;
  }

  lemma {:induction false} FirstIndex(s: string, c: char, i: nat)
    requires i < |s| && s[i] == c
    requires forall k :: 0 <= k < i ==> s[k] != c
    ensures IndexOf(s, c) == i
  {
    if i > 0 {
      FirstIndex(s[1..], c, i - 1);
    }
  }

  /** For one quantity, distinct channels get distinct columns. */
  lemma {:induction false} YColumnInjective(yVar: string, a: string, b: string)
    requires YColumn(yVar, a) == YColumn(yVar, b)
    ensures a == b
  {
    var p := yVar + "_";
    assert YColumn(yVar, a) == p + a && YColumn(yVar, b) == p + b;
    assert a == (p + a)[|p|..];
    assert b == (p + b)[|p|..];
  }

  /** A `Tot_` column is never an `Avg_` column. */
  lemma {:induction false} TotAvgDistinct(a: string, b: string)
    ensures YColumn("Tot", a) != YColumn("Avg", b)
  {
    assert YColumn("Tot", a)[0] != YColumn("Avg", b)[0];
  }

  // ---------------------------------------------------------------------
  // Integration over a window of time bins
  // ---------------------------------------------------------------------

  /** A time-binned table: column name to values, one per time bin. */
  type MassTable = map<string, seq<real>>

  /** The table carries both columns of the channel, equally long. */
  ghost predicate HasChannel(table: MassTable, channel: string) {
    && YColumn("Tot", channel) in table
    && YColumn("Avg", channel) in table
    && |table[YColumn("Tot", channel)]| == |table[YColumn("Avg", channel)]|
  }

  /** Every table carries `Total` and every listed channel. */
  ghost predicate ValidMassTables(tables: seq<MassTable>, channels: seq<string>) {
    forall m, c :: 0 <= m < |tables| && c in [TotalChannel] + channels ==> HasChannel(tables[m], c)
  }

  /** `isel(Time=slice(0, n))`: the first n entries, or all of them when
      there are fewer. */
  function Window(s: seq<real>, n: nat): (r: seq<real>)
    ensures |r| == if n < |s| then n else |s|
    ensures r == s[..|r|]
  {
    if n < |s| then s[..n] else s
  }

  /** `x / y` where numpy gives nan or inf for y == 0: `None` then. */
  function Divide(x: real, y: real): (r: Option<real>)
    ensures r.Some? <==> y != 0.0
    ensures r.Some? ==> Times(r.value, y) == x
  {
    if y == 0.0 then None else Some(x / y)
  }

  /** The window total of a channel: `Tot` summed over the window; an
      empty window totals zero and a window past the end the whole column. */
  function WindowTot(table: MassTable, channel: string, n: nat): (r: real)
    requires HasChannel(table, channel)
    ensures n == 0 ==> r == 0.0
    ensures |table[YColumn("Tot", channel)]| <= n ==> r == Sum(table[YColumn("Tot", channel)])
  {
    Sum(Window(table[YColumn("Tot", channel)], n))
  }

  /** The window mean energy of a channel: the `Tot`-weighted sum of `Avg`
      over the window, divided by the window total, with no guard against
      a zero total. */
  function WindowAvg(table: MassTable, channel: string, n: nat): (r: Option<real>)
    requires HasChannel(table, channel)
    ensures r.Some? <==> WindowTot(table, channel, n) != 0.0
    ensures r.Some? ==>
      Times(r.value, WindowTot(table, channel, n))
        == Dot(Window(table[YColumn("Avg", channel)], n), Window(table[YColumn("Tot", channel)], n))
  {
    var tot := Window(table[YColumn("Tot", channel)], n);
    var avg := Window(table[YColumn("Avg", channel)], n);
    Divide(Dot(avg, tot), Sum(tot))
  }

  /** The loop of time_integrate over one table: for every channel in
      order, the `Tot_` column and then the `Avg_` column are assigned. */
  function IntegrateTable(table: MassTable, n: nat, channels: seq<string>): (r: map<string, Option<real>>)
    requires forall c :: c in channels ==> HasChannel(table, c)
    ensures forall c :: c in channels ==> YColumn("Tot", c) in r && YColumn("Avg", c) in r
    ensures forall k :: k in r ==> exists c :: c in channels && (k == YColumn("Tot", c) || k == YColumn("Avg", c))
    decreases |channels|
  {
    if |channels| == 0 then map[]
    else
      var last := |channels| - 1;
      var c := channels[last];
      assert forall d :: d in channels[..last] ==> d in channels;
      assert forall d :: d in channels ==> d in channels[..last] || d == c;
      var prev := IntegrateTable(table, n, channels[..last]);
      prev[YColumn("Tot", c) := Some(WindowTot(table, c, n))][YColumn("Avg", c) := WindowAvg(table, c, n)]
  }

  /** time_integrate: one integrated table per mass, over the channels
      `Total` followed by the given ones. */
  function TimeIntegrate(tables: seq<MassTable>, n: nat, channels: seq<string>): (r: seq<map<string, Option<real>>>)
    requires ValidMassTables(tables, channels)
    ensures |r| == |tables|
  {
    seq(|tables|, m requires 0 <= m < |tables| => IntegrateTable(tables[m], n, [TotalChannel] + channels))
  }

  /** One step of time_integrate's channel loop. */
  lemma {:induction false} IntegrateTableUnfold(table: MassTable, n: nat, channels: seq<string>)
    requires forall d :: d in channels ==> HasChannel(table, d)
    requires 0 < |channels|
    ensures var last := |channels| - 1;
      var c := channels[last];
      && (forall d :: d in channels[..last] ==> HasChannel(table, d))
      && IntegrateTable(table, n, channels)
         == IntegrateTable(table, n, channels[..last])[YColumn("Tot", c) := Some(WindowTot(table, c, n))][YColumn("Avg", c) := WindowAvg(table, c, n)]
  {
    var last := |channels| - 1;
    assert forall d :: d in channels[..last] ==> d in channels;
  }

  /** Whatever the order or repetition of the channels, the integrated
      table holds for every listed channel its window total and its window
      mean energy. */
  lemma {:induction false} IntegrateTableLookup(table: MassTable, n: nat, channels: seq<string>, c: string)
    requires forall d :: d in channels ==> HasChannel(table, d)
    requires c in channels
    ensures var r := IntegrateTable(table, n, channels);
      && YColumn("Tot", c) in r && YColumn("Avg", c) in r
      && r[YColumn("Tot", c)] == Some(WindowTot(table, c, n))
      && r[YColumn("Avg", c)] == WindowAvg(table, c, n)
    decreases |channels|
  {
    var last := |channels| - 1;
    var d := channels[last];
    IntegrateTableUnfold(table, n, channels);
    TotAvgDistinct(d, c);
    if c != d {
      InEarlierChannels(channels, c);
      IntegrateTableLookup(table, n, channels[..last], c);
      ColumnsDiffer(c, d);
    }
  }

  lemma {:induction false} InEarlierChannels(channels: seq<string>, c: string)
    requires c in channels && c != channels[|channels| - 1]
    ensures c in channels[..|channels| - 1]
  {
    var j :| 0 <= j < |channels| && channels[j] == c;
    assert channels[..|channels| - 1][j] == c;
  }

  /** Distinct channels share none of their four columns. */
  lemma {:induction false} ColumnsDiffer(c: string, d: string)
    requires c != d
    ensures YColumn("Tot", c) != YColumn("Tot", d) && YColumn("Avg", c) != YColumn("Avg", d)
    ensures YColumn("Tot", c) != YColumn("Avg", d) && YColumn("Avg", c) != YColumn("Tot", d)
  {
    TotAvgDistinct(c, d);
    TotAvgDistinct(d, c);
    if YColumn("Tot", c) == YColumn("Tot", d) {
      YColumnInjective("Tot", c, d);
    }
    if YColumn("Avg", c) == YColumn("Avg", d) {
      YColumnInjective("Avg", c, d);
    }
  }

  /** The window total of one mass and channel in time_integrate's result. */
  lemma {:induction false} TimeIntegrateTot(tables: seq<MassTable>, n: nat, channels: seq<string>, m: nat, c: string)
    requires ValidMassTables(tables, channels)
    requires m < |tables|
    requires c == TotalChannel || c in channels
    ensures HasChannel(tables[m], c)
    ensures var r := TimeIntegrate(tables, n, channels)[m];
      YColumn("Tot", c) in r && r[YColumn("Tot", c)] == Some(WindowTot(tables[m], c, n))
  {
    var chs := [TotalChannel] + channels;
    assert c in chs;
    IntegrateTableLookup(tables[m], n, chs, c);
  }

  /** Reading one mass of time_integrate's result: `Tot_<c>` is the sum of
      the first min(n, length) `Tot_<c>` values and `Avg_<c>` their
      `Tot`-weighted mean of `Avg_<c>`, for `Total` and every channel. */
  lemma {:induction false} TimeIntegrateColumns(tables: seq<MassTable>, n: nat, channels: seq<string>, m: nat, c: string)
    requires ValidMassTables(tables, channels)
    requires m < |tables|
    requires c == TotalChannel || c in channels
    ensures HasChannel(tables[m], c)
    ensures var r := TimeIntegrate(tables, n, channels)[m];
      var tot := Window(tables[m][YColumn("Tot", c)], n);
      var avg := Window(tables[m][YColumn("Avg", c)], n);
      && YColumn("Tot", c) in r && YColumn("Avg", c) in r
      && r[YColumn("Tot", c)] == Some(Sum(tot))
      && r[YColumn("Avg", c)] == Divide(Dot(avg, tot), Sum(tot))
  {
    var chs := [TotalChannel] + channels;
    assert c in chs;
    IntegrateTableLookup(tables[m], n, chs, c);
  }

  /** A channel whose mean energy is the same value e in every bin of the
      window integrates to mean energy e, provided the window total is not
      zero. */
  lemma {:induction false} WindowAvgConstant(table: MassTable, channel: string, n: nat, e: real)
    requires HasChannel(table, channel)
    requires var avg := Window(table[YColumn("Avg", channel)], n);
      forall i :: 0 <= i < |avg| ==> avg[i] == e
    requires WindowTot(table, channel, n) != 0.0
    ensures WindowAvg(table, channel, n) == Some(e)
  {
    var tot := Window(table[YColumn("Tot", channel)], n);
    var avg := Window(table[YColumn("Avg", channel)], n);
    WeightedConstant(avg, tot, e);
    DivideScaled(Dot(avg, tot), Sum(tot), e);
  }

  lemma {:induction false} WeightedConstant(v: seq<real>, w: seq<real>, e: real)
    requires |v| == |w|
    requires forall i :: 0 <= i < |v| ==> v[i] == e
    ensures Dot(v, w) == Times(e, Sum(w))
  {
    DotConstant(v, w, e);
  }

  lemma DivideScaled(x: real, y: real, e: real)
    requires y != 0.0
    requires x == Times(e, y)
    ensures Divide(x, y) == Some(e)
  {
    assert (e * y) / y == e;
  }

  /** With non-negative counts and a positive window total, the window mean
      energy lies between the smallest and largest per-bin mean. */
  lemma {:induction false} WindowAvgBounds(table: MassTable, channel: string, n: nat, lo: real, hi: real)
    requires HasChannel(table, channel)
    requires AllNonNegative(Window(table[YColumn("Tot", channel)], n))
    requires var avg := Window(table[YColumn("Avg", channel)], n);
      forall i :: 0 <= i < |avg| ==> lo <= avg[i] <= hi
    requires 0.0 < WindowTot(table, channel, n)
    ensures WindowAvg(table, channel, n).Some?
    ensures lo <= WindowAvg(table, channel, n).value <= hi
  {
    var tot := Window(table[YColumn("Tot", channel)], n);
    var avg := Window(table[YColumn("Avg", channel)], n);
    WeightedBounds(avg, tot, lo, hi);
    DivideBetween(Dot(avg, tot), Sum(tot), lo, hi);
  }

  lemma {:induction false} WeightedBounds(v: seq<real>, w: seq<real>, lo: real, hi: real)
    requires |v| == |w|
    requires AllNonNegative(w)
    requires forall i :: 0 <= i < |v| ==> lo <= v[i] <= hi
    ensures 0.0 <= Sum(w)
    ensures Times(lo, Sum(w)) <= Dot(v, w) <= Times(hi, Sum(w))
  {
    SumNonNegative(w);
    DotBounds(v, w, lo, hi);
  }

  lemma DivideBetween(x: real, y: real, lo: real, hi: real)
    requires 0.0 < y
    requires Times(lo, y) <= x <= Times(hi, y)
    ensures Divide(x, y).Some?
    ensures lo <= Divide(x, y).value <= hi
  {
    DivideBounds(x, y, lo, hi);
  }

  // ---------------------------------------------------------------------
  // Cumulative integration
  // ---------------------------------------------------------------------

  /** Why get_cumulative can fail: with max_n_bins < 1 there is nothing
      to concatenate and xarray raises. */
  datatype CumulativeError = NothingToConcatenate

  /** get_cumulative: entry b - 1 is time_integrate over the first b bins,
      for b = 1 .. max_n_bins. */
  function GetCumulative(tables: seq<MassTable>, maxBins: int, channels: seq<string>)
    : (r: Result<seq<seq<map<string, Option<real>>>>, CumulativeError>)
    requires ValidMassTables(tables, channels)
    ensures r.Failure? <==> maxBins < 1
    ensures r.Success? ==> |r.value| == maxBins
    ensures r.Success? ==> forall b :: 0 <= b < maxBins ==> |r.value[b]| == |tables|
  {
    if maxBins < 1 then Failure(NothingToConcatenate)
    else Success(seq(maxBins, b requires 0 <= b < maxBins => TimeIntegrate(tables, b + 1, channels)))
  }

  /** Widening the window by one bin adds that bin's count to the total. */
  lemma {:induction false} WindowGrows(s: seq<real>, n: nat)
    ensures n < |s| ==> Sum(Window(s, n + 1)) == Sum(Window(s, n)) + s[n]
    ensures |s| <= n ==> Window(s, n + 1) == Window(s, n) == s
  {
    if n < |s| {
      SumPrefixStep(s, n);
    }
  }

  /** Entry b of get_cumulative's result is the integration over the first
      b + 1 bins. */
  lemma {:induction false} CumulativeEntry(tables: seq<MassTable>, maxBins: int, channels: seq<string>, b: nat)
    requires ValidMassTables(tables, channels)
    requires b < maxBins
    ensures GetCumulative(tables, maxBins, channels).Success?
    ensures GetCumulative(tables, maxBins, channels).value[b] == TimeIntegrate(tables, b + 1, channels)
  {
  }

  /** Entry b of get_cumulative's result holds, for every mass and
      channel, the total over the first b + 1 bins. */
  lemma {:induction false} CumulativeTot(tables: seq<MassTable>, maxBins: int, channels: seq<string>, b: nat, m: nat, c: string)
    requires ValidMassTables(tables, channels)
    requires b < maxBins && m < |tables|
    requires c == TotalChannel || c in channels
    ensures HasChannel(tables[m], c)
    ensures var cum := GetCumulative(tables, maxBins, channels);
      && cum.Success? && |cum.value[b]| == |tables|
      && YColumn("Tot", c) in cum.value[b][m]
      && cum.value[b][m][YColumn("Tot", c)] == Some(WindowTot(tables[m], c, b + 1))
  {
    CumulativeEntry(tables, maxBins, channels, b);
    TimeIntegrateTot(tables, b + 1, channels, m, c);
  }

  /** Widening the window by one bin adds that bin's count to the window
      total; past the end of the column the total stops changing. */
  lemma {:induction false} WindowTotGrows(table: MassTable, c: string, n: nat)
    requires HasChannel(table, c)
    ensures var s := table[YColumn("Tot", c)];
      && (n < |s| ==> WindowTot(table, c, n + 1) == WindowTot(table, c, n) + s[n])
      && (|s| <= n ==> WindowTot(table, c, n + 1) == WindowTot(table, c, n))
  {
    WindowGrows(table[YColumn("Tot", c)], n);
  }

  /** Consecutive cumulative totals differ by exactly the count of the bin
      that was added; past the end of the table they stop changing. */
  lemma {:induction false} CumulativeStep(tables: seq<MassTable>, maxBins: int, channels: seq<string>,
                       b: nat, m: nat, c: string)
    requires ValidMassTables(tables, channels)
    requires 1 <= b < maxBins
    requires m < |tables|
    requires c == TotalChannel || c in channels
    ensures HasChannel(tables[m], c)
    ensures var cum := GetCumulative(tables, maxBins, channels).value;
      var s := tables[m][YColumn("Tot", c)];
      && YColumn("Tot", c) in cum[b][m] && YColumn("Tot", c) in cum[b - 1][m]
      && cum[b][m][YColumn("Tot", c)].Some? && cum[b - 1][m][YColumn("Tot", c)].Some?
      && (b < |s| ==> cum[b][m][YColumn("Tot", c)].value == cum[b - 1][m][YColumn("Tot", c)].value + s[b])
      && (|s| <= b ==> cum[b][m][YColumn("Tot", c)] == cum[b - 1][m][YColumn("Tot", c)])
  {
    CumulativeTot(tables, maxBins, channels, b, m, c);
    CumulativeTot(tables, maxBins, channels, b - 1, m, c);
    WindowTotGrows(tables[m], c, b);
  }

  /** With non-negative counts the cumulative totals never decrease as the
      window grows. */
  lemma {:induction false} CumulativeMonotone(tables: seq<MassTable>, maxBins: int, channels: seq<string>,
                           b: nat, m: nat, c: string)
    requires ValidMassTables(tables, channels)
    requires 1 <= b < maxBins
    requires m < |tables|
    requires c == TotalChannel || c in channels
    requires HasChannel(tables[m], c) && AllNonNegative(tables[m][YColumn("Tot", c)])
    ensures var cum := GetCumulative(tables, maxBins, channels).value;
      && YColumn("Tot", c) in cum[b][m] && YColumn("Tot", c) in cum[b - 1][m]
      && cum[b][m][YColumn("Tot", c)].Some? && cum[b - 1][m][YColumn("Tot", c)].Some?
      && cum[b - 1][m][YColumn("Tot", c)].value <= cum[b][m][YColumn("Tot", c)].value
  {
    CumulativeStep(tables, maxBins, channels, b, m, c);
  }

  // ---------------------------------------------------------------------
  // Channel fractions
  // ---------------------------------------------------------------------

  /** np.mean: nan (`None`) for an empty array. */
  function Mean(s: seq<real>): (r: Option<real>)
    ensures r.Some? <==> 0 < |s|
    ensures r.Some? ==> Times(r.value, |s| as real) == Sum(s)
  {
    if |s| == 0 then None else Some(Sum(s) / |s| as real)
  }

  /** The positions of the non-zero entries of `den`, in increasing order. */
  function NonZeroIndices(den: seq<real>): (r: seq<nat>)
    ensures forall j :: 0 <= j < |r| ==> r[j] < |den| && den[r[j]] != 0.0
    ensures forall i :: 0 <= i < |den| && den[i] != 0.0 ==> i in r
    ensures forall j, k :: 0 <= j < k < |r| ==> r[j] < r[k]
  {
    if |den| == 0 then []
    else
      var r := NonZeroIndices(den[..|den| - 1]);
      if den[|den| - 1] != 0.0 then r + [|den| - 1] else r
  }

  /** With no zero entry, every position is kept. */
  lemma {:induction false} NonZeroIndicesAll(den: seq<real>)
    requires forall i :: 0 <= i < |den| ==> den[i] != 0.0
    ensures |NonZeroIndices(den)| == |den|
    ensures forall j :: 0 <= j < |den| ==> NonZeroIndices(den)[j] == j
  {
    if |den| > 0 {
      NonZeroIndicesAll(den[..|den| - 1]);
    }
  }

  /** The element-wise quotient `num / den` as pandas computes it, with the
      entries the mean skips left out: 0 / 0 is nan, which the mean ignores;
      x / 0 with x != 0 is an infinity, which makes the mean infinite or nan,
      so the whole quotient is `None`. */
  function Ratios(num: seq<real>, den: seq<real>): (r: Option<seq<real>>)
    requires |num| == |den|
    ensures r.Some? <==> forall i :: 0 <= i < |den| && den[i] == 0.0 ==> num[i] == 0.0
    ensures r.Some? ==> |r.value| == |NonZeroIndices(den)|
    ensures r.Some? ==> forall j :: 0 <= j < |r.value| ==>
      Times(r.value[j], den[NonZeroIndices(den)[j]]) == num[NonZeroIndices(den)[j]]
  {
    if exists i :: 0 <= i < |den| && den[i] == 0.0 && num[i] != 0.0 then None
    else
      var idx := NonZeroIndices(den);
      Some(seq(|idx|, j requires 0 <= j < |idx| => num[idx[j]] / den[idx[j]]))
  }

  /** np.mean(num / den) on two columns of a summary table: a number
      exactly when no entry is infinite and at least one is not nan. */
  function FractionOf(num: seq<real>, den: seq<real>): (r: Option<real>)
    requires |num| == |den|
    ensures r.Some? <==>
      && (forall i :: 0 <= i < |den| && den[i] == 0.0 ==> num[i] == 0.0)
      && (exists i :: 0 <= i < |den| && den[i] != 0.0)
  {
    match Ratios(num, den)
    case None => None
    case Some(q) => Mean(q)
  }

  /** A summary table (one row per mass) has the channel's total column
      and the `Tot_Total` column, equally long. */
  ghost predicate HasTotals(table: MassTable, channel: string) {
    && YColumn("Tot", channel) in table
    && YColumn("Tot", TotalChannel) in table
    && |table[YColumn("Tot", channel)]| == |table[YColumn("Tot", TotalChannel)]|
  }

  /** The mean over masses of the channel's share of the total count, over
      the masses where that share is defined. */
  function ChannelFraction(table: MassTable, channel: string): (r: Option<real>)
    requires HasTotals(table, channel)
    ensures var num := table[YColumn("Tot", channel)];
      var den := table[YColumn("Tot", TotalChannel)];
      r.Some? <==>
        && (forall i :: 0 <= i < |den| && den[i] == 0.0 ==> num[i] == 0.0)
        && (exists i :: 0 <= i < |den| && den[i] != 0.0)
  {
    FractionOf(table[YColumn("Tot", channel)], table[YColumn("Tot", TotalChannel)])
  }

  /** Setting the index of an empty DataFrame to a non-empty channel list
      fails with a length mismatch. */
  datatype FractionsError = IndexLengthMismatch

  /** get_channel_fractions: for every model set, one fraction per channel,
      in channel order. Without any model set the frame has no rows to
      label with the channels. */
  function GetChannelFractions(tables: map<string, MassTable>, channels: seq<string>)
    : (r: Result<map<string, seq<Option<real>>>, FractionsError>)
    requires forall k, i :: k in tables && 0 <= i < |channels| ==> HasTotals(tables[k], channels[i])
    ensures r.Failure? <==> tables == map[] && 0 < |channels|
    ensures r.Success? ==> r.value.Keys == tables.Keys
    ensures r.Success? ==> forall k :: k in r.value ==> |r.value[k]| == |channels|
  {
    if tables == map[] && 0 < |channels| then Failure(IndexLengthMismatch)
    else
      Success(map k | k in tables ::
        seq(|channels|, i requires 0 <= i < |channels| => ChannelFraction(tables[k], channels[i])))
  }

  /** The share of the total count at every mass: Tot_c / Tot_Total. */
  function Shares(table: MassTable, channel: string): (r: seq<real>)
    requires HasTotals(table, channel)
    requires forall i :: 0 <= i < |table[YColumn("Tot", TotalChannel)]| ==> table[YColumn("Tot", TotalChannel)][i] != 0.0
    ensures |r| == |table[YColumn("Tot", TotalChannel)]|
  {
    var num := table[YColumn("Tot", channel)];
    var den := table[YColumn("Tot", TotalChannel)];
    seq(|num|, i requires 0 <= i < |num| => num[i] / den[i])
  }

  /** Where every total is non-zero nothing is skipped: the fraction of
      channel c is the mean over all masses of Tot_c / Tot_Total, missing
      only when there are no masses. */
  lemma {:induction false} ChannelFractionValue(table: MassTable, channel: string)
    requires HasTotals(table, channel)
    requires var den := table[YColumn("Tot", TotalChannel)];
      forall i :: 0 <= i < |den| ==> den[i] != 0.0
    ensures var den := table[YColumn("Tot", TotalChannel)];
      ChannelFraction(table, channel).Some? <==> 0 < |den|
    ensures var den := table[YColumn("Tot", TotalChannel)];
      ChannelFraction(table, channel).Some? ==>
        ChannelFraction(table, channel).value == Sum(Shares(table, channel)) / |den| as real
  {
    var num := table[YColumn("Tot", channel)];
    var den := table[YColumn("Tot", TotalChannel)];
    NonZeroIndicesAll(den);
    var q := Ratios(num, den).value;
    assert q == Shares(table, channel);
  }

  /** A mass whose channel and total counts are both zero contributes a nan
      that the mean skips: appending one leaves the fraction unchanged. */
  lemma {:induction false} FractionSkipsEmptyMass(num: seq<real>, den: seq<real>)
    requires |num| == |den|
    ensures FractionOf(num + [0.0], den + [0.0]) == FractionOf(num, den)
  {
    var num', den' := num + [0.0], den + [0.0];
    assert den'[..|den'| - 1] == den;
    assert NonZeroIndices(den') == NonZeroIndices(den);
    var idx := NonZeroIndices(den);
    if Ratios(num, den).Some? {
      assert Ratios(num', den').Some?;
      assert Ratios(num', den').value == Ratios(num, den).value;
    } else {
      assert Ratios(num', den').None?;
    }
  }

  /** The two-mass case: a model set with no events at the first mass and
      one event of two at the second has fraction one half. */
  lemma FractionOfExample()
    ensures FractionOf([0.0, 1.0], [0.0, 2.0]) == Some(0.5)
  {
    var den := [0.0, 2.0];
    assert den[..1] == [0.0];
    assert [0.0][..0] == [];
    assert NonZeroIndices(den) == [1];
    var q := Ratios([0.0, 1.0], den).value;
    assert q == [0.5];
    assert Sum(q) == 0.5 by {
      SumPrefixStep(q, 0);
      assert q[..1] == q;
    }
  }

  /** The listed channels' totals at mass m, in channel order. */
  function CountsAt(table: MassTable, channels: seq<string>, m: nat): (r: seq<real>)
    requires forall c :: c in channels ==> YColumn("Tot", c) in table && m < |table[YColumn("Tot", c)]|
    ensures |r| == |channels|
  {
    seq(|channels|, i requires 0 <= i < |channels| => table[YColumn("Tot", channels[i])][m])
  }

  /** The listed channels add up to `Total` at every mass, and every total
      is non-zero. */
  ghost predicate PartitionsTotal(table: MassTable, channels: seq<string>)
  {
    && YColumn("Tot", TotalChannel) in table
    && (forall c :: c in channels ==> HasTotals(table, c))
    && var den := table[YColumn("Tot", TotalChannel)];
       && (forall m :: 0 <= m < |den| ==> den[m] != 0.0)
       && (forall m :: 0 <= m < |den| ==> Sum(CountsAt(table, channels, m)) == den[m])
  }

  /** The fractions of every listed channel, in channel order. */
  function Fractions(table: MassTable, channels: seq<string>): (r: seq<Option<real>>)
    requires forall c :: c in channels ==> HasTotals(table, c)
    ensures |r| == |channels|
  {
    seq(|channels|, i requires 0 <= i < |channels| => ChannelFraction(table, channels[i]))
  }

  /** When the listed channels partition the total at every mass, their
      fractions add up to one: the mean of the shares summed over channels
      is the mean of ones. */
  lemma {:induction false} FractionsSumToOne(table: MassTable, channels: seq<string>)
    requires PartitionsTotal(table, channels)
    requires 0 < |table[YColumn("Tot", TotalChannel)]|
    ensures forall i :: 0 <= i < |channels| ==> Fractions(table, channels)[i].Some?
    ensures Sum(seq(|channels|, i requires 0 <= i < |channels| => Fractions(table, channels)[i].value)) == 1.0
  {
    var nMass := |table[YColumn("Tot", TotalChannel)]|;
    var rows := seq(|channels|, i requires 0 <= i < |channels| => Shares(table, channels[i]));
    var fr := Fractions(table, channels);
    forall i | 0 <= i < |channels|
      ensures fr[i].Some? && fr[i].value == RowSums(rows)[i] / nMass as real
    {
      FractionOfRow(table, channels, rows, i);
    }
    var values := seq(|channels|, i requires 0 <= i < |channels| => fr[i].value);
    SumDivide(RowSums(rows), values, nMass as real);
    SharesSumToMassCount(table, channels, rows);
    DivideSelf(Sum(RowSums(rows)), nMass as real);
  }

  lemma DivideSelf(x: real, y: real)
    requires x == y && y != 0.0
    ensures x / y == 1.0
  {
  }

  lemma {:induction false} FractionOfRow(table: MassTable, channels: seq<string>, rows: seq<seq<real>>, i: nat)
    requires PartitionsTotal(table, channels)
    requires 0 < |table[YColumn("Tot", TotalChannel)]|
    requires rows == seq(|channels|, i requires 0 <= i < |channels| => Shares(table, channels[i]))
    requires i < |channels|
    ensures Fractions(table, channels)[i].Some?
    ensures Fractions(table, channels)[i].value == Sum(rows[i]) / |table[YColumn("Tot", TotalChannel)]| as real
  {
    assert channels[i] in channels;
    FractionDefined(table, channels, i);
    ChannelFractionValue(table, channels[i]);
  }

  /** Summed over channels and masses, the shares count one per mass. */
  lemma {:induction false} SharesSumToMassCount(table: MassTable, channels: seq<string>, rows: seq<seq<real>>)
    requires PartitionsTotal(table, channels)
    requires rows == seq(|channels|, i requires 0 <= i < |channels| => Shares(table, channels[i]))
    ensures Sum(RowSums(rows)) == |table[YColumn("Tot", TotalChannel)]| as real
  {
    var nMass := |table[YColumn("Tot", TotalChannel)]|;
    SumSwap(rows, nMass);
    var ones := seq(nMass, e requires 0 <= e < nMass => Sum(Column(rows, e)));
    forall e | 0 <= e < nMass
      ensures ones[e] == 1.0
    {
      SharesAtMass(table, channels, rows, e);
    }
    SumConstant(ones, 1.0);
  }

  /** At one mass, the shares of channels that partition the total add up
      to one. */
  lemma {:induction false} SharesAtMass(table: MassTable, channels: seq<string>, rows: seq<seq<real>>, e: nat)
    requires PartitionsTotal(table, channels)
    requires e < |table[YColumn("Tot", TotalChannel)]|
    requires rows == seq(|channels|, i requires 0 <= i < |channels| => Shares(table, channels[i]))
    ensures Sum(Column(rows, e)) == 1.0
  {
    var den := table[YColumn("Tot", TotalChannel)];
    var counts := CountsAt(table, channels, e);
    var col := Column(rows, e);
    forall i | 0 <= i < |channels|
      ensures col[i] == counts[i] / den[e]
    {
      assert channels[i] in channels;
      assert rows[i] == Shares(table, channels[i]);
    }
    SumDivide(counts, col, den[e]);
    assert Sum(counts) == den[e];
  }

  lemma {:induction false} FractionDefined(table: MassTable, channels: seq<string>, i: nat)
    requires PartitionsTotal(table, channels)
    requires i < |channels|
    ensures HasTotals(table, channels[i])
    ensures var den := table[YColumn("Tot", TotalChannel)];
      forall m :: 0 <= m < |den| ==> den[m] != 0.0
  {
    assert channels[i] in channels;
  }

  /** get_channel_fractions reads, for each model set whose listed channels
      partition its total, fractions in channel order that add up to one. */
  lemma {:induction false} ChannelFractionsSumToOne(tables: map<string, MassTable>, channels: seq<string>, k: string)
    requires forall model, i :: model in tables && 0 <= i < |channels| ==> HasTotals(tables[model], channels[i])
    requires k in tables
    requires PartitionsTotal(tables[k], channels)
    requires 0 < |tables[k][YColumn("Tot", TotalChannel)]|
    ensures GetChannelFractions(tables, channels).Success?
    ensures var fr := GetChannelFractions(tables, channels).value[k];
      && fr == Fractions(tables[k], channels)
      && (forall i :: 0 <= i < |channels| ==> fr[i].Some?)
      && Sum(seq(|channels|, i requires 0 <= i < |channels| => fr[i].value)) == 1.0
  {
    FractionsSumToOne(tables[k], channels);
  }

  /** A channel that never exceeds the non-negative total contributes a
      fraction between 0 and 1, as soon as one total is non-zero; masses
      with a zero total then have a zero channel count and are skipped. */
  lemma {:induction false} ChannelFractionBounds(table: MassTable, channel: string)
    requires HasTotals(table, channel)
    requires var num := table[YColumn("Tot", channel)];
      var den := table[YColumn("Tot", TotalChannel)];
      forall i :: 0 <= i < |num| ==> 0.0 <= num[i] <= den[i]
    requires var den := table[YColumn("Tot", TotalChannel)];
      exists i :: 0 <= i < |den| && den[i] != 0.0
    ensures ChannelFraction(table, channel).Some?
    ensures 0.0 <= ChannelFraction(table, channel).value <= 1.0
  {
    var num := table[YColumn("Tot", channel)];
    var den := table[YColumn("Tot", TotalChannel)];
    var idx := NonZeroIndices(den);
    var q := Ratios(num, den).value;
    forall j | 0 <= j < |q|
      ensures 0.0 <= q[j] <= 1.0
    {
      RatioBounds(num[idx[j]], den[idx[j]], q[j]);
    }
    MeanBounds(q);
  }

  lemma RatioBounds(x: real, y: real, q: real)
    requires 0.0 <= x <= y && y != 0.0
    requires Times(q, y) == x
    ensures 0.0 <= q <= 1.0
  {
  }

  lemma {:induction false} MeanBounds(q: seq<real>)
    requires 0 < |q|
    requires forall i :: 0 <= i < |q| ==> 0.0 <= q[i] <= 1.0
    ensures 0.0 <= Mean(q).value <= 1.0
  {
    SumNonNegative(q);
    var ones := seq(|q|, i requires 0 <= i < |q| => 1.0 - q[i]);
    SumNonNegative(ones);
    SumAdd(q, ones);
    assert Add(q, ones) == seq(|q|, i requires 0 <= i < |q| => 1.0);
    SumConstant(Add(q, ones), 1.0);
    DivideBounds(Sum(q), |q| as real, 0.0, 1.0);
  }
}
