/** The index and shape skeleton of get_fluences, the pinch parameter of
    get_alpha and the bin count of get_bins (flash2snowglobes/convert.py).
    The spectral shape phi, the flux at Earth and the trapezoidal time
    integral are transcendental or foreign numerics; they enter as one
    function parameter, `binFluence`. */
module Fluence {
  import opened Numeric
  import opened Interpolation
  import opened TimeBinning

  /** The three computed flavour classes, in the order get_flux_spectrum
      lays them out: nu_e, nu_ebar, nu_x. */
  const Flavors: seq<string> := ["e", "a", "x"]

  /** Width of the output time bins: the first difference of the left edges,
      positive on increasing edges. */
  function BinWidth(timebins: seq<real>): (r: real)
    requires 2 <= |timebins|
    ensures StrictlyIncreasing(timebins) ==> 0.0 < r
  {
    timebins[1] - timebins[0]
  }

  /** The left edges followed by one extra right edge, last + dt. */
  function FullTimebins(timebins: seq<real>): (r: seq<real>)
    requires 2 <= |timebins|
    ensures |r| == |timebins| + 1
    ensures r[..|timebins|] == timebins
    ensures r[|timebins|] == timebins[|timebins| - 1] + BinWidth(timebins)
  {
    timebins + [timebins[|timebins| - 1] + BinWidth(timebins)]
  }

  /** What get_fluences needs of its inputs: raw timesteps and the three
      moment arrays aligned with them; at least two strictly increasing
      output bins; every bin edge strictly after time[0] and the final
      right edge no later than the last timestep. */
  ghost predicate ValidFluenceInput(time: seq<real>, lum: seq<seq<real>>, avg: seq<seq<real>>,
                                    rms: seq<seq<real>>, timebins: seq<real>)
  {
    && Aligned(time, lum) && Aligned(time, avg) && Aligned(time, rms)
    && 2 <= |timebins|
    && StrictlyIncreasing(timebins)
    && time[0] < timebins[0]
    && timebins[|timebins| - 1] + BinWidth(timebins) <= time[|time| - 1]
  }

  function Moments(lum: seq<seq<real>>, avg: seq<seq<real>>, rms: seq<seq<real>>): map<string, seq<seq<real>>>
  {
    map["lum" := lum, "avg" := avg, "rms" := rms]
  }

  /** The bin-local slice of output bin i. */
  function BinSliceOf(time: seq<real>, lum: seq<seq<real>>, avg: seq<seq<real>>,
                      rms: seq<seq<real>>, timebins: seq<real>, i: nat): (r: BinSlice)
    requires ValidFluenceInput(time, lum, avg, rms, timebins)
    requires i < |timebins|
    ensures r.y.Keys == {"lum", "avg", "rms"}
  {
    var full := FullTimebins(timebins);
    EdgesIncrease(timebins, i);
    SliceTimebin(full[i], full[i + 1], time, Moments(lum, avg, rms))
  }

  lemma {:induction false} EdgesIncrease(timebins: seq<real>, i: nat)
    requires 2 <= |timebins| && StrictlyIncreasing(timebins)
    requires i < |timebins|
    ensures timebins[0] <= FullTimebins(timebins)[i]
    ensures FullTimebins(timebins)[i] < FullTimebins(timebins)[i + 1]
    ensures FullTimebins(timebins)[i + 1] <= FullTimebins(timebins)[|timebins|]
  {
    var full := FullTimebins(timebins);
    assert timebins[0] < timebins[1];
    if i + 1 < |timebins| {
      assert full[i] == timebins[i] && full[i + 1] == timebins[i + 1];
    }
  }

  /** How get_fluences fails on too little or ill-shaped input, in the
      order it meets each case. np.diff(timebins)[0] raises IndexError with
      fewer than two time bins, and np.diff(e_bins)[0] likewise with fewer
      than two energy bins. numpy raises ValueError when the moment arrays'
      flavour widths do not broadcast into the luminosities' width. Finally,
      fluence[j, :] raises IndexError for the third flavour class when there
      are fewer than three flavour columns. */
  datatype ShapeError = NoBinWidth | NoEnergyBinWidth | WidthMismatch | MissingFlavor

  /** numpy's broadcasting of two array widths: equal widths, or a width of
      1 stretched to the other; any other pair raises ValueError. */
  function Broadcast(a: nat, b: nat): (r: Option<nat>)
    ensures r.Some? <==> a == b || a == 1 || b == 1
    ensures r.Some? ==> (a != 1 ==> r.value == a) && (b != 1 ==> r.value == b)
  {
    if a == b || b == 1 then Some(a)
    else if a == 1 then Some(b)
    else None
  }

  /** The flavour width of the flux get_flux_spectrum computes from moment
      rows of widths wl (lum), wa (avg) and wr (rms): get_alpha combines avg
      with rms, get_phi combines avg with alpha, then lum / avg is multiplied
      by phi. `None` when one of these broadcasts raises. */
  function SpectrumWidth(wl: nat, wa: nat, wr: nat): (r: Option<nat>)
    ensures r.Some? <==> Broadcast(wa, wr).Some? && Broadcast(wl, wa).Some? && Broadcast(wl, wr).Some?
  {
    var alpha := Broadcast(wa, wr);
    if alpha.None? then None
    else
      var phi := Broadcast(wa, alpha.value);
      var ratio := Broadcast(wl, wa);
      if phi.None? || ratio.None? then None
      else Broadcast(ratio.value, phi.value)
  }

  /** The flux of each energy bin is stored into a slot n_flavors = wl wide,
      which numpy allows when the computed width is wl itself or 1. */
  predicate SpectrumFits(wl: nat, wa: nat, wr: nat) {
    var w := SpectrumWidth(wl, wa, wr);
    w.Some? && (w.value == wl || w.value == 1)
  }

  /** Moment arrays as wide as the luminosities, or one wide. */
  predicate WidthsFit(wl: nat, wa: nat, wr: nat) {
    (wa == wl || wa == 1) && (wr == wl || wr == 1)
  }

  /** The shapes get_flux_spectrum accepts are exactly those: avg and rms
      each as wide as lum, or one wide. */
  lemma {:induction false} SpectrumFitsWidths(wl: nat, wa: nat, wr: nat)
    ensures SpectrumFits(wl, wa, wr) <==> WidthsFit(wl, wa, wr)
  {
    if SpectrumFits(wl, wa, wr) && wl != 1 {
      var ratio := Broadcast(wl, wa).value;
      assert ratio == wl;
    }
  }

  /** get_fluences: for every flavour class a table of n_timebins rows of
      n_ebins fluences; row i of flavour f holds the bin-i fluence that the
      spectrum-and-integration step computes from bin i's slice for the
      flavour's position in `Flavors`. The number of flavour columns is
      that of the luminosities. */
  function GetFluences(time: seq<real>, lum: seq<seq<real>>, avg: seq<seq<real>>,
                       rms: seq<seq<real>>, timebins: seq<real>, eBins: seq<real>,
                       binFluence: (BinSlice, seq<real>, nat, nat) -> real)
    : (r: Result<map<string, seq<seq<real>>>, ShapeError>)
    requires 2 <= |timebins| ==> ValidFluenceInput(time, lum, avg, rms, timebins)
    ensures r == Failure(NoBinWidth) <==> |timebins| < 2
    ensures r == Failure(NoEnergyBinWidth) <==> 2 <= |timebins| && |eBins| < 2
    ensures r == Failure(WidthMismatch) <==>
      2 <= |timebins| && 2 <= |eBins| && !WidthsFit(|lum[0]|, |avg[0]|, |rms[0]|)
    ensures r == Failure(MissingFlavor) <==>
      2 <= |timebins| && 2 <= |eBins| && WidthsFit(|lum[0]|, |avg[0]|, |rms[0]|) && |lum[0]| < 3
    ensures r.Success? ==> r.value.Keys == {"e", "a", "x"}
    ensures r.Success? ==> forall f :: f in r.value ==> |r.value[f]| == |timebins| && Rectangular(r.value[f], |eBins|)
  {
    if |timebins| < 2 then Failure(NoBinWidth)
    else if |eBins| < 2 then Failure(NoEnergyBinWidth)
    else if !SpectrumFits(|lum[0]|, |avg[0]|, |rms[0]|) then
      SpectrumFitsWidths(|lum[0]|, |avg[0]|, |rms[0]|);
      Failure(WidthMismatch)
    else if |lum[0]| < 3 then
      SpectrumFitsWidths(|lum[0]|, |avg[0]|, |rms[0]|);
      Failure(MissingFlavor)
    else
      SpectrumFitsWidths(|lum[0]|, |avg[0]|, |rms[0]|);
      Success(map["e" := FlavorFluences(time, lum, avg, rms, timebins, eBins, binFluence, 0),
                  "a" := FlavorFluences(time, lum, avg, rms, timebins, eBins, binFluence, 1),
                  "x" := FlavorFluences(time, lum, avg, rms, timebins, eBins, binFluence, 2)])
  }

  /** The n_timebins x n_ebins table of flavour position j. */
  function FlavorFluences(time: seq<real>, lum: seq<seq<real>>, avg: seq<seq<real>>,
                          rms: seq<seq<real>>, timebins: seq<real>, eBins: seq<real>,
                          binFluence: (BinSlice, seq<real>, nat, nat) -> real, j: nat): (r: seq<seq<real>>)
    requires ValidFluenceInput(time, lum, avg, rms, timebins)
    ensures |r| == |timebins| && Rectangular(r, |eBins|)
  {
    seq(|timebins|, i requires 0 <= i < |timebins| =>
      seq(|eBins|, k requires 0 <= k < |eBins| =>
        binFluence(BinSliceOf(time, lum, avg, rms, timebins, i), eBins, j, k)))
  }

  // ---------------------------------------------------------------------
  // Properties of the binning
  // ---------------------------------------------------------------------

  /** Bin i spans [full[i], full[i+1]]: consecutive bins share an edge, the
      first bin starts at timebins[0], every bin but the last ends at the
      next left edge, and the last one ends at timebins[last] + dt. Each
      slice's time samples start and end exactly at those edges. */
  lemma {:induction false} BinEdges(time: seq<real>, lum: seq<seq<real>>, avg: seq<seq<real>>,
                 rms: seq<seq<real>>, timebins: seq<real>, i: nat)
    requires ValidFluenceInput(time, lum, avg, rms, timebins)
    requires i < |timebins|
    ensures var s := BinSliceOf(time, lum, avg, rms, timebins, i);
      && s.t[0] == timebins[i]
      && (i + 1 < |timebins| ==> s.t[|s.t| - 1] == timebins[i + 1])
      && (i + 1 == |timebins| ==> s.t[|s.t| - 1] == timebins[i] + (timebins[1] - timebins[0]))
  {
    var full := FullTimebins(timebins);
    EdgesIncrease(timebins, i);
    MomentsAligned(time, lum, avg, rms, timebins);
    SliceEdges(full[i], full[i + 1], time, Moments(lum, avg, rms));
    assert BinSliceOf(time, lum, avg, rms, timebins, i) == SliceTimebin(full[i], full[i + 1], time, Moments(lum, avg, rms));
    FullEdges(timebins, i);
  }

  /** The edges of bin i in terms of the left edges. */
  lemma {:induction false} FullEdges(timebins: seq<real>, i: nat)
    requires 2 <= |timebins| && i < |timebins|
    ensures FullTimebins(timebins)[i] == timebins[i]
    ensures i + 1 < |timebins| ==> FullTimebins(timebins)[i + 1] == timebins[i + 1]
    ensures i + 1 == |timebins| ==> FullTimebins(timebins)[i + 1] == timebins[i] + (timebins[1] - timebins[0])
  {
    var full := FullTimebins(timebins);
    assert full[i] == full[..|timebins|][i];
    if i + 1 < |timebins| {
      assert full[i + 1] == full[..|timebins|][i + 1];
    }
  }

  lemma {:induction false} MomentsAligned(time: seq<real>, lum: seq<seq<real>>, avg: seq<seq<real>>,
                       rms: seq<seq<real>>, timebins: seq<real>)
    requires ValidFluenceInput(time, lum, avg, rms, timebins)
    ensures AlignedVars(time, Moments(lum, avg, rms))
  {
  }

  /** Entry (i, k) of flavour class `Flavors[j]` is the fluence of bin i's
      slice in energy bin k for flavour position j. */
  lemma {:induction false} FluenceEntry(time: seq<real>, lum: seq<seq<real>>, avg: seq<seq<real>>,
                     rms: seq<seq<real>>, timebins: seq<real>, eBins: seq<real>,
                     binFluence: (BinSlice, seq<real>, nat, nat) -> real,
                     j: nat, i: nat, k: nat)
    requires ValidFluenceInput(time, lum, avg, rms, timebins)
    requires 2 <= |eBins| && 3 <= |lum[0]|
    requires WidthsFit(|lum[0]|, |avg[0]|, |rms[0]|)
    requires j < 3 && i < |timebins| && k < |eBins|
    ensures GetFluences(time, lum, avg, rms, timebins, eBins, binFluence).Success?
    ensures GetFluences(time, lum, avg, rms, timebins, eBins, binFluence).value[Flavors[j]][i][k]
         == binFluence(BinSliceOf(time, lum, avg, rms, timebins, i), eBins, j, k)
  {
    var r := GetFluences(time, lum, avg, rms, timebins, eBins, binFluence).value;
    assert r[Flavors[j]] == FlavorFluences(time, lum, avg, rms, timebins, eBins, binFluence, j);
  }

  // ---------------------------------------------------------------------
  // Pinch parameter
  // ---------------------------------------------------------------------

  /** get_alpha: the pinch parameter from mean and RMS energy. When avg^2
      equals rms^2 numpy's division yields inf or nan, modelled as `None`;
      otherwise alpha solves alpha * (avg^2 - rms^2) == rms^2 - 2 avg^2. */
  function GetAlpha(avg: real, rms: real): (r: Option<real>)
    ensures r.Some? <==> avg * avg != rms * rms
    ensures r.Some? ==> Times(r.value, avg * avg - rms * rms) == rms * rms - 2.0 * avg * avg
  {
    if avg * avg == rms * rms then None
    else Some((rms * rms - 2.0 * avg * avg) / (avg * avg - rms * rms))
  }

  lemma FractionPlusOne(n: real, d: real)
    requires d != 0.0
    ensures n / d + 1.0 == (n + d) / d
  {
    assert (n + d) / d == n / d + d / d;
  }

  /** alpha + 1 == avg^2 / (rms^2 - avg^2). */
  lemma AlphaPlusOne(avg: real, rms: real)
    requires avg * avg != rms * rms
    ensures GetAlpha(avg, rms).value + 1.0 == (avg * avg) / (rms * rms - avg * avg)
  {
    var a, r := avg * avg, rms * rms;
    FractionPlusOne(r - 2.0 * a, a - r);
    NegateFraction(a, r - a);
  }

  lemma NegateFraction(n: real, d: real)
    requires d != 0.0
    ensures (-n) / (-d) == n / d
  {
  }

  lemma QuotientSign(n: real, d: real)
    requires 0.0 < n && d != 0.0
    ensures n / d > 0.0 <==> d > 0.0
  {
  }

  /** For a non-zero mean energy the pinched spectrum's exponent stays above
      -1 exactly when rms^2 exceeds avg^2. */
  lemma AlphaAboveMinusOne(avg: real, rms: real)
    requires avg * avg != rms * rms
    requires avg != 0.0
    ensures GetAlpha(avg, rms).value > -1.0 <==> rms * rms > avg * avg
  {
    assert 0.0 < avg * avg;
    forall n: real, d: real {:trigger n / d} | 0.0 < n && d != 0.0
      ensures n / d > 0.0 <==> d > 0.0
    {
      QuotientSign(n, d);
    }
    AlphaPlusOne(avg, rms);
  }

  /** The formula as written equals the usual pinched-spectrum expression
      (2 <E>^2 - <E^2>) / (<E^2> - <E>^2) with <E^2> = rms^2: the signs of
      numerator and denominator are both flipped, so nothing is inverted. */
  lemma AlphaMatchesStandardForm(avg: real, rms: real)
    requires avg * avg != rms * rms
    ensures GetAlpha(avg, rms).value == (2.0 * avg * avg - rms * rms) / (rms * rms - avg * avg)
  {
    var a, r := avg * avg, rms * rms;
    NegateFraction(2.0 * a - r, r - a);
  }

  // ---------------------------------------------------------------------
  // Bin count
  // ---------------------------------------------------------------------

  datatype BinsError = ZeroBinSize | NegativeCount

  /** get_bins: how many points np.linspace returns. int() truncates the
      quotient toward zero, one more point is added with the endpoint; a
      zero bin size fails the division and a negative count makes linspace
      raise. */
  function GetBins(x0: real, x1: real, dx: real, endpoint: bool): (r: Result<nat, BinsError>)
    ensures r.Failure? <==> dx == 0.0 || Trunc((x1 - x0) / dx) + (if endpoint then 1 else 0) < 0
    ensures dx == 0.0 ==> r == Failure(ZeroBinSize)
  {
    if dx == 0.0 then Failure(ZeroBinSize)
    else
      var n := Trunc((x1 - x0) / dx) + (if endpoint then 1 else 0);
      if n < 0 then Failure(NegativeCount) else Success(n)
  }

  /** When the range and the bin size point the same way (a positive dx
      over x0 <= x1, or a negative dx over x1 <= x0), the count without the
      endpoint is the number of whole bins that fit:
      n * |dx| <= |x1 - x0| < (n + 1) * |dx|; the endpoint adds exactly one
      point. */
  lemma {:induction false} GetBinsCount(x0: real, x1: real, dx: real)
    requires dx != 0.0 && 0.0 <= (x1 - x0) * dx
    ensures GetBins(x0, x1, dx, false).Success?
    ensures GetBins(x0, x1, dx, true).Success?
    ensures var n := GetBins(x0, x1, dx, false).value;
      n as real * Abs(dx) <= Abs(x1 - x0) < (n as real + 1.0) * Abs(dx)
    ensures GetBins(x0, x1, dx, true).value == GetBins(x0, x1, dx, false).value + 1
  {
    var q := (x1 - x0) / dx;
    SameDirectionQuotient(x1 - x0, dx);
    var n := Trunc(q);
    QuotientLowerBound(Abs(x1 - x0), Abs(dx), n as real);
    QuotientUpperBound(Abs(x1 - x0), Abs(dx), n as real + 1.0);
    assert GetBins(x0, x1, dx, false) == Success(n);
  }

  /** When the range points against the bin size, int() truncates a
      negative quotient toward zero: without the endpoint a count exists
      (and is 0) only for a range shorter than one bin, with the endpoint
      only for a range shorter than two bins, and it is 1 exactly for a
      range shorter than one bin. */
  lemma {:induction false} GetBinsOpposite(x0: real, x1: real, dx: real)
    requires (x1 - x0) * dx < 0.0
    ensures GetBins(x0, x1, dx, false).Success? <==> Abs(x1 - x0) < Abs(dx)
    ensures GetBins(x0, x1, dx, false).Success? ==> GetBins(x0, x1, dx, false).value == 0
    ensures GetBins(x0, x1, dx, true).Success? <==> Abs(x1 - x0) < 2.0 * Abs(dx)
    ensures GetBins(x0, x1, dx, true).Success? ==>
      (GetBins(x0, x1, dx, true).value == 1 <==> Abs(x1 - x0) < Abs(dx))
  {
    var a, b := Abs(x1 - x0), Abs(dx);
    OppositeDirectionQuotient(x1 - x0, dx);
    var q := (x1 - x0) / dx;
    assert q == -(a / b);
    QuotientBelow(a, b, 1.0);
    QuotientBelow(a, b, 2.0);
  }

  /** For a and d of the same sign, a / d is |a| / |d| and not negative. */
  lemma SameDirectionQuotient(a: real, d: real)
    requires d != 0.0 && 0.0 <= a * d
    ensures a / d == Abs(a) / Abs(d) && 0.0 <= a / d
  {
    if d < 0.0 {
      assert a <= 0.0;
      assert a / d == (-a) / (-d);
    } else {
      assert 0.0 <= a;
    }
  }

  /** For a and d of opposite signs, a / d is -(|a| / |d|) and negative. */
  lemma OppositeDirectionQuotient(a: real, d: real)
    requires a * d < 0.0
    ensures d != 0.0 && a / d == -(Abs(a) / Abs(d)) && a / d < 0.0
  {
    if d < 0.0 {
      assert 0.0 < a;
      assert a / d == -(a / (-d));
    } else {
      assert a < 0.0;
      assert a / d == -((-a) / d);
    }
  }

  /** For a positive divisor, x / d < m exactly when x < m * d. */
  lemma QuotientBelow(x: real, d: real, m: real)
    requires 0.0 < d
    ensures x / d < m <==> x < m * d
  {
    assert (x / d) * d == x;
    if x / d < m {
      QuotientUpperBound(x, d, m);
    } else {
      QuotientLowerBound(x, d, m);
    }
  }

  lemma QuotientLowerBound(x: real, d: real, m: real)
    requires 0.0 < d
    requires m <= x / d
    ensures m * d <= x
  {
    assert (x / d) * d == x;
  }

  lemma QuotientUpperBound(x: real, d: real, m: real)
    requires 0.0 < d
    requires x / d < m
    ensures x < m * d
  {
    assert (x / d) * d == x;
  }
}
