/** Linear interpolation of a time series (interpolate_time in
    flash2snowglobes/convert.py), built on numpy's left-sided searchsorted. */
module Interpolation {
  import opened Numeric

  /** np.searchsorted(a, v) with side='left': the first index whose entry is
      not below `v`, or |a| when every entry is below it. */
  function SearchSorted(a: seq<real>, v: real): (i: nat)
    ensures i <= |a|
    ensures forall j :: 0 <= j < i ==> a[j] < v
    ensures i < |a| ==> v <= a[i]
  {
    if |a| == 0 || v <= a[0] then 0 else 1 + SearchSorted(a[1..], v)
  }

  /** The two properties in SearchSorted's contract pin its result down. */
  lemma {:induction false} SearchSortedUnique(a: seq<real>, v: real, i: nat)
    requires i <= |a|
    requires forall j :: 0 <= j < i ==> a[j] < v
    requires i < |a| ==> v <= a[i]
    ensures SearchSorted(a, v) == i
  {
    if i > 0 {
      SearchSortedUnique(a[1..], v, i - 1);
    }
  }

  /** On a sorted array every entry from the insertion point on is at least
      `v`, so the insertion point splits the array in two. */
  lemma {:induction false} SearchSortedSplits(a: seq<real>, v: real)
    requires StrictlyIncreasing(a)
    ensures forall j :: SearchSorted(a, v) <= j < |a| ==> v <= a[j]
  {
  }

  /** The binary search numpy performs, proved to return the same index as
      the linear definition on strictly increasing input. */
  method BinarySearchLeft(a: seq<real>, v: real) returns (lo: nat)
    requires StrictlyIncreasing(a)
    ensures lo == SearchSorted(a, v)
  {
    lo := 0;
    var hi := |a|;
    while lo < hi
      invariant lo <= hi <= |a|
      invariant forall j :: 0 <= j < lo ==> a[j] < v
      invariant forall j :: hi <= j < |a| ==> v <= a[j]
      decreases hi - lo
    {
      var mid := lo + (hi - lo) / 2;
      if a[mid] < v {
        lo := mid + 1;
      } else {
        hi := mid;
      }
    }
    SearchSortedUnique(a, v, lo);
  }

  /** A query strictly after time[i-1] and no later than time[i] lands on
      index i: the search is right-closed. */
  lemma {:induction false} SearchSortedInterval(a: seq<real>, v: real, i: nat)
    requires StrictlyIncreasing(a)
    requires 1 <= i < |a|
    requires a[i - 1] < v <= a[i]
    ensures SearchSorted(a, v) == i
  {
    SearchSortedUnique(a, v, i);
  }

  /** Python's indexing of a sequence of length n: -1 is the last entry. */
  function PyIndex(n: nat, i: int): (k: nat)
    requires -(n as int) <= i < n
    ensures k < n
    ensures 0 <= i ==> k == i
    ensures i < 0 ==> k == n + i
  {
    if i < 0 then n + i else i
  }

  /** The interpolation formula of convert.py, between (t0, y0) and (t1, y1):
      it passes through both points. */
  function Lerp(y0: real, y1: real, t0: real, t1: real, t: real): (r: real)
    requires t0 != t1
    ensures t == t0 ==> r == y0
    ensures t == t1 ==> r == y1
  {
    assert t == t0 ==> y0 * (t1 - t) + y1 * (t - t0) == y0 * (t1 - t0);
    assert t == t1 ==> y0 * (t1 - t) + y1 * (t - t0) == y1 * (t1 - t0);
    (y0 * (t1 - t) + y1 * (t - t0)) / (t1 - t0)
  }

  /** A value array read against its timesteps: strictly increasing times,
      one row per timestep, all rows as wide as the first. */
  ghost predicate Series(time: seq<real>, y: seq<seq<real>>) {
    && StrictlyIncreasing(time)
    && |y| == |time|
    && forall i :: 0 <= i < |y| ==> |y[i]| == |y[0]|
  }

  /** A series with at least two timesteps, which is what slicing a time bin
      out of it needs. */
  ghost predicate Aligned(time: seq<real>, y: seq<seq<real>>) {
    2 <= |time| && Series(time, y)
  }

  /** How interpolate_time can go wrong: a query after the last timestep
      makes numpy index past the end of the arrays, and a series of one
      timestep puts both neighbours on the same time, so the formula is
      0 / 0 and every entry comes out as nan. */
  datatype InterpError = IndexOutOfRange | NotANumber

  /** interpolate_time at one query time. The left neighbour is index
      i_right - 1, which numpy reads as the last entry when i_right is 0. */
  function Interpolate(time: seq<real>, y: seq<seq<real>>, t: real): (r: Result<seq<real>, InterpError>)
    requires Series(time, y)
    ensures r == Failure(IndexOutOfRange) <==> |time| == 0 || time[|time| - 1] < t
    ensures r == Failure(NotANumber) <==> |time| == 1 && t <= time[0]
    ensures r.Success? <==> 2 <= |time| && t <= time[|time| - 1]
    ensures r.Success? ==> |r.value| == |y[0]|
  {
    var n := |time|;
    var iRight := SearchSorted(time, t);
    if iRight == n then
      Failure(IndexOutOfRange)
    else
      var iLeft := PyIndex(n, iRight as int - 1);
      NeighboursApart(time, t);
      if time[iLeft] == time[iRight] then
        Failure(NotANumber)
      else
        Success(seq(|y[0]|, j requires 0 <= j < |y[0]| =>
          Lerp(y[iLeft][j], y[iRight][j], time[iLeft], time[iRight], t)))
  }

  // ---------------------------------------------------------------------
  // Properties of the interpolation
  // ---------------------------------------------------------------------

  /** Querying exactly at a stored timestep returns the stored row. For
      k >= 1 the search lands on k itself; for k == 0 it lands on 0 and the
      left neighbour wraps to the last timestep, and the formula still
      yields y[0]. */
  lemma {:induction false} InterpolateAtTimestep(time: seq<real>, y: seq<seq<real>>, k: nat)
    requires Aligned(time, y)
    requires k < |time|
    ensures Interpolate(time, y, time[k]) == Success(y[k])
  {
    SearchSortedUnique(time, time[k], k);
    var r := Interpolate(time, y, time[k]).value;
    assert |r| == |y[k]|;
    forall j | 0 <= j < |y[0]|
      ensures r[j] == y[k][j]
    {
    }
    assert r == y[k];
  }

  /** Between two timesteps the result is the convex combination
      (1 - lambda) * y[i-1] + lambda * y[i] with lambda strictly between 0
      and 1, so each entry lies between its two neighbours' values. */
  lemma {:induction false} InterpolateBetween(time: seq<real>, y: seq<seq<real>>, i: nat, t: real)
    requires Aligned(time, y)
    requires 1 <= i < |time|
    requires time[i - 1] < t < time[i]
    ensures var lambda := (t - time[i - 1]) / (time[i] - time[i - 1]);
      0.0 < lambda < 1.0
    ensures Interpolate(time, y, t).Success?
    ensures forall j :: 0 <= j < |y[0]| ==>
      Interpolate(time, y, t).value[j] == Lerp(y[i - 1][j], y[i][j], time[i - 1], time[i], t)
    ensures forall j :: 0 <= j < |y[0]| ==>
      LerpFacts(y[i - 1][j], y[i][j], time[i - 1], time[i], t)
  {
    SearchSortedInterval(time, t, i);
    var r := Interpolate(time, y, t).value;
    var t0, t1 := time[i - 1], time[i];
    LerpConvex(0.0, 0.0, t0, t1, t);
    forall j | 0 <= j < |y[0]|
      ensures r[j] == Lerp(y[i - 1][j], y[i][j], t0, t1, t)
    {
    }
    forall j | 0 <= j < |y[0]|
      ensures LerpFacts(y[i - 1][j], y[i][j], t0, t1, t)
    {
      LerpConvex(y[i - 1][j], y[i][j], t0, t1, t);
    }
  }

  /** Lerp at a time strictly inside (t0, t1) is the convex combination
      (1 - lambda) * y0 + lambda * y1 with 0 < lambda < 1, and lies between
      y0 and y1. */
  ghost predicate LerpFacts(y0: real, y1: real, t0: real, t1: real, t: real)
    requires t0 < t1
  {
    var lambda := (t - t0) / (t1 - t0);
    && Lerp(y0, y1, t0, t1, t) == (1.0 - lambda) * y0 + lambda * y1
    && (y0 <= y1 ==> y0 <= Lerp(y0, y1, t0, t1, t) <= y1)
    && (y1 <= y0 ==> y1 <= Lerp(y0, y1, t0, t1, t) <= y0)
  }

  lemma LerpConvex(y0: real, y1: real, t0: real, t1: real, t: real)
    requires t0 < t < t1
    ensures 0.0 < (t - t0) / (t1 - t0) < 1.0
    ensures LerpFacts(y0, y1, t0, t1, t)
  {
    var a, b := t - t0, t1 - t;
    var d := t1 - t0;
    assert d == a + b;
    var lambda := a / d;
    var mu := b / d;
    assert lambda + mu == 1.0 by {
      assert a / d + b / d == (a + b) / d;
    }
    assert 0.0 < lambda && 0.0 < mu;
    assert Lerp(y0, y1, t0, t1, t) == y0 * mu + y1 * lambda by {
      assert (y0 * b + y1 * a) / d == y0 * b / d + y1 * a / d;
    }
  }

  /** A series that is the same row at every timestep interpolates to that
      row at any admissible query time. */
  lemma {:induction false} InterpolateConstant(time: seq<real>, y: seq<seq<real>>, c: seq<real>, t: real)
    requires Aligned(time, y)
    requires t <= time[|time| - 1]
    requires forall i :: 0 <= i < |y| ==> y[i] == c
    ensures Interpolate(time, y, t) == Success(c)
  {
    var n := |time|;
    var iRight := SearchSorted(time, t);
    var iLeft := PyIndex(n, iRight as int - 1);
    NeighboursApart(time, t);
    var r := Interpolate(time, y, t).value;
    assert |r| == |c|;
    forall j | 0 <= j < |c|
      ensures r[j] == c[j]
    {
      LerpConstant(c[j], time[iLeft], time[iRight], t);
    }
    assert r == c;
  }

  lemma LerpConstant(c: real, t0: real, t1: real, t: real)
    requires t0 != t1
    ensures Lerp(c, c, t0, t1, t) == c
  {
    assert c * (t1 - t) + c * (t - t0) == c * (t1 - t0);
  }

  /** The two rows interpolate_time reads sit at distinct times exactly
      when the series has at least two timesteps; with one timestep both
      neighbours are that timestep. */
  lemma {:induction false} NeighboursApart(time: seq<real>, t: real)
    requires StrictlyIncreasing(time)
    requires SearchSorted(time, t) < |time|
    ensures var iRight := SearchSorted(time, t);
      time[PyIndex(|time|, iRight as int - 1)] != time[iRight] <==> 2 <= |time|
  {
    var n := |time|;
    var iRight := SearchSorted(time, t);
    if iRight == 0 {
      if 2 <= n {
        assert time[0] < time[n - 1];
      }
    } else {
      assert time[iRight - 1] < time[iRight];
    }
  }
}
