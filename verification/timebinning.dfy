/** Cutting the raw simulation timesteps into one output time bin
    (slice_timebin in flash2snowglobes/convert.py). */
module TimeBinning {
  import opened Numeric
  import opened Interpolation

  /** The bin-local samples: times, and for each variable name its rows. */
  datatype BinSlice = BinSlice(t: seq<real>, y: map<string, seq<seq<real>>>)

  /** `a[[0, -1]] = [first, last]`: overwrite both endpoints. */
  function SetEnds<T>(s: seq<T>, first: T, last: T): (r: seq<T>)
    requires 2 <= |s|
    ensures |r| == |s|
    ensures r[0] == first && r[|r| - 1] == last
    ensures forall j :: 0 < j < |s| - 1 ==> r[j] == s[j]
    ensures r[1..|r| - 1] == s[1..|s| - 1]
  {
    [first] + s[1..|s| - 1] + [last]
  }

  /** The raw timesteps that fall in [left, right), in order: the reference
      definition of a bin's interior, independent of any index search. */
  function InBin(s: seq<real>, left: real, right: real): seq<real>
  {
    if |s| == 0 then []
    else (if left <= s[0] < right then [s[0]] else []) + InBin(s[1..], left, right)
  }

  /** Admissible bin edges: strictly inside the raw time range on the left
      (left == time[0] would make numpy wrap i_left - 1 to the last
      timestep) and no later than the last timestep on the right (a later
      edge would index past the end). */
  ghost predicate ValidEdges(time: seq<real>, left: real, right: real)
    requires 1 <= |time|
  {
    time[0] < left < right <= time[|time| - 1]
  }

  /** Every variable is aligned with `time`. */
  ghost predicate AlignedVars(time: seq<real>, vars: map<string, seq<seq<real>>>) {
    forall v :: v in vars ==> Aligned(time, vars[v])
  }

  /** The two searchsorted indices of the bin edges and the facts the slice
      relies on: 1 <= i_left <= i_right <= |time| - 1. */
  lemma {:induction false} EdgeIndices(time: seq<real>, left: real, right: real)
    requires 2 <= |time| && StrictlyIncreasing(time)
    requires ValidEdges(time, left, right)
    ensures 1 <= SearchSorted(time, left) <= SearchSorted(time, right) <= |time| - 1
  {
    var iL, iR := SearchSorted(time, left), SearchSorted(time, right);
    SearchSortedSplits(time, left);
  }

  /** slice_timebin: take time[i_left - 1 .. i_right] (one raw neighbour
      on each side of the bin), then overwrite the first and last entries
      with the exact bin edges, and the first and last rows of every
      variable with the values interpolated at those edges. */
  function SliceTimebin(left: real, right: real, time: seq<real>,
                        vars: map<string, seq<seq<real>>>): (r: BinSlice)
    requires 2 <= |time| && StrictlyIncreasing(time)
    requires ValidEdges(time, left, right)
    requires AlignedVars(time, vars)
    ensures 2 <= |r.t|
    ensures r.y.Keys == vars.Keys
  {
    BinSlice(SliceTime(left, right, time), map v | v in vars :: SliceVar(left, right, time, vars[v]))
  }

  /** The time samples of the slice: raw timesteps i_left - 1 .. i_right
      with the two ends replaced by the bin edges. */
  function SliceTime(left: real, right: real, time: seq<real>): (r: seq<real>)
    requires 2 <= |time| && StrictlyIncreasing(time)
    requires ValidEdges(time, left, right)
    ensures |r| == SearchSorted(time, right) - SearchSorted(time, left) + 2
    ensures r[0] == left && r[|r| - 1] == right
    ensures forall j :: 0 < j < |r| - 1 ==> r[j] == time[SearchSorted(time, left) - 1 + j]
  {
    EdgeIndices(time, left, right);
    var iL := SearchSorted(time, left);
    var iR := SearchSorted(time, right);
    SetEnds(time[iL - 1..iR + 1], left, right)
  }

  /** One variable of the slice: its raw rows i_left - 1 .. i_right with
      the two end rows replaced by the values interpolated at the edges. */
  function SliceVar(left: real, right: real, time: seq<real>, y: seq<seq<real>>): (r: seq<seq<real>>)
    requires Aligned(time, y)
    requires ValidEdges(time, left, right)
    ensures |r| == SearchSorted(time, right) - SearchSorted(time, left) + 2
    ensures r[0] == Interpolate(time, y, left).value
    ensures r[|r| - 1] == Interpolate(time, y, right).value
    ensures forall j :: 0 < j < |r| - 1 ==> r[j] == y[SearchSorted(time, left) - 1 + j]
  {
    EdgeIndices(time, left, right);
    var iL := SearchSorted(time, left);
    var iR := SearchSorted(time, right);
    SetEnds(y[iL - 1..iR + 1], Interpolate(time, y, left).value, Interpolate(time, y, right).value)
  }

  // ---------------------------------------------------------------------
  // Properties of the slice
  // ---------------------------------------------------------------------

  /** On a sorted series the filter definition and the index-search
      definition of the bin interior agree. */
  lemma {:induction false} InBinIsSearchSlice(s: seq<real>, left: real, right: real)
    requires StrictlyIncreasing(s)
    requires left <= right
    ensures SearchSorted(s, left) <= SearchSorted(s, right)
    ensures InBin(s, left, right) == s[SearchSorted(s, left)..SearchSorted(s, right)]
  {
    StepIncreasing(s);
    InBinIsSearchSliceStep(s, left, right);
  }

  /** Each entry is above the one before it. */
  ghost predicate StepwiseIncreasing(s: seq<real>) {
    forall i :: 0 < i < |s| ==> s[i - 1] < s[i]
  }

  lemma {:induction false} StepIncreasing(s: seq<real>)
    requires StrictlyIncreasing(s)
    ensures StepwiseIncreasing(s)
  {
  }

  lemma {:induction false} InBinIsSearchSliceStep(s: seq<real>, left: real, right: real)
    requires StepwiseIncreasing(s)
    requires left <= right
    ensures SearchSorted(s, left) <= SearchSorted(s, right)
    ensures InBin(s, left, right) == s[SearchSorted(s, left)..SearchSorted(s, right)]
    decreases |s|
  {
    if |s| > 0 {
      var s' := s[1..];
      assert StepwiseIncreasing(s') by {
        forall i | 0 < i < |s'|
          ensures s'[i - 1] < s'[i]
        {
          assert s[i] < s[i + 1];
        }
      }
      InBinIsSearchSliceStep(s', left, right);
      if s[0] < left {
        InBinBelowLeft(s, left, right);
      } else {
        InBinFromHead(s, left, right);
      }
    }
  }

  /** Induction step for a head sample before the bin: it is skipped, and
      both insertion points move by one. */
  lemma {:induction false} InBinBelowLeft(s: seq<real>, left: real, right: real)
    requires 0 < |s| && s[0] < left <= right
    requires SearchSorted(s[1..], left) <= SearchSorted(s[1..], right)
    requires InBin(s[1..], left, right) == s[1..][SearchSorted(s[1..], left)..SearchSorted(s[1..], right)]
    ensures SearchSorted(s, left) <= SearchSorted(s, right)
    ensures InBin(s, left, right) == s[SearchSorted(s, left)..SearchSorted(s, right)]
  {
    var s' := s[1..];
    var iL', iR' := SearchSorted(s', left), SearchSorted(s', right);
    assert iR' <= |s'|;
    assert s[1 + iL'..1 + iR'] == s'[iL'..iR'];
  }

  /** Induction step for a head sample at or after the left edge: on an
      increasing series the left insertion point is 0, and the head is
      kept exactly when it is before the right edge. */
  lemma {:induction false} InBinFromHead(s: seq<real>, left: real, right: real)
    requires 0 < |s| && left <= s[0] && left <= right
    requires 1 < |s| ==> s[0] < s[1]
    requires SearchSorted(s[1..], left) <= SearchSorted(s[1..], right)
    requires InBin(s[1..], left, right) == s[1..][SearchSorted(s[1..], left)..SearchSorted(s[1..], right)]
    ensures SearchSorted(s, left) <= SearchSorted(s, right)
    ensures InBin(s, left, right) == s[SearchSorted(s, left)..SearchSorted(s, right)]
  {
    var s' := s[1..];
    var iR' := SearchSorted(s', right);
    assert SearchSorted(s', left) == 0;
    if s[0] < right {
      assert s[0..1 + iR'] == [s[0]] + s'[0..iR'];
    } else {
      assert iR' == 0;
    }
  }

  /** The two halves of slice_timebin's result, one at a time. */
  lemma {:induction false} SliceParts(left: real, right: real, time: seq<real>, vars: map<string, seq<seq<real>>>)
    requires 2 <= |time| && StrictlyIncreasing(time)
    requires ValidEdges(time, left, right)
    requires AlignedVars(time, vars)
    ensures 1 <= SearchSorted(time, left) <= SearchSorted(time, right) <= |time| - 1
    ensures var iL, iR := SearchSorted(time, left), SearchSorted(time, right);
      var r := SliceTimebin(left, right, time, vars);
      && r.t == SetEnds(time[iL - 1..iR + 1], left, right)
  {
    EdgeIndices(time, left, right);
  }

  lemma {:induction false} SliceVarPart(left: real, right: real, time: seq<real>, vars: map<string, seq<seq<real>>>, v: string)
    requires 2 <= |time| && StrictlyIncreasing(time)
    requires ValidEdges(time, left, right)
    requires AlignedVars(time, vars)
    requires v in vars
    ensures 1 <= SearchSorted(time, left) <= SearchSorted(time, right) <= |time| - 1
    ensures var iL, iR := SearchSorted(time, left), SearchSorted(time, right);
      SliceTimebin(left, right, time, vars).y[v]
        == SetEnds(vars[v][iL - 1..iR + 1], Interpolate(time, vars[v], left).value, Interpolate(time, vars[v], right).value)
  {
    EdgeIndices(time, left, right);
    assert SliceTimebin(left, right, time, vars).y[v] == SliceVar(left, right, time, vars[v]);
    SliceVarWindow(left, right, time, vars[v]);
  }

  lemma {:induction false} SliceVarWindow(left: real, right: real, time: seq<real>, y: seq<seq<real>>)
    requires Aligned(time, y)
    requires ValidEdges(time, left, right)
    ensures 1 <= SearchSorted(time, left) <= SearchSorted(time, right) <= |time| - 1
    ensures var iL, iR := SearchSorted(time, left), SearchSorted(time, right);
      SliceVar(left, right, time, y)
        == SetEnds(y[iL - 1..iR + 1], Interpolate(time, y, left).value, Interpolate(time, y, right).value)
  {
    EdgeIndices(time, left, right);
  }

  /** A bin's time samples start and end exactly at its edges. */
  lemma {:induction false} SliceEdges(left: real, right: real, time: seq<real>, vars: map<string, seq<seq<real>>>)
    requires 2 <= |time| && StrictlyIncreasing(time)
    requires ValidEdges(time, left, right)
    requires AlignedVars(time, vars)
    ensures var r := SliceTimebin(left, right, time, vars);
      r.t[0] == left && r.t[|r.t| - 1] == right
  {
    SliceParts(left, right, time, vars);
  }

  /** Dropping the ends of s[a - 1..b + 1] leaves s[a..b]. */
  lemma {:induction false} WidenedSliceInterior<T>(s: seq<T>, a: nat, b: nat)
    requires 1 <= a <= b < |s|
    ensures s[a - 1..b + 1][1..b - a + 1] == s[a..b]
  {
    var w := s[a - 1..b + 1];
    var m := w[1..b - a + 1];
    forall k | 0 <= k < b - a
      ensures m[k] == s[a..b][k]
    {
      assert m[k] == w[k + 1];
    }
  }

  /** The time slice of a bin: it holds i_right - i_left + 2 entries, starts
      and ends exactly at the bin edges, and its interior is exactly the raw
      timesteps in [left, right), in order. */
  lemma {:induction false} SliceTimes(left: real, right: real, time: seq<real>, vars: map<string, seq<seq<real>>>)
    requires 2 <= |time| && StrictlyIncreasing(time)
    requires ValidEdges(time, left, right)
    requires AlignedVars(time, vars)
    ensures var r := SliceTimebin(left, right, time, vars);
      && |r.t| == SearchSorted(time, right) - SearchSorted(time, left) + 2
      && r.t[0] == left
      && r.t[|r.t| - 1] == right
      && r.t[1..|r.t| - 1] == InBin(time, left, right)
  {
    EdgeIndices(time, left, right);
    var iL, iR := SearchSorted(time, left), SearchSorted(time, right);
    var r := SliceTimebin(left, right, time, vars);
    assert r.t == SetEnds(time[iL - 1..iR + 1], left, right) by {
      SliceParts(left, right, time, vars);
    }
    assert InBin(time, left, right) == time[iL..iR] by {
      InBinIsSearchSlice(time, left, right);
    }
    SetEndsInterior(time, iL, iR, left, right);
  }

  /** Overwriting the ends of time[a - 1..b + 1] keeps time[a..b] inside. */
  lemma {:induction false} SetEndsInterior(time: seq<real>, a: nat, b: nat, left: real, right: real)
    requires 1 <= a <= b < |time|
    ensures var w := SetEnds(time[a - 1..b + 1], left, right);
      && |w| == b - a + 2
      && w[0] == left && w[|w| - 1] == right
      && w[1..|w| - 1] == time[a..b]
  {
    WidenedSliceInterior(time, a, b);
  }

  /** The end rows of a bin's variable are the values interpolated at the
      bin edges, not the raw neighbouring rows, and the variable has one row
      per time sample. */
  lemma {:induction false} SliceEndValues(left: real, right: real, time: seq<real>,
                       vars: map<string, seq<seq<real>>>, v: string)
    requires 2 <= |time| && StrictlyIncreasing(time)
    requires ValidEdges(time, left, right)
    requires AlignedVars(time, vars)
    requires v in vars
    ensures var r := SliceTimebin(left, right, time, vars);
      && |r.y[v]| == |r.t|
      && r.y[v][0] == Interpolate(time, vars[v], left).value
      && r.y[v][|r.t| - 1] == Interpolate(time, vars[v], right).value
  {
  }

  /** Each interior sample of a bin is a raw sample, time and row together:
      position j of the slice holds timestep i_left - 1 + j unchanged. */
  lemma {:induction false} SliceInteriorValues(left: real, right: real, time: seq<real>,
                            vars: map<string, seq<seq<real>>>, v: string, j: nat)
    requires 2 <= |time| && StrictlyIncreasing(time)
    requires ValidEdges(time, left, right)
    requires AlignedVars(time, vars)
    requires v in vars
    requires 0 < j < |SliceTimebin(left, right, time, vars).t| - 1
    ensures var k := SearchSorted(time, left) - 1 + j;
      && 0 <= k < |time|
      && SliceTimebin(left, right, time, vars).t[j] == time[k]
      && SliceTimebin(left, right, time, vars).y[v][j] == vars[v][k]
  {
    var r := SliceTimebin(left, right, time, vars);
    assert r.t == SliceTime(left, right, time);
    assert r.y[v] == SliceVar(left, right, time, vars[v]);
  }

  /** When a bin edge coincides with a raw timestep, the interpolated end
      row is exactly that timestep's raw row. */
  lemma {:induction false} SliceEdgeOnTimestep(left: real, right: real, time: seq<real>,
                            vars: map<string, seq<seq<real>>>, v: string, k: nat)
    requires 2 <= |time| && StrictlyIncreasing(time)
    requires ValidEdges(time, left, right)
    requires AlignedVars(time, vars)
    requires v in vars
    requires k < |time|
    ensures left == time[k] ==> SliceTimebin(left, right, time, vars).y[v][0] == vars[v][k]
    ensures right == time[k] ==>
      var r := SliceTimebin(left, right, time, vars);
      r.y[v][|r.t| - 1] == vars[v][k]
  {
    EdgeIndices(time, left, right);
    InterpolateAtTimestep(time, vars[v], k);
  }
}
