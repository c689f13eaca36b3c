/** Exact-arithmetic stand-ins for the numpy reductions the pipeline uses:
    sums (np.sum), element-wise accumulation of arrays (counts += ...),
    count-weighted sums, and Python's int() truncation. Every number is a
    Dafny `real`; IEEE rounding is not modelled. */
module Numeric {

  /** A value that may be missing; `None` stands for the non-finite result
      (nan or inf) numpy produces when it divides by zero. */
  datatype Option<+T> = None | Some(value: T)

  /** The outcome of an operation the source can abort with an exception. */
  datatype Result<+T, +E> = Success(value: T) | Failure(error: E)

  ghost predicate StrictlyIncreasing(s: seq<real>) {
    forall i, j :: 0 <= i < j < |s| ==> s[i] < s[j]
  }

  /** Every row of `rows` has exactly `n` entries (a 2-D numpy array). */
  ghost predicate Rectangular(rows: seq<seq<real>>, n: nat) {
    forall i :: 0 <= i < |rows| ==> |rows[i]| == n
  }

  ghost predicate AllNonNegative(s: seq<real>) {
    forall i :: 0 <= i < |s| ==> 0.0 <= s[i]
  }

  /** Sum of a sequence, accumulated left to right. */
  function Sum(s: seq<real>): real
  {
    if |s| == 0 then 0.0 else Sum(s[..|s| - 1]) + s[|s| - 1]
  }

  /** Element-wise product of two equally long sequences. */
  function Mul(a: seq<real>, b: seq<real>): (r: seq<real>)
    requires |a| == |b|
    ensures |r| == |a|
    ensures forall i :: 0 <= i < |a| ==> r[i] == a[i] * b[i]
  {
    seq(|a|, i requires 0 <= i < |a| => a[i] * b[i])
  }

  /** np.sum(a * b). */
  function Dot(a: seq<real>, b: seq<real>): real
    requires |a| == |b|
  {
    Sum(Mul(a, b))
  }

  function Zeros(n: nat): (r: seq<real>)
    ensures |r| == n
    ensures forall i :: 0 <= i < n ==> r[i] == 0.0
  {
    seq(n, i => 0.0)
  }

  /** Element-wise sum of two equally long arrays (numpy `a + b`). */
  function Add(a: seq<real>, b: seq<real>): (r: seq<real>)
    requires |a| == |b|
    ensures |r| == |a|
    ensures forall i :: 0 <= i < |a| ==> r[i] == a[i] + b[i]
  {
    seq(|a|, i requires 0 <= i < |a| => a[i] + b[i])
  }

  /** Entry `e` of every row. */
  function Column(rows: seq<seq<real>>, e: nat): (r: seq<real>)
    requires forall i :: 0 <= i < |rows| ==> e < |rows[i]|
    ensures |r| == |rows|
    ensures forall i :: 0 <= i < |rows| ==> r[i] == rows[i][e]
  {
    seq(|rows|, i requires 0 <= i < |rows| => rows[i][e])
  }

  /** The sum of each row. */
  function RowSums(rows: seq<seq<real>>): (r: seq<real>)
    ensures |r| == |rows|
    ensures forall i :: 0 <= i < |rows| ==> r[i] == Sum(rows[i])
  {
    seq(|rows|, i requires 0 <= i < |rows| => Sum(rows[i]))
  }

  /** Arrays of length `n` accumulated one after another into a zero
      array, the way `counts = np.zeros(n); counts += a` does. */
  function SumArrays(rows: seq<seq<real>>, n: nat): (r: seq<real>)
    requires Rectangular(rows, n)
    ensures |r| == n
  {
    if |rows| == 0 then Zeros(n)
    else Add(SumArrays(rows[..|rows| - 1], n), rows[|rows| - 1])
  }

  /** Multiplication as a named function. Lemmas that relate a product of
      sums to other sums state it through `Times`, so that callers match
      the product by name. */
  function Times(a: real, b: real): real
  {
    a * b
  }

  /** Python's int() on a float: truncation toward zero. */
  function Trunc(x: real): (r: int)
    ensures 0.0 <= x ==> r as real <= x < r as real + 1.0
    ensures x < 0.0 ==> r as real - 1.0 < x <= r as real
  {
    if 0.0 <= x then x.Floor else -((-x).Floor)
  }

  /** The absolute value of a real. */
  function Abs(x: real): (r: real)
    ensures 0.0 <= r && (r == x || r == -x)
  {
    if x < 0.0 then -x else x
  }

  // ---------------------------------------------------------------------
  // Sum lemmas
  // ---------------------------------------------------------------------

  /** A non-empty sequence is its head followed by its tail. */
  lemma HeadTail<T>(s: seq<T>)
    requires 0 < |s|
    ensures [s[0]] + s[1..] == s
  {
    assert forall k :: 0 <= k < |s| ==> ([s[0]] + s[1..])[k] == s[k];
  }

  lemma {:induction false} SumPrefixStep(s: seq<real>, k: nat)
    requires k < |s|
    ensures Sum(s[..k + 1]) == Sum(s[..k]) + s[k]
  {
    assert s[..k + 1][..k] == s[..k];
  }

  lemma {:induction false} SumAppend(a: seq<real>, b: seq<real>)
    ensures Sum(a + b) == Sum(a) + Sum(b)
    decreases |b|
  {
    if |b| == 0 {
      assert a + b == a;
    } else {
      var b' := b[..|b| - 1];
      assert (a + b)[..|a + b| - 1] == a + b';
      SumAppend(a, b');
    }
  }

  lemma {:induction false} SumAdd(a: seq<real>, b: seq<real>)
    requires |a| == |b|
    ensures Sum(Add(a, b)) == Sum(a) + Sum(b)
    decreases |a|
  {
    if |a| > 0 {
      var n := |a| - 1;
      assert Add(a, b)[..n] == Add(a[..n], b[..n]);
      SumAdd(a[..n], b[..n]);
    }
  }

  lemma {:induction false} SumZeros(n: nat)
    ensures Sum(Zeros(n)) == 0.0
  {
    if n > 0 {
      assert Zeros(n)[..n - 1] == Zeros(n - 1);
      SumZeros(n - 1);
    }
  }

  lemma {:induction false} SumNonNegative(s: seq<real>)
    requires AllNonNegative(s)
    ensures 0.0 <= Sum(s)
    decreases |s|
  {
    if |s| > 0 {
      SumNonNegative(s[..|s| - 1]);
    }
  }

  /** Summing a constant `c` over `n` entries gives `n * c`. */
  lemma {:induction false} SumConstant(s: seq<real>, c: real)
    requires forall i :: 0 <= i < |s| ==> s[i] == c
    ensures Sum(s) == |s| as real * c
    decreases |s|
  {
    if |s| > 0 {
      SumConstant(s[..|s| - 1], c);
    }
  }

  /** Dividing every entry by `d` divides the sum by `d`. */
  lemma {:induction false} SumDivide(s: seq<real>, q: seq<real>, d: real)
    requires d != 0.0
    requires |q| == |s|
    requires forall i :: 0 <= i < |s| ==> q[i] == s[i] / d
    ensures Sum(q) == Sum(s) / d
    decreases |s|
  {
    if |s| > 0 {
      var n := |s| - 1;
      SumDivide(s[..n], q[..n], d);
      assert Sum(q) == Sum(s[..n]) / d + s[n] / d;
    }
  }

  /** Sequences that agree entry by entry have the same sum. */
  lemma {:induction false} SumExtensional(a: seq<real>, b: seq<real>)
    requires |a| == |b|
    requires forall i :: 0 <= i < |a| ==> a[i] == b[i]
    ensures Sum(a) == Sum(b)
  {
    assert a == b;
  }

  lemma {:induction false} DotPrefixStep(v: seq<real>, w: seq<real>, n: nat)
    requires |v| == |w| == n + 1
    ensures Dot(v, w) == Dot(v[..n], w[..n]) + v[n] * w[n]
  {
    var m := Mul(v, w);
    assert forall i :: 0 <= i < n ==> m[..n][i] == Mul(v[..n], w[..n])[i];
    assert m[..n] == Mul(v[..n], w[..n]);
  }

  /** A count-weighted sum of a constant value `c` is `c` times the total
      weight. */
  lemma {:induction false} DotConstant(v: seq<real>, w: seq<real>, c: real)
    requires |v| == |w|
    requires forall i :: 0 <= i < |v| ==> v[i] == c
    ensures Dot(v, w) == c * Sum(w)
    decreases |v|
  {
    if |v| > 0 {
      var n := |v| - 1;
      DotPrefixStep(v, w, n);
      DotConstant(v[..n], w[..n], c);
      assert c * Sum(w) == c * Sum(w[..n]) + c * w[n];
    }
  }

  /** With non-negative weights, a weighted sum of values in [lo, hi] lies
      between lo and hi times the total weight. */
  lemma {:induction false} DotBounds(v: seq<real>, w: seq<real>, lo: real, hi: real)
    requires |v| == |w|
    requires AllNonNegative(w)
    requires forall i :: 0 <= i < |v| ==> lo <= v[i] <= hi
    ensures lo * Sum(w) <= Dot(v, w) <= hi * Sum(w)
  {
    DotAtLeast(v, w, lo);
    DotAtMost(v, w, hi);
  }

  lemma {:induction false} DotAtLeast(v: seq<real>, w: seq<real>, lo: real)
    requires |v| == |w|
    requires AllNonNegative(w)
    requires forall i :: 0 <= i < |v| ==> lo <= v[i]
    ensures lo * Sum(w) <= Dot(v, w)
  {
    var low := seq(|v|, i => lo);
    DotConstant(low, w, lo);
    DotMonotone(low, v, w);
  }

  lemma {:induction false} DotAtMost(v: seq<real>, w: seq<real>, hi: real)
    requires |v| == |w|
    requires AllNonNegative(w)
    requires forall i :: 0 <= i < |v| ==> v[i] <= hi
    ensures Dot(v, w) <= hi * Sum(w)
  {
    var high := seq(|v|, i => hi);
    DotConstant(high, w, hi);
    DotMonotone(v, high, w);
  }

  /** With non-negative weights, raising values entry by entry never lowers
      their weighted sum. */
  lemma {:induction false} DotMonotone(u: seq<real>, v: seq<real>, w: seq<real>)
    requires |u| == |v| == |w|
    requires AllNonNegative(w)
    requires forall i :: 0 <= i < |u| ==> u[i] <= v[i]
    ensures Dot(u, w) <= Dot(v, w)
    decreases |u|
  {
    if |u| > 0 {
      var n := |u| - 1;
      assert Dot(u[..n], w[..n]) <= Dot(v[..n], w[..n]) by {
        DotMonotone(u[..n], v[..n], w[..n]);
      }
      assert Dot(u, w) == Dot(u[..n], w[..n]) + u[n] * w[n] by {
        DotPrefixStep(u, w, n);
      }
      assert Dot(v, w) == Dot(v[..n], w[..n]) + v[n] * w[n] by {
        DotPrefixStep(v, w, n);
      }
      ScaleMonotone(u[n], v[n], w[n]);
    }
  }

  lemma ScaleMonotone(x: real, y: real, w: real)
    requires 0.0 <= w && x <= y
    ensures x * w <= y * w
  {
  }

  // ---------------------------------------------------------------------
  // Accumulated arrays
  // ---------------------------------------------------------------------

  /** Accumulating arrays one at a time gives, in every entry, the sum of
      that entry over the arrays (the per-bin reference definition). */
  lemma {:induction false} SumArraysEntry(rows: seq<seq<real>>, n: nat, e: nat)
    requires Rectangular(rows, n)
    requires e < n
    ensures SumArrays(rows, n)[e] == Sum(Column(rows, e))
    decreases |rows|
  {
    if |rows| == 0 {
    } else {
      var k := |rows| - 1;
      SumArraysEntry(rows[..k], n, e);
      assert Column(rows, e)[..k] == Column(rows[..k], e);
    }
  }

  lemma {:induction false} SumArraysAppend(rows: seq<seq<real>>, row: seq<real>, n: nat)
    requires Rectangular(rows, n)
    requires |row| == n
    ensures Rectangular(rows + [row], n)
    ensures SumArrays(rows + [row], n) == Add(SumArrays(rows, n), row)
  {
    assert (rows + [row])[..|rows|] == rows;
  }

  /** Interchange of summation: adding up the accumulated array equals
      adding up the per-row sums. */
  lemma {:induction false} SumOfSumArrays(rows: seq<seq<real>>, n: nat)
    requires Rectangular(rows, n)
    ensures Sum(SumArrays(rows, n)) == Sum(RowSums(rows))
    decreases |rows|
  {
    if |rows| == 0 {
      SumZeros(n);
    } else {
      var k := |rows| - 1;
      SumOfSumArrays(rows[..k], n);
      SumAdd(SumArrays(rows[..k], n), rows[k]);
      assert RowSums(rows)[..k] == RowSums(rows[..k]);
    }
  }

  /** Interchange of summation for a rectangular matrix: the sum of the row
      sums equals the sum of the column sums. */
  lemma {:induction false} SumSwap(rows: seq<seq<real>>, n: nat)
    requires Rectangular(rows, n)
    ensures Sum(RowSums(rows)) == Sum(seq(n, e requires 0 <= e < n => Sum(Column(rows, e))))
  {
    SumOfSumArrays(rows, n);
    forall e | 0 <= e < n
      ensures SumArrays(rows, n)[e] == Sum(Column(rows, e))
    {
      SumArraysEntry(rows, n, e);
    }
    SumExtensional(SumArrays(rows, n), seq(n, e requires 0 <= e < n => Sum(Column(rows, e))));
  }

  /** Accumulating two lists of arrays one after the other is the
      element-wise sum of accumulating each. */
  lemma {:induction false} SumArraysConcat(a: seq<seq<real>>, b: seq<seq<real>>, n: nat)
    requires Rectangular(a, n) && Rectangular(b, n)
    ensures Rectangular(a + b, n)
    ensures SumArrays(a + b, n) == Add(SumArrays(a, n), SumArrays(b, n))
    decreases |b|
  {
    if |b| == 0 {
      assert a + b == a;
      assert SumArrays(a, n) == Add(SumArrays(a, n), Zeros(n));
    } else {
      var k := |b| - 1;
      assert (a + b)[..|a + b| - 1] == a + b[..k];
      SumArraysConcat(a, b[..k], n);
    }
  }

  /** A quotient by a positive divisor inherits bounds on the dividend. */
  lemma DivideBounds(x: real, d: real, lo: real, hi: real)
    requires 0.0 < d
    requires lo * d <= x <= hi * d
    ensures lo <= x / d <= hi
  {
  }
}
