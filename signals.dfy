/**
  The signal table the analysers work on, and the numeric primitives they
  compose: the gap-filling contract of pandas' two-sided linear
  interpolation, first-threshold crossing, first argmin/argmax, numpy's
  gradient and diff, sorting two peak lists into one, the contract of
  scipy's peak finder, Python's int() and Euclidean distances compared
  through their squares.
*/
module Signals {
  import opened Wrappers

  // ---------------------------------------------------------------------
  // Tables
  // ---------------------------------------------------------------------

  /** One column of a frame table: None stands for NaN (no detection). */
  type Column = seq<Option<real>>

  /**
    One row of a frame table: its `frame_index` and the cells that hold a
    number. A name that is not a key is NaN in this row, or not a column.
  */
  datatype Row = Row(frameIndex: int, cells: map<string, real>)

  /** A frame table: its column names and its rows, in row-position order. */
  datatype Table = Table(columns: seq<string>, rows: seq<Row>)

  /** A row holds values only for the table's columns. */
  predicate WellFormed(t: Table) {
    forall i, name :: 0 <= i < |t.rows| && name in t.rows[i].cells ==> name in t.columns
  }

  /** `row.get(name)` followed by `pd.notna`: the number in the cell, if any. */
  function Cell(r: Row, name: string): Option<real> {
    if name in r.cells then Some(r.cells[name]) else None
  }

  /** `frame_data[name]` as a column. */
  function ColumnOf(t: Table, name: string): (c: Column)
    ensures |c| == |t.rows|
    ensures forall i :: 0 <= i < |c| ==> c[i] == Cell(t.rows[i], name)
  {
    seq(|t.rows|, i requires 0 <= i < |t.rows| => Cell(t.rows[i], name))
  }

  /** `frame_data.empty or frame_data[name].isnull().all()`: nothing to analyse. */
  predicate NoSignal(t: Table, name: string) {
    |t.rows| == 0 || AllMissing(ColumnOf(t, name))
  }

  /** The numbers of a column with no NaN left. */
  function ColumnValues(t: Table, name: string): (v: seq<real>)
    requires Complete(ColumnOf(t, name))
    ensures |v| == |t.rows|
    ensures forall i :: 0 <= i < |t.rows| ==> t.rows[i].cells[name] == v[i] && name in t.rows[i].cells
  {
    Values(ColumnOf(t, name))
  }

  /** `column.isnull().all()` */
  predicate AllMissing(c: Column) {
    forall i :: 0 <= i < |c| ==> c[i].None?
  }

  /** No cell of the column is NaN. */
  predicate Complete(c: Column) {
    forall i :: 0 <= i < |c| ==> c[i].Some?
  }

  /** The shape gap filling leaves a column in: every cell filled, or none. */
  predicate Filled(c: Column) {
    AllMissing(c) || Complete(c)
  }

  /** Two columns recorded together (both NaN on the same frames) after gap filling. */
  predicate CoMissing(a: Column, b: Column) {
    AllMissing(a) <==> AllMissing(b)
  }

  /** The numbers of a complete column. */
  function Values(c: Column): (v: seq<real>)
    requires Complete(c)
    ensures |v| == |c|
    ensures forall i :: 0 <= i < |c| ==> c[i] == Some(v[i])
  {
    seq(|c|, i requires 0 <= i < |c| => c[i].value)
  }

  /** `column.isnull().sum()` */
  function CountMissing(c: Column): (n: nat)
    ensures n <= |c|
    ensures AllMissing(c) ==> n == |c|
    ensures Complete(c) ==> n == 0
    decreases |c|
  {
    if c == [] then 0
    else CountMissing(c[..|c| - 1]) + (if c[|c| - 1].None? then 1 else 0)
  }

  /** `column.dropna()`: the numbers of the column, in row order. */
  function DropNa(c: Column): (v: seq<real>)
    ensures |v| == |c| - CountMissing(c)
    ensures Complete(c) ==> v == Values(c)
    ensures AllMissing(c) ==> v == []
    decreases |c|
  {
    if c == [] then []
    else
      var front := c[..|c| - 1];
      assert Complete(c) ==> Complete(front);
      assert AllMissing(c) ==> AllMissing(front);
      DropNa(front) + (if c[|c| - 1].Some? then [c[|c| - 1].value] else [])
  }

  // ---------------------------------------------------------------------
  // Gap filling: DataFrame.interpolate(method='linear', limit_direction='both')
  // ---------------------------------------------------------------------

  /** The value linear interpolation puts at row `i` between observations at rows `l` and `r`. */
  function Lerp(a: real, b: real, l: int, r: int, i: int): real
    requires l < r
  {
    a + (b - a) * (i - l) as real / (r - l) as real
  }

  /** No observation strictly between rows `l` and `r`. */
  ghost predicate NoneBetween(raw: Column, l: int, r: int) {
    forall k :: 0 <= k < |raw| && l < k < r ==> raw[k].None?
  }

  /**
    `v` is what gap filling puts at row `i`: the observation itself; in a
    leading gap the first observation; in a trailing gap the last one; in
    an interior gap the straight line between the neighbouring observations
    (by row position).
  */
  ghost predicate FilledAt(raw: Column, i: int, v: real)
    requires 0 <= i < |raw|
  {
    if raw[i].Some? then v == raw[i].value
    else
      && (forall r :: i < r < |raw| && raw[r].Some? && NoneBetween(raw, -1, r) ==> v == raw[r].value)
      && (forall l :: 0 <= l < i && raw[l].Some? && NoneBetween(raw, l, |raw|) ==> v == raw[l].value)
      && (forall l, r {:trigger raw[l], raw[r]} ::
            0 <= l < i < r < |raw| && raw[l].Some? && raw[r].Some? && NoneBetween(raw, l, r)
            ==> v == Lerp(raw[l].value, raw[r].value, l, r, i))
  }

  /**
    The contract of pandas' two-sided linear interpolation of one column:
    a column with no observation stays entirely missing; otherwise every
    cell is filled as FilledAt says.
  */
  ghost predicate GapFilled(raw: Column, filled: Column) {
    && |filled| == |raw|
    && (AllMissing(raw) ==> filled == raw)
    && (!AllMissing(raw) ==>
          forall i :: 0 <= i < |raw| ==> filled[i].Some? && FilledAt(raw, i, filled[i].value))
  }

  /** Gap filling leaves the Filled shape, and a column is all-missing after it iff it was before. */
  lemma GapFilledShape(raw: Column, filled: Column)
    requires GapFilled(raw, filled)
    ensures Filled(filled)
    ensures AllMissing(filled) <==> AllMissing(raw)
  {
    if !AllMissing(raw) {
      var k :| 0 <= k < |raw| && raw[k].Some?;
      assert filled[k].Some?;
    }
  }

  /** The nearest observation before row `i`, if any. */
  function LastObservedBefore(raw: Column, i: int): (l: Option<nat>)
    requires 0 <= i <= |raw|
    ensures l.Some? ==> l.value < i && raw[l.value].Some? && NoneBetween(raw, l.value, i)
    ensures l.None? ==> NoneBetween(raw, -1, i)
    decreases i
  {
    if i == 0 then None
    else if raw[i - 1].Some? then Some(i - 1)
    else LastObservedBefore(raw, i - 1)
  }

  /** The nearest observation after row `i`, if any. */
  function FirstObservedAfter(raw: Column, i: int): (r: Option<nat>)
    requires -1 <= i < |raw|
    ensures r.Some? ==> i < r.value < |raw| && raw[r.value].Some? && NoneBetween(raw, i, r.value)
    ensures r.None? ==> NoneBetween(raw, i, |raw|)
    decreases |raw| - i
  {
    if i + 1 == |raw| then None
    else if raw[i + 1].Some? then Some(i + 1)
    else FirstObservedAfter(raw, i + 1)
  }

  lemma ScaledBetween(d: real, s: real)
    requires 0.0 <= s <= 1.0
    ensures d >= 0.0 ==> 0.0 <= d * s <= d
    ensures d <= 0.0 ==> d <= d * s <= 0.0
  {
    if d >= 0.0 {
      assert d * s <= d * 1.0;
    } else {
      assert d * s >= d * 1.0;
    }
  }

  // Real arithmetic facts the solver finds reliably only in a small context.

  lemma DivMul(x: real, y: real)
    requires y != 0.0
    ensures (x / y) * y == x
  {
  }

  lemma MulDivCancel(n: real, a: real)
    requires n != 0.0
    ensures (n * a) / n == a
  {
    DivMul(n * a, n);
    assert ((n * a) / n - a) * n == 0.0;
  }

  lemma FactorNonNegative(a: real, n: real)
    requires n > 0.0 && a * n >= 0.0
    ensures a >= 0.0
  {
  }

  lemma DivWithinUnit(x: real, y: real)
    requires 0.0 <= x <= y && y > 0.0
    ensures 0.0 <= x / y <= 1.0
  {
    var q := x / y;
    DivMul(x, y);
    FactorNonNegative(q, y);
    assert (1.0 - q) * y == y - x;
    FactorNonNegative(1.0 - q, y);
  }

  lemma MulDivAssoc(d: real, x: real, y: real)
    requires y != 0.0
    ensures d * x / y == d * (x / y)
  {
    DivMul(d * x, y);
    DivMul(x, y);
    assert (d * x / y - d * (x / y)) * y == 0.0;
  }

  /** Linear interpolation stays between its two end values. */
  lemma LerpBetween(a: real, b: real, l: int, r: int, i: int)
    requires l <= i <= r && l < r
    ensures Min(a, b) <= Lerp(a, b, l, r, i) <= Max(a, b)
  {
    var x, y := (i - l) as real, (r - l) as real;
    var s := x / y;
    DivWithinUnit(x, y);
    var d := b - a;
    MulDivAssoc(d, x, y);
    assert Lerp(a, b, l, r, i) == a + d * s;
    ScaledBetween(d, s);
    if a <= b {
      assert Min(a, b) == a && Max(a, b) == b;
    } else {
      assert Min(a, b) == b && Max(a, b) == a;
    }
  }

  function Min(a: real, b: real): real { if a <= b then a else b }
  function Max(a: real, b: real): real { if a <= b then b else a }

  /**
    Every filled cell lies between two observations of its column, so
    filling never leaves the range of what was observed.
  */
  lemma {:induction false} GapFilledBetweenObservations(raw: Column, filled: Column, i: int)
    requires GapFilled(raw, filled) && !AllMissing(raw)
    requires 0 <= i < |raw|
    ensures filled[i].Some?
    ensures exists l, r :: 0 <= l < |raw| && 0 <= r < |raw| && raw[l].Some? && raw[r].Some?
              && Min(raw[l].value, raw[r].value) <= filled[i].value <= Max(raw[l].value, raw[r].value)
  {
    var v := filled[i].value;
    assert FilledAt(raw, i, v);
    if raw[i].Some? {
      assert Min(raw[i].value, raw[i].value) <= v <= Max(raw[i].value, raw[i].value);
    } else {
      var lo := LastObservedBefore(raw, i);
      var hi := FirstObservedAfter(raw, i);
      var l := if lo.Some? then lo.value as int else -1;
      var r := if hi.Some? then hi.value as int else |raw|;
      NoneAcross(raw, l, i, r);
      if lo.None? && hi.None? {
        assert false;
      } else if lo.None? {
        assert v == raw[r].value;
        assert Min(raw[r].value, raw[r].value) <= v <= Max(raw[r].value, raw[r].value);
      } else if hi.None? {
        assert v == raw[l].value;
        assert Min(raw[l].value, raw[l].value) <= v <= Max(raw[l].value, raw[l].value);
      } else {
        assert v == Lerp(raw[l].value, raw[r].value, l, r, i);
        LerpBetween(raw[l].value, raw[r].value, l, r, i);
      }
    }
  }

  /** A missing row between two stretches without observations joins them into one. */
  lemma NoneAcross(raw: Column, l: int, i: int, r: int)
    requires l < i < r && 0 <= i < |raw| && raw[i].None?
    requires NoneBetween(raw, l, i) && NoneBetween(raw, i, r)
    ensures NoneBetween(raw, l, r)
  {
    forall k | 0 <= k < |raw| && l < k < r ensures raw[k].None? {
      if k < i {
        assert NoneBetween(raw, l, i);
      } else if k > i {
        assert NoneBetween(raw, i, r);
      }
    }
  }

  /** If every observation lies in [lo, hi], so does every filled cell. */
  lemma GapFilledWithinRange(raw: Column, filled: Column, lo: real, hi: real)
    requires GapFilled(raw, filled) && !AllMissing(raw)
    requires forall k :: 0 <= k < |raw| && raw[k].Some? ==> lo <= raw[k].value <= hi
    ensures Complete(filled)
    ensures forall i :: 0 <= i < |filled| ==> lo <= filled[i].value <= hi
  {
    forall i | 0 <= i < |filled| ensures filled[i].Some? && lo <= filled[i].value <= hi {
      GapFilledBetweenObservations(raw, filled, i);
    }
  }

  /** If every observation is at least `lo`, so is every filled cell. */
  lemma GapFilledAtLeast(raw: Column, filled: Column, lo: real)
    requires GapFilled(raw, filled) && !AllMissing(raw)
    requires forall k :: 0 <= k < |raw| && raw[k].Some? ==> lo <= raw[k].value
    ensures Complete(filled)
    ensures forall i :: 0 <= i < |filled| ==> lo <= filled[i].value
  {
    forall i | 0 <= i < |filled| ensures filled[i].Some? && lo <= filled[i].value {
      GapFilledBetweenObservations(raw, filled, i);
    }
  }

  // ---------------------------------------------------------------------
  // Arithmetic
  // ---------------------------------------------------------------------

  /** Python's abs() of a float. */
  function Abs(x: real): (a: real)
    ensures a >= 0.0 && (a == x || a == -x)
  {
    if x < 0.0 then -x else x
  }

  /** Python's truth value of an optional number: absent and 0.0 are false. */
  predicate Truthy(h: Option<real>) {
    h.Some? && h.value != 0.0
  }

  /** Python's int() of a float: truncation toward zero. */
  function Trunc(x: real): (n: int)
    ensures x >= 0.0 ==> 0 <= n && n as real <= x < n as real + 1.0
    ensures x < 0.0 ==> n <= 0 && n as real - 1.0 < x <= n as real
  {
    if x >= 0.0 then x.Floor else -((-x).Floor)
  }

  /** int() is monotone on non-negative reals. */
  lemma TruncMonotone(x: real, y: real)
    requires 0.0 <= x <= y
    ensures Trunc(x) <= Trunc(y)
  {
  }

  /** `n / fps * 1000` grows with `n`, for a positive frame rate. */
  lemma MillisMonotone(a: int, b: int, fps: real)
    requires 0 <= a <= b && fps > 0.0
    ensures 0.0 <= a as real / fps * 1000.0 <= b as real / fps * 1000.0
  {
    assert a as real / fps <= b as real / fps by {
      assert b as real / fps - a as real / fps == (b - a) as real / fps;
    }
  }

  function Sum(s: seq<real>): real
    decreases |s|
  {
    if s == [] then 0.0 else Sum(s[..|s| - 1]) + s[|s| - 1]
  }

  /** `np.mean` of a non-empty sequence. */
  function Mean(s: seq<real>): real
    requires |s| > 0
  {
    Sum(s) / |s| as real
  }

  lemma {:induction false} SumAtMost(s: seq<real>, c: real)
    requires forall k :: 0 <= k < |s| ==> s[k] <= c
    ensures Sum(s) <= |s| as real * c
    decreases |s|
  {
    if s != [] {
      SumAtMost(s[..|s| - 1], c);
    }
  }

  lemma {:induction false} SumAtLeast(s: seq<real>, c: real)
    requires forall k :: 0 <= k < |s| ==> c <= s[k]
    ensures |s| as real * c <= Sum(s)
    decreases |s|
  {
    if s != [] {
      SumAtLeast(s[..|s| - 1], c);
    }
  }

  /** An upper bound on every element bounds the mean. */
  lemma MeanAtMost(s: seq<real>, c: real)
    requires |s| > 0
    requires forall k :: 0 <= k < |s| ==> s[k] <= c
    ensures Mean(s) <= c
  {
    SumAtMost(s, c);
    var n, m := |s| as real, Mean(s);
    DivMul(Sum(s), n);
    assert (c - m) * n == c * n - Sum(s);
    FactorNonNegative(c - m, n);
  }

  /** A lower bound on every element bounds the mean. */
  lemma MeanAtLeast(s: seq<real>, c: real)
    requires |s| > 0
    requires forall k :: 0 <= k < |s| ==> c <= s[k]
    ensures c <= Mean(s)
  {
    SumAtLeast(s, c);
    var n, m := |s| as real, Mean(s);
    DivMul(Sum(s), n);
    assert (m - c) * n == Sum(s) - n * c;
    FactorNonNegative(m - c, n);
  }

  /** A mean lies within the range of what it averages. */
  lemma MeanWithin(s: seq<real>, lo: real, hi: real)
    requires |s| > 0
    requires forall k :: 0 <= k < |s| ==> lo <= s[k] <= hi
    ensures lo <= Mean(s) <= hi
  {
    MeanAtMost(s, hi);
    MeanAtLeast(s, lo);
  }

  /** `-series`, element by element. */
  function Negate(x: seq<real>): (y: seq<real>)
    ensures |y| == |x|
    ensures forall i :: 0 <= i < |x| ==> y[i] == -x[i]
  {
    seq(|x|, i requires 0 <= i < |x| => -x[i])
  }

  // ---------------------------------------------------------------------
  // Threshold crossing, argmin and argmax
  // ---------------------------------------------------------------------

  /** Row `i` is the first whose value exceeds `t`. */
  predicate IsFirstAbove(x: seq<real>, t: real, i: int) {
    0 <= i < |x| && x[i] > t && forall k :: 0 <= k < i ==> x[k] <= t
  }

  /** `series[series > t].index[0]` when the filter is non-empty. */
  function FirstAbove(x: seq<real>, t: real): (r: Option<nat>)
    ensures r.Some? ==> IsFirstAbove(x, t, r.value)
    ensures r.None? <==> forall k :: 0 <= k < |x| ==> x[k] <= t
    decreases |x|
  {
    if x == [] then None
    else
      var front := FirstAbove(x[..|x| - 1], t);
      if front.Some? then front
      else if x[|x| - 1] > t then Some(|x| - 1)
      else None
  }

  /** The first crossing of a higher line is never before the first crossing of a lower one. */
  lemma FirstAboveOrdered(x: seq<real>, lower: real, higher: real, j: int)
    requires lower <= higher && IsFirstAbove(x, higher, j)
    ensures FirstAbove(x, lower).Some? && FirstAbove(x, lower).value <= j
  {
  }

  /** `np.argmin`: the first index of a smallest element. */
  function ArgMin(s: seq<real>): (k: nat)
    requires |s| > 0
    ensures k < |s|
    ensures forall j :: 0 <= j < |s| ==> s[k] <= s[j]
    ensures forall j :: 0 <= j < k ==> s[k] < s[j]
    decreases |s|
  {
    if |s| == 1 then 0
    else
      var front := ArgMin(s[..|s| - 1]);
      if s[|s| - 1] < s[front] then |s| - 1 else front
  }

  /** `np.argmax`: the first index of a largest element. */
  function ArgMax(s: seq<real>): (k: nat)
    requires |s| > 0
    ensures k < |s|
    ensures forall j :: 0 <= j < |s| ==> s[j] <= s[k]
    ensures forall j :: 0 <= j < k ==> s[j] < s[k]
    decreases |s|
  {
    if |s| == 1 then 0
    else
      var front := ArgMax(s[..|s| - 1]);
      if s[|s| - 1] > s[front] then |s| - 1 else front
  }

  /** Only the first index of a largest element is both largest and ahead of every equal one. */
  lemma ArgMaxUnique(s: seq<real>, k: nat)
    requires k < |s|
    requires forall j :: 0 <= j < |s| ==> s[j] <= s[k]
    requires forall j :: 0 <= j < k ==> s[j] < s[k]
    ensures k == ArgMax(s)
  {
  }

  /** `start + np.argmax(s[start:])`: the first index, from `start` on, of a largest element. */
  function ArgMaxFrom(s: seq<real>, start: nat): (k: nat)
    requires start < |s|
    ensures start <= k < |s|
    ensures forall j :: start <= j < |s| ==> s[j] <= s[k]
    ensures forall j :: start <= j < k ==> s[j] < s[k]
  {
    var rest := s[start..];
    assert forall j :: start <= j < |s| ==> s[j] == rest[j - start];
    start + ArgMax(rest)
  }

  /** `np.max` of a non-empty sequence. */
  function MaxOf(s: seq<real>): (m: real)
    requires |s| > 0
    ensures exists k :: 0 <= k < |s| && s[k] == m
    ensures forall k :: 0 <= k < |s| ==> s[k] <= m
  {
    s[ArgMax(s)]
  }

  // ---------------------------------------------------------------------
  // np.gradient and np.diff
  // ---------------------------------------------------------------------

  /**
    `np.gradient` with unit spacing: one-sided differences at the two
    ends, central differences inside.
  */
  function Gradient(y: seq<real>): (g: seq<real>)
    requires |y| >= 2
    ensures |g| == |y|
  {
    seq(|y|, i requires 0 <= i < |y| =>
      if i == 0 then y[1] - y[0]
      else if i == |y| - 1 then y[|y| - 1] - y[|y| - 2]
      else (y[i + 1] - y[i - 1]) / 2.0)
  }

  /** The gradient of a straight line is its slope everywhere. */
  lemma GradientOfLine(y: seq<real>, a: real, b: real)
    requires |y| >= 2
    requires forall i :: 0 <= i < |y| ==> y[i] == a + b * i as real
    ensures forall i :: 0 <= i < |y| ==> Gradient(y)[i] == b
  {
    forall i | 0 <= i < |y| ensures Gradient(y)[i] == b {
      if 0 < i < |y| - 1 {
        assert y[i + 1] - y[i - 1] == b * (i + 1) as real - b * (i - 1) as real;
      } else if i == 0 {
        assert y[1] - y[0] == b * 1 as real - b * 0 as real;
      } else {
        assert y[i] - y[i - 1] == b * i as real - b * (i - 1) as real;
      }
    }
  }

  /** `np.diff`: differences of consecutive elements. */
  function Diff(s: seq<int>): (d: seq<int>)
    requires |s| >= 1
    ensures |d| == |s| - 1
  {
    seq(|s| - 1, k requires 0 <= k < |s| - 1 => s[k + 1] - s[k])
  }

  function SumInt(s: seq<int>): int
    decreases |s|
  {
    if s == [] then 0 else SumInt(s[..|s| - 1]) + s[|s| - 1]
  }

  /** The differences of a sequence add up to its last element minus its first. */
  lemma {:induction false} DiffTelescopes(s: seq<int>)
    requires |s| >= 1
    ensures SumInt(Diff(s)) == s[|s| - 1] - s[0]
    decreases |s|
  {
    if |s| > 1 {
      var front := s[..|s| - 1];
      DiffTelescopes(front);
      var d := Diff(s);
      assert d[..|d| - 1] == Diff(front);
    }
  }

  // ---------------------------------------------------------------------
  // Sorting two peak lists into one: sorted(np.concatenate([a, b]))
  // ---------------------------------------------------------------------

  predicate SortedAsc(s: seq<int>) {
    forall i, j :: 0 <= i < j < |s| ==> s[i] <= s[j]
  }

  predicate StrictlyIncreasing(s: seq<int>) {
    forall i, j :: 0 <= i < j < |s| ==> s[i] < s[j]
  }

  /** Merge of two sorted lists: a sorted permutation of their concatenation. */
  function Merge(a: seq<nat>, b: seq<nat>): (r: seq<nat>)
    requires SortedAsc(a) && SortedAsc(b)
    ensures SortedAsc(r)
    ensures multiset(r) == multiset(a) + multiset(b)
    decreases |a| + |b|
  {
    if a == [] then b
    else if b == [] then a
    else if a[0] <= b[0] then
      var rest := Merge(a[1..], b);
      MergeHeadBound(a[0], a[1..], b, rest);
      assert a == [a[0]] + a[1..];
      [a[0]] + rest
    else
      var rest := Merge(a, b[1..]);
      MergeHeadBound(b[0], a, b[1..], rest);
      assert b == [b[0]] + b[1..];
      [b[0]] + rest
  }

  lemma MergeHeadBound(h: nat, a: seq<nat>, b: seq<nat>, rest: seq<nat>)
    requires forall k :: 0 <= k < |a| ==> h <= a[k]
    requires forall k :: 0 <= k < |b| ==> h <= b[k]
    requires multiset(rest) == multiset(a) + multiset(b)
    requires SortedAsc(rest)
    ensures SortedAsc([h] + rest)
  {
    forall k | 0 <= k < |rest| ensures h <= rest[k] {
      assert rest[k] in multiset(rest);
      if rest[k] in multiset(a) {
        var j :| 0 <= j < |a| && a[j] == rest[k];
      } else {
        assert rest[k] in multiset(b);
        var j :| 0 <= j < |b| && b[j] == rest[k];
      }
    }
  }

  lemma SortedHeadIsLeast(s: seq<int>, x: int)
    requires SortedAsc(s) && x in multiset(s)
    ensures |s| > 0 && s[0] <= x
  {
    var j :| 0 <= j < |s| && s[j] == x;
  }

  lemma TailMultiset(s: seq<int>)
    requires |s| > 0
    ensures multiset(s[1..]) == multiset(s) - multiset{s[0]}
  {
    assert s == [s[0]] + s[1..];
  }

  /** A sorted permutation is unique: Merge computes exactly what `sorted` returns. */
  lemma {:induction false} SortedPermutationUnique(a: seq<int>, b: seq<int>)
    requires SortedAsc(a) && SortedAsc(b)
    requires multiset(a) == multiset(b)
    ensures a == b
    decreases |a|
  {
    assert |a| == |multiset(a)| == |multiset(b)| == |b|;
    if |a| > 0 {
      assert a[0] in multiset(a);
      SortedHeadIsLeast(b, a[0]);
      assert b[0] in multiset(b);
      SortedHeadIsLeast(a, b[0]);
      assert a[0] == b[0];
      TailMultiset(a);
      TailMultiset(b);
      assert multiset(a[1..]) == multiset(b[1..]);
      assert SortedAsc(a[1..]) && SortedAsc(b[1..]);
      SortedPermutationUnique(a[1..], b[1..]);
      assert a == [a[0]] + a[1..];
      assert b == [b[0]] + b[1..];
    }
  }

  // ---------------------------------------------------------------------
  // scipy.signal.find_peaks, as a contract
  // ---------------------------------------------------------------------

  /**
    What `find_peaks(x, height=height, distance=distance)` promises of the
    indices it returns: strictly increasing, never at either end, each at
    least as high as both neighbours, at least `height` when one is given,
    and neighbouring peaks at least `distance` samples apart. Prominence
    filtering and the choice among close peaks are not described.
  */
  ghost predicate IsPeakSet(x: seq<real>, height: Option<real>, distance: real, p: seq<nat>) {
    && StrictlyIncreasing(p)
    && (forall k :: 0 <= k < |p| ==> 1 <= p[k] <= |x| - 2 && x[p[k] - 1] <= x[p[k]] && x[p[k] + 1] <= x[p[k]])
    && (forall k :: 0 <= k < |p| - 1 ==> p[k] as real + distance <= p[k + 1] as real)
    && (height.Some? ==> forall k :: 0 <= k < |p| ==> height.value <= x[p[k]])
  }

  /** find_peaks raises a ValueError for a `distance` below one sample. */
  predicate PeakDistanceAccepted(distance: real) {
    distance >= 1.0
  }

  /** The values of `x` at the indices `p`: `x[peaks]`. */
  function Select(x: seq<real>, p: seq<nat>): (v: seq<real>)
    requires forall k :: 0 <= k < |p| ==> p[k] < |x|
    ensures |v| == |p|
    ensures forall k :: 0 <= k < |p| ==> v[k] == x[p[k]]
  {
    seq(|p|, k requires 0 <= k < |p| => x[p[k]])
  }

  // ---------------------------------------------------------------------
  // Euclidean distances
  // ---------------------------------------------------------------------

  /** The squared Euclidean distance between two points. */
  function SqDist(x0: real, y0: real, x1: real, y1: real): (d: real)
    ensures d >= 0.0
  {
    (x1 - x0) * (x1 - x0) + (y1 - y0) * (y1 - y0)
  }

  /** `sqrt(sq) > t`, decided on the square. */
  predicate Exceeds(sq: real, t: real) {
    t < 0.0 || sq > t * t
  }

  /** A function that is a square root on the non-negative reals (`np.sqrt`). */
  ghost predicate IsSqrtFn(sqrt: real -> real) {
    forall x :: 0.0 <= x ==> 0.0 <= sqrt(x) && sqrt(x) * sqrt(x) == x
  }

  /** A norm exceeds `t` exactly when its square Exceeds `t`. */
  lemma NormExceeds(d: real, sq: real, t: real)
    requires 0.0 <= d && d * d == sq
    ensures d > t <==> Exceeds(sq, t)
  {
    if t >= 0.0 {
      if d > t {
        assert d * d > t * d >= t * t;
      } else {
        assert d * d <= t * d <= t * t;
      }
    }
  }

  /** A larger square never Exceeds less. */
  lemma ExceedsMonotone(a: real, b: real, t: real)
    requires a <= b && Exceeds(a, t)
    ensures Exceeds(b, t)
  {
  }

  /** The largest square Exceeds `t` iff some square does: `np.max(d) > t`. */
  lemma MaxExceeds(s: seq<real>, t: real)
    requires |s| > 0
    ensures Exceeds(MaxOf(s), t) <==> exists k :: 0 <= k < |s| && Exceeds(s[k], t)
  {
    if exists k :: 0 <= k < |s| && Exceeds(s[k], t) {
      var k :| 0 <= k < |s| && Exceeds(s[k], t);
      ExceedsMonotone(s[k], MaxOf(s), t);
    }
  }

  /** A square root is strictly increasing, so an argmax of norms is the argmax of their squares. */
  lemma SqrtStrictlyMonotone(sqrt: real -> real, a: real, b: real)
    requires IsSqrtFn(sqrt)
    requires 0.0 <= a < b
    ensures sqrt(a) < sqrt(b)
  {
    var x, y := sqrt(a), sqrt(b);
    assert 0.0 <= x && x * x == a;
    assert 0.0 <= y && y * y == b;
  }
}
