/** Time windows and their aggregates: greedy windows need the fewest intervals, they cut the rows
    into consecutive pieces, and what is computed per window adds up to the whole column. */
module AggregateWindows {
  import opened Common

  datatype Window = Window(startRow: nat, endRow: int, windowStart: int, windowEnd: int,
                           includedRows: seq<nat>, isPartial: bool)

  function Range(from: nat, to: nat): (r: seq<nat>)
    requires from <= to
  {
    seq(to - from, i requires 0 <= i < to - from => from + i)
  }

  /** The window of the rows from `start` up to but not including `end`. */
  function WindowAt(ts: seq<int>, interval: int, start: nat, end: nat, partial: bool): Window
    requires start <= end <= |ts| && start < |ts|
  {
    Window(start, end - 1, ts[start], ts[start] + interval, Range(start, end), partial)
  }

  /** The windows from row `i` on, when the current one started at row `start`. */
  function WindowsFrom(ts: seq<int>, interval: int, start: nat, i: nat): seq<Window>
    requires start < |ts| && start <= i <= |ts|
    decreases |ts| - i
  {
    if i == |ts| then [WindowAt(ts, interval, start, i, true)]
    else if ts[i] >= ts[start] + interval then
      [WindowAt(ts, interval, start, i, false)] + WindowsFrom(ts, interval, i, i + 1)
    else WindowsFrom(ts, interval, start, i + 1)
  }

  function WindowsOf(ts: seq<int>, interval: int): seq<Window> {
    if ts == [] then [] else WindowsFrom(ts, interval, 0, 0)
  }

  /** The window that starts at row `start` and ends before row `end`. */
  predicate IsWindow(w: Window, ts: seq<int>, interval: int, start: nat, end: nat, partial: bool) {
    && start < end <= |ts|
    && w.startRow == start && w.endRow == end - 1 && w.isPartial == partial
    && w.windowStart == ts[start] && w.windowEnd == ts[start] + interval
    && |w.includedRows| == end - start && (forall i | 0 <= i < end - start :: w.includedRows[i] == start + i)
    && forall r | start <= r < end :: ts[r] < ts[start] + interval
  }

  /** `cuts` are the rows at which windows start, and the number of rows at the end. */
  predicate Cuts(cuts: seq<nat>, from: nat, n: nat) {
    && |cuts| >= 2 && cuts[0] == from && cuts[|cuts| - 1] == n
    && forall k | 0 <= k < |cuts| - 1 :: cuts[k] < cuts[k + 1]
  }

  /** The windows hold the rows between cuts, each row before the end of its window; a window
      starts no earlier than the one before it ends, and only the last is partial. */
  ghost predicate Pieces(ws: seq<Window>, cuts: seq<nat>, ts: seq<int>, interval: int, from: nat) {
    && Cuts(cuts, from, |ts|) && |ws| == |cuts| - 1
    && (forall k | 0 <= k < |ws| :: IsWindow(ws[k], ts, interval, cuts[k], cuts[k + 1], k == |ws| - 1))
    && forall k | 1 <= k < |ws| :: ws[k].windowStart >= ws[k - 1].windowEnd
  }

  ghost predicate Windowing(ws: seq<Window>, cuts: seq<nat>, ts: seq<int>, interval: int) {
    Pieces(ws, cuts, ts, interval, 0)
  }

  // ---------------------------------------------------------------- optimality

  predicate Ascending(ts: seq<int>) { forall i, j | 0 <= i < j < |ts| :: ts[i] <= ts[j] }

  /** Every timestamp lies in one of the half-open intervals that start at `lefts`. */
  predicate Covers(lefts: seq<int>, ts: seq<int>, interval: int) {
    forall i | 0 <= i < |ts| :: Covered(lefts, ts[i], interval)
  }

  predicate Covered(lefts: seq<int>, t: int, interval: int) {
    exists c :: 0 <= c < |lefts| && lefts[c] <= t < lefts[c] + interval
  }

  lemma {:induction false} WindowingFrom(ts: seq<int>, interval: int, start: nat, i: nat) returns (cuts: seq<nat>)
    requires interval > 0 && start < i <= |ts| && forall r | start <= r < i :: ts[r] < ts[start] + interval
    ensures Pieces(WindowsFrom(ts, interval, start, i), cuts, ts, interval, start)
    decreases |ts| - i
  {
    if i == |ts| {
      cuts := [start, i];
    } else if ts[i] >= ts[start] + interval {
      var rest := WindowingFrom(ts, interval, i, i + 1);
      cuts := [start] + rest;
      PiecesCons(ts, interval, start, i, WindowsFrom(ts, interval, i, i + 1), rest);
    } else {
      cuts := WindowingFrom(ts, interval, start, i + 1);
    }
  }

  lemma PiecesCons(ts: seq<int>, interval: int, start: nat, i: nat, ws: seq<Window>, cuts: seq<nat>)
    requires start < i < |ts| && Pieces(ws, cuts, ts, interval, i) && ts[i] >= ts[start] + interval
    requires forall r | start <= r < i :: ts[r] < ts[start] + interval
    ensures Pieces([WindowAt(ts, interval, start, i, false)] + ws, [start] + cuts, ts, interval, start)
  {
    var w := WindowAt(ts, interval, start, i, false);
    var ws', cuts' := [w] + ws, [start] + cuts;
    hide Range;
    assert IsWindow(w, ts, interval, start, i, false);
    forall k | 0 <= k < |ws'| ensures IsWindow(ws'[k], ts, interval, cuts'[k], cuts'[k + 1], k == |ws'| - 1) {
      if k > 0 {
        assert IsWindow(ws[k - 1], ts, interval, cuts[k - 1], cuts[k], k - 1 == |ws| - 1);
      }
    }
    forall k | 1 <= k < |ws'| ensures ws'[k].windowStart >= ws'[k - 1].windowEnd {
      if k == 1 {
        assert IsWindow(ws[0], ts, interval, cuts[0], cuts[1], 0 == |ws| - 1);
      } else {
        assert ws[k - 1].windowStart >= ws[k - 2].windowEnd;
      }
    }
  }

  /** For a positive interval the windows are non-empty and cut the batch into consecutive pieces. */
  lemma WindowsPartition(ts: seq<int>, interval: int) returns (cuts: seq<nat>)
    requires interval > 0 && ts != []
    ensures Windowing(WindowsOf(ts, interval), cuts, ts, interval)
  {
    cuts := WindowingFrom(ts, interval, 0, 1);
  }

  /** Without a positive interval the first window is empty. */
  lemma FirstWindowEmptyIff(ts: seq<int>, interval: int)
    requires ts != []
    ensures WindowsOf(ts, interval) != []
    ensures interval <= 0 <==> WindowsOf(ts, interval)[0].includedRows == []
  {
    if interval > 0 {
      var cuts := WindowsPartition(ts, interval);
      assert IsWindow(WindowsOf(ts, interval)[0], ts, interval, cuts[0], cuts[1], 0 == |WindowsOf(ts, interval)| - 1);
      assert Range(cuts[0], cuts[1])[0] == 0;
    }
  }

  /** Window starts are an interval apart each, sorted input or not. */
  lemma {:induction false} StartsApart(ws: seq<Window>, cuts: seq<nat>, ts: seq<int>, interval: int, j: nat, k: nat)
    requires interval > 0 && Windowing(ws, cuts, ts, interval) && j < k < |ws|
    ensures ws[k].windowStart >= ws[j].windowStart + interval * (k - j)
    decreases k
  {
    assert IsWindow(ws[k], ts, interval, cuts[k], cuts[k + 1], k == |ws| - 1);
    assert IsWindow(ws[k - 1], ts, interval, cuts[k - 1], cuts[k], false);
    if j < k - 1 {
      StartsApart(ws, cuts, ts, interval, j, k - 1);
      assert interval * (k - j) == interval * (k - 1 - j) + interval;
    }
  }

  lemma {:induction false} Pigeonhole(fs: seq<nat>, m: nat)
    requires forall i | 0 <= i < |fs| :: fs[i] < m
    requires forall i, j | 0 <= i < j < |fs| :: fs[i] != fs[j]
    ensures |fs| <= m
  {
    if fs != [] {
      assert fs[0] < m;
      if i :| 0 <= i < |fs| && fs[i] == m - 1 {
        Pigeonhole(fs[..i] + fs[i + 1..], m - 1);
      } else {
        Pigeonhole(fs, m - 1);
      }
    }
  }

  /** No cover by intervals of this length has fewer intervals than there are windows. */
  lemma WindowsAreFewest(ws: seq<Window>, cuts: seq<nat>, ts: seq<int>, interval: int, lefts: seq<int>)
    requires interval > 0 && Windowing(ws, cuts, ts, interval) && Covers(lefts, ts, interval)
    ensures |ws| <= |lefts|
  {
    var fs: seq<nat> := [];
    for k := 0 to |ws|
      invariant |fs| == k
      invariant forall i | 0 <= i < k :: fs[i] < |lefts| && lefts[fs[i]] <= ws[i].windowStart < lefts[fs[i]] + interval
      invariant forall i, j | 0 <= i < j < k :: fs[i] != fs[j]
    {
      assert IsWindow(ws[k], ts, interval, cuts[k], cuts[k + 1], k == |ws| - 1);
      assert Covered(lefts, ts[cuts[k]], interval);
      var c: nat :| c < |lefts| && lefts[c] <= ts[cuts[k]] < lefts[c] + interval;
      forall i | 0 <= i < k ensures fs[i] != c {
        StartsApart(ws, cuts, ts, interval, i, k);
        assert interval * (k - i) >= interval by { AtLeastOnce(interval, k - i); }
      }
      fs := fs + [c];
    }
    Pigeonhole(fs, |lefts|);
  }

  lemma AtLeastOnce(interval: int, n: int)
    requires interval > 0 && n >= 1
    ensures interval * n >= interval
  {
  }

  function Lefts(ws: seq<Window>): seq<int> {
    seq(|ws|, k requires 0 <= k < |ws| => ws[k].windowStart)
  }

  /** Sorted timestamps are covered by the windows themselves, so their number is the minimum. */
  lemma WindowsCover(ws: seq<Window>, cuts: seq<nat>, ts: seq<int>, interval: int)
    requires interval > 0 && Windowing(ws, cuts, ts, interval) && Ascending(ts)
    ensures Covers(Lefts(ws), ts, interval) && |Lefts(ws)| == |ws|
  {
    var lefts := Lefts(ws);
    forall i | 0 <= i < |ts| ensures Covered(lefts, ts[i], interval) {
      var k := WindowOf(cuts, i, |cuts| - 1);
      assert IsWindow(ws[k], ts, interval, cuts[k], cuts[k + 1], k == |ws| - 1);
      assert lefts[k] == ts[cuts[k]];
      assert ts[cuts[k]] <= ts[i] by { assert cuts[k] == i || cuts[k] < i; }
      assert ts[i] < lefts[k] + interval;
      assert 0 <= k < |lefts|;
    }
  }

  /** For sorted timestamps the windows are a cover with the fewest intervals. */
  lemma WindowsAreMinimumCover(ts: seq<int>, interval: int)
    requires interval > 0 && Ascending(ts)
    ensures Covers(Lefts(WindowsOf(ts, interval)), ts, interval)
    ensures forall lefts | Covers(lefts, ts, interval) :: |Lefts(WindowsOf(ts, interval))| <= |lefts|
  {
    if ts != [] {
      var ws := WindowsOf(ts, interval);
      var cuts := WindowsPartition(ts, interval);
      WindowsCover(ws, cuts, ts, interval);
      forall lefts | Covers(lefts, ts, interval) ensures |ws| <= |lefts| {
        WindowsAreFewest(ws, cuts, ts, interval, lefts);
      }
    }
  }

  lemma {:induction false} WindowOf(cuts: seq<nat>, i: nat, n: nat) returns (k: nat)
    requires 1 <= n < |cuts| && cuts[0] == 0 && i < cuts[n]
    ensures k < n && cuts[k] <= i < cuts[k + 1]
  {
    if cuts[n - 1] <= i {
      k := n - 1;
    } else {
      k := WindowOf(cuts, i, n - 1);
    }
  }

  // ---------------------------------------------------------------- aggregates

  datatype Aggregate = Avg | Sum | Min | Max | Count

  function SumOf(v: seq<real>): real {
    if v == [] then 0.0 else SumOf(v[..|v| - 1]) + v[|v| - 1]
  }

  function MinOf(v: seq<real>): (m: real)
    requires v != []
    ensures m in v && forall i | 0 <= i < |v| :: m <= v[i]
  {
    if |v| == 1 then v[0]
    else var m := MinOf(v[..|v| - 1]); if v[|v| - 1] < m then v[|v| - 1] else m
  }

  function MaxOf(v: seq<real>): (m: real)
    requires v != []
    ensures m in v && forall i | 0 <= i < |v| :: v[i] <= m
  {
    if |v| == 1 then v[0]
    else var m := MaxOf(v[..|v| - 1]); if m < v[|v| - 1] then v[|v| - 1] else m
  }

  lemma {:induction false} SumConcat(a: seq<real>, b: seq<real>)
    ensures SumOf(a + b) == SumOf(a) + SumOf(b)
    decreases |b|
  {
    if b == [] {
      assert a + b == a;
    } else {
      assert (a + b)[..|a + b| - 1] == a + b[..|b| - 1];
      SumConcat(a, b[..|b| - 1]);
    }
  }

  function Aggregated(f: Aggregate, v: seq<real>): real {
    if v == [] then 0.0
    else match f
      case Avg => SumOf(v) / |v| as real
      case Sum => SumOf(v)
      case Min => MinOf(v)
      case Max => MaxOf(v)
      case Count => |v| as real
  }

  /** The values of a column in the rows of a window. */
  function Slice(w: Window, v: seq<real>): seq<real>
    requires w.startRow <= w.endRow < |v|
  {
    v[w.startRow..w.endRow + 1]
  }

  function PerWindow(f: Aggregate, ws: seq<Window>, v: seq<real>): (r: seq<real>)
    requires forall k | 0 <= k < |ws| :: ws[k].startRow <= ws[k].endRow < |v|
    ensures |r| == |ws|
  {
    seq(|ws|, k requires 0 <= k < |ws| => Aggregated(f, Slice(ws[k], v)))
  }

  /** Window `k` holds the rows from one cut to the next. */
  predicate Between(ws: seq<Window>, cuts: seq<nat>, n: nat, k: nat)
    requires k < |ws| == |cuts| - 1
  {
    ws[k].startRow == cuts[k] < cuts[k + 1] == ws[k].endRow + 1 <= n
  }

  lemma RowsInside(ws: seq<Window>, cuts: seq<nat>, ts: seq<int>, interval: int)
    requires Windowing(ws, cuts, ts, interval)
    ensures forall k | 0 <= k < |ws| :: Between(ws, cuts, |ts|, k)
  {
    forall k | 0 <= k < |ws| ensures Between(ws, cuts, |ts|, k) {
      assert IsWindow(ws[k], ts, interval, cuts[k], cuts[k + 1], k == |ws| - 1);
    }
  }

  lemma {:induction false} CutsMonotone(cuts: seq<nat>, n: nat, k: nat)
    requires Cuts(cuts, 0, n) && k < |cuts|
    ensures cuts[k] <= n && (k > 0 ==> cuts[k] > 0)
    decreases |cuts| - k
  {
    if k < |cuts| - 1 {
      CutsMonotone(cuts, n, k + 1);
    }
    if k > 0 {
      assert cuts[k - 1] < cuts[k - 1 + 1];
    }
  }

  /** One more window adds its rows and its aggregate. */
  lemma OneMoreWindow(f: Aggregate, ws: seq<Window>, cuts: seq<nat>, v: seq<real>, n: nat)
    requires Cuts(cuts, 0, |v|) && n < |ws| == |cuts| - 1 && forall k | 0 <= k < |ws| :: Between(ws, cuts, |v|, k)
    requires forall k | 0 <= k < |ws| :: ws[k].startRow <= ws[k].endRow < |v|
    ensures cuts[n] < cuts[n + 1] <= |v|
    ensures var here := v[cuts[n]..cuts[n + 1]]; var r := PerWindow(f, ws, v);
            && here != [] && v[..cuts[n + 1]] == v[..cuts[n]] + here && r[n] == Aggregated(f, here)
            && r[..n + 1] == r[..n] + [r[n]]
  {
    hide Aggregated;
    assert Between(ws, cuts, |v|, n);
    assert Slice(ws[n], v) == v[cuts[n]..cuts[n + 1]];
  }

  lemma {:induction false} SumsUpTo(ws: seq<Window>, cuts: seq<nat>, v: seq<real>, n: nat)
    requires Cuts(cuts, 0, |v|) && n <= |ws| == |cuts| - 1 && forall k | 0 <= k < |ws| :: Between(ws, cuts, |v|, k)
    requires forall k | 0 <= k < |ws| :: ws[k].startRow <= ws[k].endRow < |v|
    ensures cuts[n] <= |v|
    ensures SumOf(PerWindow(Sum, ws, v)[..n]) == SumOf(v[..cuts[n]])
    ensures SumOf(PerWindow(Count, ws, v)[..n]) == cuts[n] as real
  {
    hide PerWindow, Between;
    CutsMonotone(cuts, |v|, n);
    if n > 0 {
      SumsUpTo(ws, cuts, v, n - 1);
      OneMoreWindow(Sum, ws, cuts, v, n - 1);
      OneMoreWindow(Count, ws, cuts, v, n - 1);
      var here := v[cuts[n - 1]..cuts[n]];
      SumConcat(v[..cuts[n - 1]], here);
      SumAppend(PerWindow(Sum, ws, v)[..n - 1], SumOf(here));
      SumAppend(PerWindow(Count, ws, v)[..n - 1], |here| as real);
    }
  }

  lemma SumAppend(a: seq<real>, x: real)
    ensures SumOf(a + [x]) == SumOf(a) + x
  {
    assert (a + [x])[..|a|] == a;
  }

  lemma Extremes(a: seq<real>, b: seq<real>)
    requires a != [] && b != []
    ensures MinOf(a + b) == if MinOf(b) < MinOf(a) then MinOf(b) else MinOf(a)
    ensures MaxOf(a + b) == if MaxOf(a) < MaxOf(b) then MaxOf(b) else MaxOf(a)
  {
    assert forall i | 0 <= i < |a| :: (a + b)[i] == a[i];
    assert forall i | 0 <= i < |b| :: (a + b)[|a| + i] == b[i];
  }

  lemma {:induction false} ExtremesUpTo(ws: seq<Window>, cuts: seq<nat>, v: seq<real>, n: nat)
    requires Cuts(cuts, 0, |v|) && 0 < n <= |ws| == |cuts| - 1 && forall k | 0 <= k < |ws| :: Between(ws, cuts, |v|, k)
    requires forall k | 0 <= k < |ws| :: ws[k].startRow <= ws[k].endRow < |v|
    ensures 0 < cuts[n] <= |v|
    ensures MinOf(PerWindow(Min, ws, v)[..n]) == MinOf(v[..cuts[n]])
    ensures MaxOf(PerWindow(Max, ws, v)[..n]) == MaxOf(v[..cuts[n]])
  {
    hide PerWindow, Between;
    CutsMonotone(cuts, |v|, n);
    OneMoreWindow(Min, ws, cuts, v, n - 1);
    OneMoreWindow(Max, ws, cuts, v, n - 1);
    var here := v[cuts[n - 1]..cuts[n]];
    if n > 1 {
      ExtremesUpTo(ws, cuts, v, n - 1);
      Extremes(v[..cuts[n - 1]], here);
      Extremes(PerWindow(Min, ws, v)[..n - 1], [MinOf(here)]);
      Extremes(PerWindow(Max, ws, v)[..n - 1], [MaxOf(here)]);
    } else {
      assert v[..0] + here == here;
    }
  }

  /** The values of the first `n` windows, each weighted by the number of rows in its window. */
  function Weighted(ws: seq<Window>, values: seq<real>, n: nat): real
    requires n <= |ws| == |values|
  {
    if n == 0 then 0.0 else Weighted(ws, values, n - 1) + |ws[n - 1].includedRows| as real * values[n - 1]
  }

  lemma {:induction false} AveragesUpTo(ws: seq<Window>, cuts: seq<nat>, ts: seq<int>, interval: int, v: seq<real>, n: nat)
    requires Windowing(ws, cuts, ts, interval) && |v| == |ts| && n <= |ws|
    requires forall k | 0 <= k < |ws| :: ws[k].startRow <= ws[k].endRow < |v|
    ensures cuts[n] <= |v| && Weighted(ws, PerWindow(Avg, ws, v), n) == SumOf(v[..cuts[n]])
  {
    hide PerWindow, Between, Aggregated, SumOf, Slice, IsWindow;
    CutsMonotone(cuts, |v|, n);
    if n == 0 {
      assert v[..cuts[0]] == [];
      NothingSums();
    } else {
      AveragesUpTo(ws, cuts, ts, interval, v, n - 1);
      RowsInside(ws, cuts, ts, interval);
      OneMoreWindow(Avg, ws, cuts, v, n - 1);
      var here := v[cuts[n - 1]..cuts[n]];
      SumConcat(v[..cuts[n - 1]], here);
      Share(here);
      RowCount(ws, cuts, ts, interval, n - 1);
    }
  }

  lemma RowCount(ws: seq<Window>, cuts: seq<nat>, ts: seq<int>, interval: int, k: nat)
    requires Windowing(ws, cuts, ts, interval) && k < |ws|
    ensures |ws[k].includedRows| == cuts[k + 1] - cuts[k]
  {
    assert IsWindow(ws[k], ts, interval, cuts[k], cuts[k + 1], k == |ws| - 1);
  }

  lemma NothingSums()
    ensures SumOf([]) == 0.0
  {
  }

  /** An average times the number of values is their sum. */
  lemma Share(v: seq<real>)
    requires v != []
    ensures |v| as real * Aggregated(Avg, v) == SumOf(v)
  {
    hide SumOf;
  }

  /** Sums, counts, minima and maxima of the windows combine to those of the whole column, and the
      averages, weighted by the rows of their windows, to its sum. */
  lemma WindowsRecombine(ws: seq<Window>, cuts: seq<nat>, ts: seq<int>, interval: int, v: seq<real>)
    requires interval > 0 && Windowing(ws, cuts, ts, interval) && |v| == |ts|
    ensures forall k | 0 <= k < |ws| :: ws[k].startRow <= ws[k].endRow < |v|
    ensures SumOf(PerWindow(Sum, ws, v)) == SumOf(v)
    ensures SumOf(PerWindow(Count, ws, v)) == |v| as real
    ensures MinOf(PerWindow(Min, ws, v)) == MinOf(v)
    ensures MaxOf(PerWindow(Max, ws, v)) == MaxOf(v)
    ensures Weighted(ws, PerWindow(Avg, ws, v), |ws|) == SumOf(v)
  {
    hide SumOf, MinOf, MaxOf, IsWindow;
    RowsInside(ws, cuts, ts, interval);
    forall k | 0 <= k < |ws| ensures ws[k].startRow <= ws[k].endRow < |v| {
      assert Between(ws, cuts, |v|, k);
    }
    SumsUpTo(ws, cuts, v, |ws|);
    ExtremesUpTo(ws, cuts, v, |ws|);
    AveragesUpTo(ws, cuts, ts, interval, v, |ws|);
    assert v[..|v|] == v;
    forall f: Aggregate ensures PerWindow(f, ws, v)[..|ws|] == PerWindow(f, ws, v) {
    }
  }
}
